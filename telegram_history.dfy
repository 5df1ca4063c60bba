// services/telegram_history_service.py: reading a group's history. The
// Telegram client is outside the model: what its iterator yields for a
// request (already limited by count and message ids) is a parameter, and
// the service turns it into message records, batches and a chronological
// list.
module TelegramHistory {
  import opened Wrappers

  /** An item of the client's iterator: a message, or some other event
    * (service notices and the like). `text` is None for a message without
    * text; `fromUser` is the sender's user id when the message has a sender. */
  datatype Item =
    | MessageItem(id: int, text: Option<string>, date: int, fromUser: Option<int>, replyTo: Option<int>)
    | OtherItem

  /** The record fetch_messages yields for a message. */
  datatype Message = Message(id: int, text: string, date: int, userId: Option<int>, replyTo: Option<int>)

  /** Whether fetch_messages yields the item: a message whose text is
    * truthy. */
  predicate Yields(item: Item)
  {
    item.MessageItem? && item.text.Some? && item.text.value != []
  }

  /** The record of a yielded item. */
  function RecordOf(item: Item): (m: Message)
    requires Yields(item)
    ensures m.id == item.id && m.text == item.text.value && m.text != []
    ensures m.userId == item.fromUser && m.replyTo == item.replyTo
  {
    Message(item.id, item.text.value, item.date, item.fromUser, item.replyTo)
  }

  /** The records fetch_messages yields for a stream, in stream order. */
  function Kept(items: seq<Item>): seq<Message>
  {
    if items == [] then []
    else Kept(items[..|items| - 1]) + (if Yields(items[|items| - 1]) then [RecordOf(items[|items| - 1])] else [])
  }

  /** Filtering distributes over concatenation, so the filter keeps stream
    * order. */
  lemma {:induction false} KeptAppend(a: seq<Item>, b: seq<Item>)
    ensures Kept(a + b) == Kept(a) + Kept(b)
    decreases |b|
  {
    if b == [] {
      assert a + b == a;
    } else {
      var b' := b[..|b| - 1];
      assert (a + b)[..|a + b| - 1] == a + b';
      KeptAppend(a, b');
    }
  }

  /** What the filter keeps: only records of messages with text, no more
    * than the stream has, and every yielded item of the stream. */
  lemma {:induction false} KeptSpec(items: seq<Item>)
    ensures |Kept(items)| <= |items|
    ensures forall m :: m in Kept(items) ==> m.text != []
    ensures forall i :: 0 <= i < |items| && Yields(items[i]) ==> RecordOf(items[i]) in Kept(items)
  {
    if items != [] {
      var init := items[..|items| - 1];
      KeptSpec(init);
      forall i | 0 <= i < |items| && Yields(items[i]) ensures RecordOf(items[i]) in Kept(items) {
        if i < |init| {
          assert items[i] == init[i];
        }
      }
    }
  }

  /** The stream reversed. */
  function Reversed<T>(s: seq<T>): (r: seq<T>)
  {
    if s == [] then [] else [s[|s| - 1]] + Reversed(s[..|s| - 1])
  }

  /** Reversal keeps the length, mirrors the positions and undoes itself. */
  lemma {:induction false} ReversedSpec<T>(s: seq<T>)
    ensures |Reversed(s)| == |s|
    ensures forall i :: 0 <= i < |s| ==> Reversed(s)[i] == s[|s| - 1 - i]
  {
    if s != [] {
      ReversedSpec(s[..|s| - 1]);
    }
  }

  lemma ReversedTwice<T>(s: seq<T>)
    ensures Reversed(Reversed(s)) == s
  {
    ReversedSpec(s);
    ReversedSpec(Reversed(s));
  }

  /** The messages of a list of batches, in order. */
  function Flatten<T>(batches: seq<seq<T>>): seq<T>
  {
    if batches == [] then [] else Flatten(batches[..|batches| - 1]) + batches[|batches| - 1]
  }

  lemma FlattenAppend<T>(batches: seq<seq<T>>, b: seq<T>)
    ensures Flatten(batches + [b]) == Flatten(batches) + b
  {
    assert (batches + [b])[..|batches|] == batches;
  }

  /** list.reverse(): reverses the array in place. */
  method ReverseInPlace(a: array<Message>)
    modifies a
    ensures a[..] == Reversed(old(a[..]))
  {
    ghost var s := a[..];
    var i, j := 0, a.Length - 1;
    while i < j
      invariant 0 <= i <= a.Length && j == a.Length - 1 - i
      invariant i <= j + 1
      invariant forall k :: 0 <= k < i ==> a[k] == s[a.Length - 1 - k]
      invariant forall k :: j < k < a.Length ==> a[k] == s[a.Length - 1 - k]
      invariant forall k :: i <= k <= j ==> a[k] == s[k]
    {
      a[i], a[j] := a[j], a[i];
      i, j := i + 1, j - 1;
    }
    ReversedSpec(s);
    assert a[..] == Reversed(s);
  }

  class HistoryService {
    /** The service's _connected flag. */
    var connected: bool
    /** Whether self.client has been created. */
    var hasClient: bool

    constructor()
      ensures !connected && !hasClient
    {
      connected, hasClient := false, false;
    }

    /** connect: nothing when already connected; otherwise creates the
      * client and marks the service connected. */
    method Connect()
      modifies this
      ensures connected
      ensures old(connected) ==> hasClient == old(hasClient)
      ensures !old(connected) ==> hasClient
    {
      if connected {
        return;
      }
      hasClient := true;
      connected := true;
    }

    /** disconnect: only a created and connected client is disconnected. */
    method Disconnect()
      modifies this
      ensures hasClient == old(hasClient)
      ensures connected == (old(connected) && !old(hasClient))
    {
      if hasClient && connected {
        connected := false;
      }
    }

    /** fetch_messages: connects, then yields a record for every message
      * with text, skipping other items and empty messages. */
    method FetchMessages(items: seq<Item>) returns (out: seq<Message>)
      modifies this
      ensures connected
      ensures out == Kept(items)
    {
      Connect();
      out := [];
      var i := 0;
      while i < |items|
        invariant 0 <= i <= |items|
        invariant out == Kept(items[..i])
      {
        assert items[..i + 1][..i] == items[..i];
        if Yields(items[i]) {
          out := out + [RecordOf(items[i])];
        }
        i := i + 1;
      }
      assert items[..i] == items;
    }

    /** fetch_messages_batch: the fetched messages cut into batches of
      * batch_size; the last batch holds the rest. A batch size below 1
      * closes a batch after every message. */
    method FetchMessagesBatch(items: seq<Item>, batchSize: int) returns (batches: seq<seq<Message>>)
      modifies this
      ensures connected
      ensures Flatten(batches) == Kept(items)
      ensures forall k :: 0 <= k < |batches| ==> batches[k] != []
      ensures forall k :: 0 <= k < |batches| - 1 ==> |batches[k]| == Max(batchSize, 1)
      ensures batches != [] ==> |batches[|batches| - 1]| <= Max(batchSize, 1)
    {
      var ms := FetchMessages(items);
      batches := Chunk(ms, batchSize);
    }

    /** fetch_new_messages_since: the fetched messages, newest first from
      * the client, reversed in place so the oldest comes first. */
    method FetchNewMessagesSince(items: seq<Item>) returns (out: seq<Message>)
      modifies this
      ensures connected
      ensures out == Reversed(Kept(items))
    {
      var ms := FetchMessages(items);
      var a := new Message[|ms|](k requires 0 <= k < |ms| => ms[k]);
      assert a[..] == ms;
      ReverseInPlace(a);
      out := a[..];
    }
  }

  /** The batching loop of fetch_messages_batch: full batches of
    * max(batchSize, 1) messages in order, then the remainder, if any. */
  method Chunk(ms: seq<Message>, batchSize: int) returns (batches: seq<seq<Message>>)
    ensures Flatten(batches) == ms
    ensures forall k :: 0 <= k < |batches| ==> batches[k] != []
    ensures forall k :: 0 <= k < |batches| - 1 ==> |batches[k]| == Max(batchSize, 1)
    ensures batches != [] ==> |batches[|batches| - 1]| <= Max(batchSize, 1)
  {
    var size := Max(batchSize, 1);
    batches := [];
    var current: seq<Message> := [];
    var i := 0;
    while i < |ms|
      invariant 0 <= i <= |ms|
      invariant Flatten(batches) + current == ms[..i]
      invariant forall k :: 0 <= k < |batches| ==> |batches[k]| == size
      invariant |current| < size
    {
      current := current + [ms[i]];
      assert ms[..i + 1] == ms[..i] + [ms[i]];
      if |current| >= batchSize {
        FlattenAppend(batches, current);
        batches := batches + [current];
        current := [];
      }
      i := i + 1;
    }
    assert ms[..i] == ms;
    if current != [] {
      FlattenAppend(batches, current);
      batches := batches + [current];
    }
  }

  function Max(a: int, b: int): int
  {
    if a < b then b else a
  }
}
