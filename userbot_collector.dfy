// bots/userbot_collector.py: the userbot collector, which reads the
// feedback group's history through a user account. Unlike the collector
// bot, it writes the processed-message ledger FIRST, before any gate, so a
// message whose processing raises afterwards is never looked at again; it
// never attaches courses; and its bulk import sends messages to a cheap
// batch quick-check before extracting the likely feedback one by one.
//
// The model's replacements for what is outside it: the language model's
// replies are oracles (for a quick-check payload, and for a message's full
// extraction); the history is the sequence of messages the client yields;
// the embedding store is left out; clocks are parameters.
module Userbot {
  import opened Wrappers
  import opened Strings
  import opened JsonValues
  import opened TextProcessing
  import opened Models
  import opened Database
  import Gemini
  import TelegramHistory
  import Collector

  /** The parts of a message's sender that _capture_user reads. */
  datatype Sender = Sender(id: Option<int>, firstName: Option<string>, lastName: Option<string>, username: Option<string>)

  /** A message's from_id: a user, or a channel posting in the group. */
  datatype Peer = PeerUser(userId: int) | PeerChannel(channelId: int)

  /** A Telethon message: its text and its from_id may be missing. */
  datatype Post = Post(id: int, text: Option<string>, date: int, fromId: Option<Peer>, sender: Option<Sender>)

  /** The exceptions the processing of one message can raise: the
    * extractor's, the name normalizer's on a name that is not a string,
    * the AttributeError of reading user_id from a channel's from_id, and
    * the statistics recomputation's. */
  datatype Failure = ExtractorFailed(text: string) | NameNotText | SenderNotUser | StatisticsFailed

  /** Whether message.from_id is a channel, which has no user_id. */
  predicate FromChannel(p: Post)
  {
    p.fromId.Some? && p.fromId.value.PeerChannel?
  }

  /** message.from_id.user_id if message.from_id else None, for a message
    * not from a channel. */
  function UserIdOf(p: Post): Option<int>
    requires !FromChannel(p)
  {
    if p.fromId.Some? then Some(p.fromId.value.userId) else None
  }

  /** The dictionary process_message returns. */
  datatype Report = Report(processed: bool, isFeedback: bool, feedbackCreated: bool, professorCreated: bool,
                           feedbackId: Option<nat>, error: Option<Failure>)

  /** The dictionary as it is first built. */
  const Fresh := Report(false, false, false, false, None, None)

  /** _process_extraction_result returns its dictionary, or raises. */
  datatype Ending = Done(report: Report) | Failed(failure: Failure)

  /** Whether result["error"] is truthy: str(e) is empty only for an
    * exception raised with an empty message, which only the extractor's
    * can be here. */
  predicate Failing(error: Option<Failure>)
  {
    error.Some? && (error.value.ExtractorFailed? ==> error.value.text != [])
  }

  /** A truthy optional string. */
  predicate Given(s: Option<string>)
  {
    s.Some? && s.value != []
  }

  /** " ".join of the truthy parts of the first and last name, or None
    * when there are none. */
  function DisplayName(first: Option<string>, last: Option<string>): Option<string>
  {
    if Given(first) && Given(last) then Some(first.value + " " + last.value)
    else if Given(first) then first
    else if Given(last) then last
    else None
  }

  /** The display name is None exactly when no part is given; otherwise it
    * is non-empty, starts with the first name and ends with the last name
    * when those are given. */
  lemma DisplayNameSpec(first: Option<string>, last: Option<string>)
    ensures var d := DisplayName(first, last);
      (d.None? <==> !Given(first) && !Given(last))
      && (d.Some? ==> d.value != [])
      && (Given(first) ==> d.Some? && first.value <= d.value)
      && (Given(last) ==> d.Some? && d.value[|d.value| - |last.value|..] == last.value)
      && (Given(first) && Given(last) ==> |d.value| == |first.value| + 1 + |last.value|)
  {
    if Given(first) && Given(last) {
      var d := first.value + " " + last.value;
      assert d[|d| - |last.value|..] == last.value;
      assert d[..|first.value|] == first.value;
    }
  }

  /** _capture_user: a sender with a truthy id is upserted with its
    * names; any other message leaves the users as they are. */
  function Captured(t: Tables, s: Option<Sender>): Tables
  {
    if s.None? || s.value.id.None? || s.value.id.value == 0 then t
    else
      var u := s.value;
      UserUpserted(t, u.id.value, u.username, DisplayName(u.firstName, u.lastName), u.firstName, u.lastName).0
  }

  /** Capturing a sender touches only the users. */
  lemma CapturedSpec(t: Tables, s: Option<Sender>)
    requires TablesValid(t)
    ensures var r := Captured(t, s);
      TablesValid(r) && r == t.(users := r.users)
      && (s.Some? && s.value.id.Some? && s.value.id.value != 0 ==> s.value.id.value in r.users)
  {
    if !(s.None? || s.value.id.None? || s.value.id.value == 0) {
      var u := s.value;
      UserUpsertedSpec(t, u.id.value, u.username, DisplayName(u.firstName, u.lastName), u.firstName, u.lastName);
    }
  }

  /** The text gate and the dedup check of process_message, which the
    * batch payload repeats: a text of at least 10 characters once
    * stripped, for a message not in the ledger. */
  predicate Eligible(ledger: seq<ProcessedMessage>, p: Post)
  {
    p.text.Some? && |Strip(p.text.value)| >= 10 && EntryOf(ledger, p.id).None?
  }

  /** _process_extraction_result on the tables t: the ledger row first,
    * then the gates, then the professor, the feedback row and the
    * statistics. No course is attached and the department is always None,
    * since the normalised extraction has no department. */
  function Applied(t: Tables, scorer: Scorer, nameKey: NameKey, minConfidence: real,
                   p: Post, text: string, e: Gemini.Extraction): (Tables, Ending)
    requires Gemini.NormalForm(e)
  {
    var t1 := Marked(t, p.id, Truthy(e.isFeedback), None, None);
    var report := Fresh.(processed := true, isFeedback := Truthy(e.isFeedback));
    if !Truthy(e.isFeedback) || !Truthy(e.isAppropriate) || e.confidence.r < minConfidence then (t1, Done(report))
    else
      var name := Collector.NameForMatching(e);
      if !Truthy(name) then (t1, Done(report))
      else if !name.JStr? then (t1, Failed(NameNotText))
      else Recorded(t1, scorer, nameKey, p, text, e, name.s)
  }

  /** The writes of an accepted message: the professor is found or created
    * with no department; a message from a channel then raises, and
    * otherwise the feedback row is written and the statistics are
    * recomputed. */
  function Recorded(t: Tables, scorer: Scorer, nameKey: NameKey, p: Post, text: string, e: Gemini.Extraction,
                    name: string): (Tables, Ending)
  {
    var (t2, prof, created) := FoundOrCreated(t, scorer, nameKey, name, None);
    if FromChannel(p) then (t2, Failed(SenderNotUser))
    else
      var (t3, f) := FeedbackUpserted(t2, prof.id, text, p.id, UserIdOf(p), Some(p.date), e);
      match StatsUpdated(t3, prof.id)
      case None => (t3, Failed(StatisticsFailed))
      case Some(t4) => (t4, Done(Report(true, true, true, created, Some(f.id), None)))
  }

  /** The writes of an accepted message leave the ledger, the users and
    * the import logs as they are, and report what they created. */
  lemma RecordedKeeps(t: Tables, scorer: Scorer, nameKey: NameKey, p: Post, text: string, e: Gemini.Extraction, name: string)
    ensures var (r, ending) := Recorded(t, scorer, nameKey, p, text, e, name);
      r.ledger == t.ledger && r.users == t.users && r.logs == t.logs
      && (ending.Done? ==> ending.report.processed && ending.report.isFeedback && ending.report.feedbackCreated)
  {
    var (t2, prof, created) := FoundOrCreated(t, scorer, nameKey, name, None);
    assert t2.ledger == t.ledger && t2.users == t.users && t2.logs == t.logs;
    if !FromChannel(p) {
      var (t3, f) := FeedbackUpserted(t2, prof.id, text, p.id, UserIdOf(p), Some(p.date), e);
      assert t3.ledger == t2.ledger && t3.users == t2.users && t3.logs == t2.logs;
      if StatsUpdated(t3, prof.id).Some? {
        StatsUpdatedShape(t3, prof.id);
      }
    }
  }

  /** The writes of an accepted message keep the table invariants. A
    * message from a channel raises once the professor is found or created,
    * before any feedback row is written. Otherwise the feedback row for the
    * message holds the cleaned text and the sender's user id and is the one
    * reported, and a professor created for it is the last row and has no
    * department. */
  lemma RecordedSpec(t: Tables, scorer: Scorer, nameKey: NameKey, p: Post, text: string, e: Gemini.Extraction, name: string)
    requires TablesValid(t) && Keyed(t.professors, nameKey) && KeyIgnoresOuterBlanks(nameKey)
    ensures var (r, ending) := Recorded(t, scorer, nameKey, p, text, e, name);
      TablesValid(r) && Keyed(r.professors, nameKey)
      && (FromChannel(p) ==> ending == Failed(SenderNotUser) && r.feedbacks == t.feedbacks
                             && r == FoundOrCreated(t, scorer, nameKey, name, None).0)
      && (!FromChannel(p) ==>
            RowOf(r.feedbacks, p.id).Some?
            && r.feedbacks[RowOf(r.feedbacks, p.id).value].originalMessage == text
            && r.feedbacks[RowOf(r.feedbacks, p.id).value].telegramUserId == UserIdOf(p))
      && (ending.Done? ==>
            ending.report.feedbackId.Some?
            && r.feedbacks[RowOf(r.feedbacks, p.id).value].id == ending.report.feedbackId.value
            && (ending.report.professorCreated ==>
                  |r.professors| == |t.professors| + 1 && r.professors[|t.professors|].department.None?))
  {
    var (t2, prof, created) := FoundOrCreated(t, scorer, nameKey, name, None);
    FoundOrCreatedSpec(t, scorer, nameKey, name, None);
    if !FromChannel(p) {
      var (t3, f) := FeedbackUpserted(t2, prof.id, text, p.id, UserIdOf(p), Some(p.date), e);
      FeedbackUpsertedSpec(t2, prof.id, text, p.id, UserIdOf(p), Some(p.date), e);
      if StatsUpdated(t3, prof.id).Some? {
        StatsUpdatedSpec(t3, prof.id);
        StatsUpdatedShape(t3, prof.id);
        Collector.StatsKeepKeys(t3, prof.id, nameKey);
      }
    }
  }

  /** process_message on the tables t, for the message p and the
    * extractor x. */
  function Handled(t: Tables, scorer: Scorer, nameKey: NameKey, minConfidence: real,
                   p: Post, x: Collector.Extractor): (Tables, Report)
  {
    if !Eligible(t.ledger, p) then (t, Fresh)
    else
      var text := CleanFeedbackText(p.text.value);
      var t1 := Captured(t, p.sender);
      match x
      case Raises(error) => (t1, Fresh.(error := Some(ExtractorFailed(error))))
      case Replies(first, mini) =>
        Gemini.ExtractFeedbackFailClosed(text, first, mini);
        var (t2, ending) := Applied(t1, scorer, nameKey, minConfidence, p, text, Gemini.ExtractFeedback(text, first, mini));
        (t2, if ending.Done? then ending.report else Fresh.(error := Some(ending.failure)))
  }

  /** A message with no text, a short text, or already in the ledger is
    * skipped without a write and without calling the extractor. */
  lemma HandledSkips(t: Tables, scorer: Scorer, nameKey: NameKey, minConfidence: real, p: Post, x: Collector.Extractor)
    requires p.text.None? || |Strip(p.text.value)| < 10 || EntryOf(t.ledger, p.id).Some?
    ensures Handled(t, scorer, nameKey, minConfidence, p, x) == (t, Fresh)
  {
  }

  /** An exception from the extractor is caught into the result, which
    * reports nothing processed; only the sender may have been captured. */
  lemma HandledExtractorRaised(t: Tables, scorer: Scorer, nameKey: NameKey, minConfidence: real, p: Post, error: string)
    requires TablesValid(t) && Eligible(t.ledger, p)
    ensures var (r, report) := Handled(t, scorer, nameKey, minConfidence, p, Collector.Raises(error));
      r == t.(users := r.users) && !report.processed && report.error == Some(ExtractorFailed(error))
  {
    CapturedSpec(t, p.sender);
  }

  /** The ledger row comes first: whatever the gates decide and even when
    * a later step raises, the message gets exactly one row, appended, with
    * the extraction's is_feedback and no feedback id. A gate that stops
    * the message leaves professors and feedback rows untouched and reports
    * it processed. */
  lemma AppliedLedgerFirst(t: Tables, scorer: Scorer, nameKey: NameKey, minConfidence: real,
                           p: Post, text: string, e: Gemini.Extraction)
    requires Gemini.NormalForm(e) && EntryOf(t.ledger, p.id).None?
    ensures var (r, ending) := Applied(t, scorer, nameKey, minConfidence, p, text, e);
      r.ledger == t.ledger + [ProcessedMessage(p.id, Truthy(e.isFeedback), None, None)]
      && r.users == t.users && r.logs == t.logs
      && (ending.Done? ==> ending.report.processed && ending.report.isFeedback == Truthy(e.isFeedback))
      && (ending.Done? && !ending.report.feedbackCreated ==> r.professors == t.professors && r.feedbacks == t.feedbacks)
      && (!Truthy(e.isFeedback) || !Truthy(e.isAppropriate) || e.confidence.r < minConfidence ==>
            ending == Done(Fresh.(processed := true, isFeedback := Truthy(e.isFeedback))))
  {
    var name := Collector.NameForMatching(e);
    if Truthy(e.isFeedback) && Truthy(e.isAppropriate) && e.confidence.r >= minConfidence && Truthy(name) && name.JStr? {
      RecordedKeeps(Marked(t, p.id, Truthy(e.isFeedback), None, None), scorer, nameKey, p, text, e, name.s);
    }
  }

  /** Every ending keeps the table invariants, and a created feedback is
    * the one stored for the message, with the cleaned text. */
  lemma AppliedStores(t: Tables, scorer: Scorer, nameKey: NameKey, minConfidence: real,
                      p: Post, text: string, e: Gemini.Extraction)
    requires TablesValid(t) && Keyed(t.professors, nameKey) && KeyIgnoresOuterBlanks(nameKey)
    requires Gemini.NormalForm(e) && EntryOf(t.ledger, p.id).None?
    ensures var (r, ending) := Applied(t, scorer, nameKey, minConfidence, p, text, e);
      TablesValid(r) && Keyed(r.professors, nameKey)
      && (ending.Done? && ending.report.feedbackCreated ==>
            ending.report.feedbackId.Some? && RowOf(r.feedbacks, p.id).Some?
            && r.feedbacks[RowOf(r.feedbacks, p.id).value].id == ending.report.feedbackId.value
            && r.feedbacks[RowOf(r.feedbacks, p.id).value].originalMessage == text)
  {
    var t1 := Marked(t, p.id, Truthy(e.isFeedback), None, None);
    MarkedSpec(t, p.id, Truthy(e.isFeedback), None, None, Truthy(e.isFeedback), None, None);
    var name := Collector.NameForMatching(e);
    if Truthy(e.isFeedback) && Truthy(e.isAppropriate) && e.confidence.r >= minConfidence && Truthy(name) && name.JStr? {
      RecordedSpec(t1, scorer, nameKey, p, text, e, name.s);
    }
  }

  /** process_message adds at most one ledger row, the message's, at the
    * end, and never rewrites a row; it touches no import log; and it keeps
    * the table invariants. */
  lemma HandledLedger(t: Tables, scorer: Scorer, nameKey: NameKey, minConfidence: real, p: Post, x: Collector.Extractor)
    requires TablesValid(t) && Keyed(t.professors, nameKey) && KeyIgnoresOuterBlanks(nameKey)
    ensures var (r, report) := Handled(t, scorer, nameKey, minConfidence, p, x);
      TablesValid(r) && Keyed(r.professors, nameKey) && r.logs == t.logs
      && t.ledger <= r.ledger && |r.ledger| <= |t.ledger| + 1
      && (|r.ledger| > |t.ledger| ==> r.ledger[|t.ledger|].telegramMessageId == p.id)
      && (Eligible(t.ledger, p) && x.Replies? ==> |r.ledger| == |t.ledger| + 1)
  {
    if Eligible(t.ledger, p) {
      var text := CleanFeedbackText(p.text.value);
      var t1 := Captured(t, p.sender);
      CapturedSpec(t, p.sender);
      if x.Replies? {
        var e := Gemini.ExtractFeedback(text, x.first, x.mini);
        Gemini.ExtractFeedbackFailClosed(text, x.first, x.mini);
        AppliedLedgerFirst(t1, scorer, nameKey, minConfidence, p, text, e);
        AppliedStores(t1, scorer, nameKey, minConfidence, p, text, e);
      }
    }
  }

  /** The two bots on one message whose statistics recomputation raises.
    * The collector bot, which writes the ledger last, leaves the message
    * out of the ledger, so it is processed again; the userbot, which writes
    * the ledger first, has recorded it, so it never is, and its result
    * carries the error. */
  lemma LedgerFirstVersusLast(t: Tables, scorer: Scorer, nameKey: NameKey, minConfidence: real,
                              m: TelegramHistory.Message, p: Post, x: Collector.Extractor)
    requires TablesValid(t) && Keyed(t.professors, nameKey) && KeyIgnoresOuterBlanks(nameKey)
    requires p.id == m.id && p.text == Some(m.text) && Eligible(t.ledger, p) && x.Replies?
    requires Collector.Processed(t, scorer, nameKey, minConfidence, m, x).1.Raised?
    ensures EntryOf(Collector.Processed(t, scorer, nameKey, minConfidence, m, x).0.ledger, m.id).None?
    ensures EntryOf(Handled(t, scorer, nameKey, minConfidence, p, x).0.ledger, p.id).Some?
  {
    Collector.ProcessedLedgerOnce(t, scorer, nameKey, minConfidence, m, x);
    HandledLedger(t, scorer, nameKey, minConfidence, p, x);
    var r := Handled(t, scorer, nameKey, minConfidence, p, x).0;
    assert r.ledger[|t.ledger|].telegramMessageId == p.id;
  }

  /** The metadata stored with the embedding: course code, sentiment and
    * the "final_rating" entry, each dropped when None. */
  function Metadata(e: Gemini.Extraction): map<string, Json>
  {
    // extraction.get("final_rating"): the normalised extraction has no such key
    var finalRating := JNull;
    var entries := map["course_code" := e.courseCode, "sentiment" := e.sentiment, "rating" := finalRating];
    map k | k in entries && entries[k] != JNull :: entries[k]
  }

  /** The metadata holds no None value, and never a rating: the key it is
    * read from is not one the normalised extraction has. */
  lemma MetadataSpec(e: Gemini.Extraction)
    ensures var md := Metadata(e);
      (forall k :: k in md ==> md[k] != JNull)
      && "rating" !in md
      && ("course_code" in md <==> e.courseCode != JNull)
      && ("sentiment" in md <==> e.sentiment != JNull)
      && md.Keys <= {"course_code", "sentiment"}
  {
  }

  /** The counters after a process_message result: each truthy flag of the
    * result counts once. */
  function Counted(c: Collector.ImportStats, r: Report): Collector.ImportStats
  {
    c.(processed := c.processed + (if r.processed then 1 else 0),
       feedbacks := c.feedbacks + (if r.feedbackCreated then 1 else 0),
       professors := c.professors + (if r.professorCreated then 1 else 0),
       errors := c.errors + (if Failing(r.error) then 1 else 0))
  }

  /** No counter went down from a to b, and the message total is the same. */
  predicate Grew(a: Collector.ImportStats, b: Collector.ImportStats)
  {
    b.total == a.total && a.processed <= b.processed && a.feedbacks <= b.feedbacks
    && a.professors <= b.professors && a.errors <= b.errors
  }

  /** The ids of a list of messages. */
  function IdsOf(ms: seq<Post>): set<int>
  {
    set q | q in ms :: q.id
  }

  lemma IdsOfSlices(ms: seq<Post>, mid: nat)
    requires mid <= |ms|
    ensures IdsOf(ms[..mid]) <= IdsOf(ms) && IdsOf(ms[mid..]) <= IdsOf(ms)
  {
    assert forall q :: q in ms[..mid] ==> q in ms;
    assert forall q :: q in ms[mid..] ==> q in ms;
  }

  /** The quick-check payload of a batch: the id and cleaned text of each
    * eligible message, in order, duplicates included. */
  function PayloadOf(ledger: seq<ProcessedMessage>, ms: seq<Post>): seq<Gemini.PayloadItem>
  {
    if ms == [] then []
    else
      var m := ms[|ms| - 1];
      PayloadOf(ledger, ms[..|ms| - 1]) + if Eligible(ledger, m) then [Gemini.PayloadItem(m.id, CleanFeedbackText(m.text.value))] else []
  }

  /** The message_map of a batch, as its items in insertion order: one
    * entry per id among the eligible messages, at the place of the first
    * such message and holding the last. It is empty exactly when the
    * payload is, and it holds only eligible messages of the batch, under
    * distinct ids. */
  function MessageMapOf(ledger: seq<ProcessedMessage>, ms: seq<Post>): (r: seq<Post>)
    ensures DistinctIds(r)
    ensures forall q :: q in r ==> Eligible(ledger, q) && q in ms
    ensures (r == []) == (PayloadOf(ledger, ms) == []) && |r| <= |ms|
  {
    if ms == [] then []
    else
      var m := ms[|ms| - 1];
      var front := MessageMapOf(ledger, ms[..|ms| - 1]);
      assert forall q :: q in ms[..|ms| - 1] ==> q in ms;
      if Eligible(ledger, m) then Put(front, m) else front
  }

  /** One more message of the batch extends the payload and the
    * message_map by that message when it is eligible, and leaves them
    * otherwise. */
  lemma CollectStep(ledger: seq<ProcessedMessage>, ms: seq<Post>, i: nat)
    requires i < |ms|
    ensures var m := ms[i];
      PayloadOf(ledger, ms[..i + 1])
        == PayloadOf(ledger, ms[..i]) + if Eligible(ledger, m) then [Gemini.PayloadItem(m.id, CleanFeedbackText(m.text.value))] else []
    ensures var m := ms[i];
      MessageMapOf(ledger, ms[..i + 1])
        == if Eligible(ledger, m) then Put(MessageMapOf(ledger, ms[..i]), m) else MessageMapOf(ledger, ms[..i])
  {
    assert ms[..i + 1][..i] == ms[..i];
  }

  /** No two entries share an id. */
  predicate DistinctIds(posts: seq<Post>)
  {
    forall a, b :: 0 <= a < b < |posts| ==> posts[a].id != posts[b].id
  }

  /** The ledger after only gained rows, each with one of the ids. */
  predicate GrownBy(before: seq<ProcessedMessage>, after: seq<ProcessedMessage>, ids: set<int>)
  {
    before <= after && forall j :: |before| <= j < |after| ==> after[j].telegramMessageId in ids
  }

  /** The position of the entry with the given id, if any. */
  function PositionOf(posts: seq<Post>, id: int): (k: Option<nat>)
    ensures k.Some? ==> k.value < |posts| && posts[k.value].id == id
    ensures k.None? ==> forall a :: 0 <= a < |posts| ==> posts[a].id != id
  {
    if posts == [] then None
    else if posts[|posts| - 1].id == id then Some(|posts| - 1)
    else PositionOf(posts[..|posts| - 1], id)
  }

  /** message_map[m.id] = m on the map kept as its items in insertion
    * order: a new id is appended, a known id keeps its place and takes the
    * later message. The ids stay distinct, and every entry is m or was
    * there before. */
  function Put(posts: seq<Post>, m: Post): (r: seq<Post>)
    requires DistinctIds(posts)
    ensures DistinctIds(r)
    ensures forall q :: q in r ==> q == m || q in posts
    ensures m in r && |posts| <= |r| <= |posts| + 1
  {
    match PositionOf(posts, m.id)
    case Some(k) =>
      assert forall a :: 0 <= a < |posts| ==> posts[k := m][a].id == posts[a].id;
      posts[k := m]
    case None => posts + [m]
  }

  /** quick_map.get(message_id): the quick-check item whose id equals the
    * message id as a Python dictionary key does (an int, an equal float,
    * or a bool for 0 and 1), the last such item winning. */
  function QuickFor(results: seq<Gemini.QuickResult>, messageId: int): (q: Option<Gemini.QuickResult>)
    ensures q.Some? ==> q.value in results && KeyMatches(q.value.id, messageId)
    ensures q.None? ==> forall j :: 0 <= j < |results| ==> !KeyMatches(results[j].id, messageId)
  {
    if results == [] then None
    else if KeyMatches(results[|results| - 1].id, messageId) then Some(results[|results| - 1])
    else QuickFor(results[..|results| - 1], messageId)
  }

  /** A JSON id found under the integer key n of a Python dictionary. */
  predicate KeyMatches(id: Json, n: int)
  {
    match id
    case JInt(i) => i == n
    case JReal(r) => r == n as real
    case JBool(b) => (if b then 1 else 0) == n
    case _ => false
  }

  /** The size run_bulk_import batches by: max(1, BULK_IMPORT_BATCH_SIZE). */
  function BatchSize(configured: int): (n: nat)
    ensures n >= 1 && n >= configured
    ensures configured >= 1 ==> n == configured
  {
    if configured >= 1 then configured else 1
  }

  /** The messages iter_messages yields for `limit or BULK_IMPORT_LIMIT`:
    * the newest ones of the history, at most that many. */
  function Fetched(history: seq<Post>, limit: Option<nat>, defaultLimit: nat): (ms: seq<Post>)
    ensures |ms| <= |history| && ms == history[..|ms|]
    ensures limit.Some? && limit.value > 0 ==> |ms| == if limit.value < |history| then limit.value else |history|
  {
    var n := if limit.Some? && limit.value > 0 then limit.value else defaultLimit;
    if n < |history| then history[..n] else history
  }

  // =====================================================================
  // The bulk import as functions of the tables and the counters

  /** The progress write of the message_map loop: when the message total
    * is a non-zero multiple of 100, the import's log takes the counters and
    * the id of the message just handled. */
  function Progressed(t: Tables, c: Collector.ImportStats, logId: int, messageId: int): Tables
  {
    if c.total > 0 && c.total % 100 == 0 then
      ProgressUpdated(t, logId, Some(c.processed), Some(c.feedbacks), Some(c.professors), Some(c.errors), Some(messageId))
    else t
  }

  /** The try block for a message the quick check calls feedback: the full
    * extraction of the cleaned text, then _process_extraction_result. The
    * flag says an exception was caught; the report is the one returned. */
  function ExtractedApplied(t: Tables, scorer: Scorer, nameKey: NameKey, minConfidence: real,
                            p: Post, x: Collector.Extractor): (Tables, bool, Report)
    requires p.text.Some?
  {
    match x
    case Raises(_) => (t, true, Fresh)
    case Replies(first, mini) =>
      var text := CleanFeedbackText(p.text.value);
      Gemini.ExtractFeedbackFailClosed(text, first, mini);
      var (r, ending) := Applied(t, scorer, nameKey, minConfidence, p, text, Gemini.ExtractFeedback(text, first, mini));
      (r, ending.Failed?, if ending.Done? then ending.report else Fresh)
  }

  /** One entry of the message_map loop. With no quick-check item the
    * message goes to process_message and its report is counted; an item
    * saying not feedback captures the sender, records the message as not
    * feedback and counts it processed; otherwise an exception of the try
    * block counts as an error, a returned report is counted, and the
    * progress is written. */
  function OneHandled(t: Tables, scorer: Scorer, nameKey: NameKey, minConfidence: real, p: Post,
                      results: seq<Gemini.QuickResult>, c: Collector.ImportStats, logId: int,
                      x: Collector.Extractor): (Tables, Collector.ImportStats)
    requires p.text.Some?
  {
    var q := QuickFor(results, p.id);
    if q.None? then
      var (r, report) := Handled(t, scorer, nameKey, minConfidence, p, x);
      (r, Counted(c, report))
    else if !q.value.isFeedback then
      (Marked(Captured(t, p.sender), p.id, false, None, None), c.(processed := c.processed + 1))
    else
      var (r, failed, report) := ExtractedApplied(t, scorer, nameKey, minConfidence, p, x);
      var c1 := if failed then c.(errors := c.errors + 1) else Counted(c, report);
      (Progressed(r, c1, logId, p.id), c1)
  }

  /** The message_map loop over the entries posts, in order. */
  function QuickCheckedHandled(t: Tables, scorer: Scorer, nameKey: NameKey, minConfidence: real, posts: seq<Post>,
                               results: seq<Gemini.QuickResult>, c: Collector.ImportStats, logId: int,
                               extract: Post -> Collector.Extractor): (Tables, Collector.ImportStats)
    requires forall q :: q in posts ==> q.text.Some?
    decreases |posts|
  {
    if posts == [] then (t, c)
    else
      var (r, c1) := OneHandled(t, scorer, nameKey, minConfidence, posts[0], results, c, logId, extract(posts[0]));
      QuickCheckedHandled(r, scorer, nameKey, minConfidence, posts[1..], results, c1, logId, extract)
  }

  /** The quick-check model call: its reply to a payload sent at a depth
    * of the bisection, 0 for a batch of the stream and one more for each
    * halving. A payload sent again after a split is sent one level deeper
    * and may get a different reply. */
  type QuickOracle = (seq<Gemini.PayloadItem>, nat) -> Gemini.Reply

  /** The quick-check call as the halves of a split batch see it. */
  function Deeper(quick: QuickOracle): QuickOracle
  {
    (p: seq<Gemini.PayloadItem>, d: nat) => quick(p, d + 1)
  }

  /** _process_message_batch on the tables t with the counters c. An empty
    * payload changes nothing. An empty quick-check result sends a
    * one-message batch to process_message, whose report is counted, and
    * splits a longer one at len // 2, the second half handled on what the
    * first left, both halves quick-checked one level deeper. Otherwise the
    * message_map loop runs. */
  function BatchHandled(t: Tables, scorer: Scorer, nameKey: NameKey, minConfidence: real, messages: seq<Post>,
                        c: Collector.ImportStats, logId: int, quick: QuickOracle,
                        extract: Post -> Collector.Extractor): (Tables, Collector.ImportStats)
    decreases |messages|
  {
    var payload := PayloadOf(t.ledger, messages);
    if payload == [] then (t, c)
    else
      var results := Gemini.QuickItems(payload, quick(payload, 0));
      if results == [] then
        if |messages| == 1 then
          var (r, report) := Handled(t, scorer, nameKey, minConfidence, messages[0], extract(messages[0]));
          (r, Counted(c, report))
        else
          var mid := |messages| / 2;
          var (r, c1) := BatchHandled(t, scorer, nameKey, minConfidence, messages[..mid], c, logId, Deeper(quick), extract);
          BatchHandled(r, scorer, nameKey, minConfidence, messages[mid..], c1, logId, Deeper(quick), extract)
      else
        QuickCheckedHandled(t, scorer, nameKey, minConfidence, MessageMapOf(t.ledger, messages), results, c, logId, extract)
  }

  /** The loop of run_bulk_import over the messages ms, from the counters c
    * and the unfinished batch current: each message is counted and joins
    * the batch, and a batch that reaches size is handled and started
    * afresh. Gives the tables, the counters and the unfinished batch at the
    * end of the stream. */
  function BatchesHandled(t: Tables, scorer: Scorer, nameKey: NameKey, minConfidence: real, ms: seq<Post>, size: nat,
                          c: Collector.ImportStats, current: seq<Post>, logId: int,
                          quick: QuickOracle, extract: Post -> Collector.Extractor)
    : (Tables, Collector.ImportStats, seq<Post>)
    decreases |ms|
  {
    if ms == [] then (t, c, current)
    else
      var c1 := c.(total := c.total + 1);
      var batch := current + [ms[0]];
      if |batch| >= size then
        var (r, c2) := BatchHandled(t, scorer, nameKey, minConfidence, batch, c1, logId, quick, extract);
        BatchesHandled(r, scorer, nameKey, minConfidence, ms[1..], size, c2, [], logId, quick, extract)
      else
        BatchesHandled(t, scorer, nameKey, minConfidence, ms[1..], size, c1, batch, logId, quick, extract)
  }

  /** run_bulk_import on the tables t for the messages ms: a new log, the
    * loop over the stream, then, when the stream ends, the unfinished batch
    * and the log completed with the total; when the stream raises after
    * ms, the log is failed with the error and the unfinished batch is
    * dropped. */
  function BulkImported(t: Tables, scorer: Scorer, nameKey: NameKey, minConfidence: real, ms: seq<Post>, size: nat,
                        streamError: Option<string>, quick: QuickOracle,
                        extract: Post -> Collector.Extractor, started: int, finished: int): (Tables, Collector.ImportStats)
  {
    var (t1, log) := LogCreated(t, started);
    var (t2, c, current) := BatchesHandled(t1, scorer, nameKey, minConfidence, ms, size,
                                           Collector.ImportStats(0, 0, 0, 0, 0), [], log.id, quick, extract);
    if streamError.Some? then (Completed(t2, log.id, "failed", None, streamError, finished), c)
    else
      var (t3, c3) := if current != [] then BatchHandled(t2, scorer, nameKey, minConfidence, current, c, log.id, quick, extract)
                      else (t2, c);
      (Completed(t3, log.id, "completed", Some(c3.total), None, finished), c3)
  }

  class UserbotCollector {
    const db: Store
    /** MIN_EXTRACTION_CONFIDENCE */
    const minConfidence: real
    var isMonitoring: bool

    ghost predicate Valid()
      reads this, db
    {
      db.Valid()
    }

    constructor(db: Store, minConfidence: real)
      ensures this.db == db && this.minConfidence == minConfidence && !isMonitoring
    {
      this.db := db;
      this.minConfidence := minConfidence;
      isMonitoring := false;
    }

    /** stop_monitoring */
    method StopMonitoring()
      modifies this
      ensures !isMonitoring
    {
      isMonitoring := false;
    }

    /** _capture_user, as Captured describes it. */
    method CaptureUser(s: Option<Sender>)
      requires Valid()
      modifies db
      ensures Valid() && db.Snapshot() == Captured(old(db.Snapshot()), s)
    {
      if s.None? || s.value.id.None? || s.value.id.value == 0 {
        return;
      }
      var u := s.value;
      var _ := db.UpsertTelegramUser(u.id.value, u.username, DisplayName(u.firstName, u.lastName), u.firstName, u.lastName);
    }

    /** process_message, as Handled describes it. */
    method ProcessMessage(p: Post, x: Collector.Extractor) returns (report: Report)
      requires Valid()
      modifies db
      ensures Valid()
      ensures (db.Snapshot(), report) == Handled(old(db.Snapshot()), db.tokenSortRatio, db.nameKey, minConfidence, p, x)
    {
      ghost var t := db.Snapshot();
      if p.text.None? || |Strip(p.text.value)| < 10 {
        return Fresh;
      }
      var seen := db.IsMessageProcessed(p.id);
      if seen {
        assert EntryOf(t.ledger, p.id).Some?;
        return Fresh;
      }
      assert Eligible(t.ledger, p);
      var text := CleanFeedbackText(p.text.value);
      CaptureUser(p.sender);
      ghost var t1 := db.Snapshot();
      if x.Raises? {
        return Fresh.(error := Some(ExtractorFailed(x.error)));
      }
      var e := Gemini.ExtractFeedback(text, x.first, x.mini);
      Gemini.ExtractFeedbackFailClosed(text, x.first, x.mini);
      var ending := ApplyExtraction(p, text, e);
      assert (db.Snapshot(), ending) == Applied(t1, db.tokenSortRatio, db.nameKey, minConfidence, p, text, e);
      report := if ending.Done? then ending.report else Fresh.(error := Some(ending.failure));
    }

    /** _process_extraction_result, as Applied describes it. */
    method ApplyExtraction(p: Post, text: string, e: Gemini.Extraction) returns (ending: Ending)
      requires Valid() && Gemini.NormalForm(e)
      modifies db
      ensures Valid()
      ensures (db.Snapshot(), ending) == Applied(old(db.Snapshot()), db.tokenSortRatio, db.nameKey, minConfidence, p, text, e)
    {
      var _ := db.MarkMessageProcessed(p.id, Truthy(e.isFeedback), None, None);
      var report := Fresh.(processed := true, isFeedback := Truthy(e.isFeedback));
      if !Truthy(e.isFeedback) || !Truthy(e.isAppropriate) || e.confidence.r < minConfidence {
        return Done(report);
      }
      var name := Collector.NameForMatching(e);
      if !Truthy(name) {
        return Done(report);
      }
      if !name.JStr? {
        return Failed(NameNotText);
      }
      ending := Record(p, text, e, name.s);
    }

    /** The writes of an accepted message, as Recorded describes them. */
    method Record(p: Post, text: string, e: Gemini.Extraction, name: string) returns (ending: Ending)
      requires Valid()
      modifies db
      ensures Valid()
      ensures (db.Snapshot(), ending) == Recorded(old(db.Snapshot()), db.tokenSortRatio, db.nameKey, p, text, e, name)
    {
      ghost var t1 := db.Snapshot();
      var prof, created := db.FindOrCreateProfessor(name, None);
      FoundOrCreatedSpec(t1, db.tokenSortRatio, db.nameKey, name, None);
      if p.fromId.Some? && p.fromId.value.PeerChannel? {
        return Failed(SenderNotUser);
      }
      var userId := if p.fromId.Some? then Some(p.fromId.value.userId) else None;
      var f := db.CreateFeedback(prof.id, text, p.id, e, userId, Some(p.date));
      var ok := db.UpdateProfessorStatistics(prof.id);
      if !ok {
        return Failed(StatisticsFailed);
      }
      // The embedding is stored here, with Metadata(e).
      ending := Done(Report(true, true, true, created, Some(f.id), None));
    }

    /** _process_message_batch. The payload holds the cleaned text of every
      * eligible message. An empty quick-check result makes a one-message
      * batch fall back to process_message and a longer one split at
      * len // 2, both halves strictly shorter; otherwise every eligible
      * message, once per id, falls back to process_message when the quick
      * check has no item for it, is recorded as non-feedback when the item
      * says so, and is extracted and processed otherwise. No counter goes
      * down; the ledger only gains rows, each for a message of the batch. */
    method ProcessMessageBatch(messages: seq<Post>, c0: Collector.ImportStats, logId: int,
                               quick: QuickOracle, extract: Post -> Collector.Extractor)
      returns (c: Collector.ImportStats)
      requires Valid()
      modifies db
      ensures Valid() && Grew(c0, c)
      ensures (db.Snapshot(), c)
              == BatchHandled(old(db.Snapshot()), db.tokenSortRatio, db.nameKey, minConfidence, messages, c0, logId, quick, extract)
      ensures GrownBy(old(db.ledger), db.ledger, IdsOf(messages))
      ensures LogsKept(old(db.logs), db.logs, logId)
      decreases |messages|
    {
      var payload, posts := CollectPayload(messages);
      IdsOfMap(db.ledger, messages);
      if payload == [] {
        return c0;
      }
      var results := Gemini.QuickCheckFeedbackBatch(payload, quick(payload, 0));
      if results == [] {
        if |messages| == 1 {
          ghost var t := db.Snapshot();
          var report := ProcessMessage(messages[0], extract(messages[0]));
          HandledLedger(t, db.tokenSortRatio, db.nameKey, minConfidence, messages[0], extract(messages[0]));
          assert messages[0] in messages;
          StepGrows(t.ledger, t.ledger, db.ledger, messages[0].id, IdsOf(messages));
          return Counted(c0, report);
        }
        var mid := |messages| / 2;
        IdsOfSlices(messages, mid);
        ghost var l0 := db.ledger;
        var c1 := ProcessMessageBatch(messages[..mid], c0, logId, Deeper(quick), extract);
        ghost var l1 := db.ledger;
        c := ProcessMessageBatch(messages[mid..], c1, logId, Deeper(quick), extract);
        GrownTwice(l0, l1, db.ledger, IdsOf(messages[..mid]), IdsOf(messages[mid..]), IdsOf(messages));
        return;
      }
      c := ProcessQuickChecked(posts, results, c0, logId, extract, IdsOf(messages));
    }

    /** The loop of _process_message_batch that builds the payload and
      * message_map. */
    method CollectPayload(messages: seq<Post>) returns (payload: seq<Gemini.PayloadItem>, posts: seq<Post>)
      ensures payload == PayloadOf(db.ledger, messages) && posts == MessageMapOf(db.ledger, messages)
    {
      payload := [];
      posts := [];
      var i := 0;
      while i < |messages|
        invariant 0 <= i <= |messages|
        invariant payload == PayloadOf(db.ledger, messages[..i]) && posts == MessageMapOf(db.ledger, messages[..i])
      {
        var m := messages[i];
        var eligible := false;
        if m.text.Some? && |Strip(m.text.value)| >= 10 {
          var seen := db.IsMessageProcessed(m.id);
          eligible := !seen;
        }
        assert eligible == Eligible(db.ledger, m);
        CollectStep(db.ledger, messages, i);
        if eligible {
          payload := payload + [Gemini.PayloadItem(m.id, CleanFeedbackText(m.text.value))];
          posts := Put(posts, m);
        }
        i := i + 1;
      }
      assert messages[..i] == messages;
    }

    /** The loop over message_map of _process_message_batch, given the
      * quick-check items. */
    method ProcessQuickChecked(posts: seq<Post>, results: seq<Gemini.QuickResult>, c0: Collector.ImportStats, logId: int,
                               extract: Post -> Collector.Extractor, ghost ids: set<int>)
      returns (c: Collector.ImportStats)
      requires Valid()
      requires DistinctIds(posts)
      requires forall q :: q in posts ==> Eligible(db.ledger, q) && q.id in ids && q.text.Some?
      modifies db
      ensures Valid() && Grew(c0, c)
      ensures (db.Snapshot(), c)
              == QuickCheckedHandled(old(db.Snapshot()), db.tokenSortRatio, db.nameKey, minConfidence, posts, results, c0, logId, extract)
      ensures GrownBy(old(db.ledger), db.ledger, ids)
      ensures LogsKept(old(db.logs), db.logs, logId)
    {
      c := c0;
      var k := 0;
      while k < |posts|
        invariant 0 <= k <= |posts|
        invariant db.Valid() && Grew(c0, c)
        invariant GrownBy(old(db.ledger), db.ledger, ids)
        invariant forall a :: k <= a < |posts| ==> Eligible(db.ledger, posts[a])
        invariant forall q :: q in posts ==> q.text.Some?
        invariant LogsKept(old(db.logs), db.logs, logId)
        invariant QuickCheckedHandled(db.Snapshot(), db.tokenSortRatio, db.nameKey, minConfidence, posts[k..], results, c, logId, extract)
                  == QuickCheckedHandled(old(db.Snapshot()), db.tokenSortRatio, db.nameKey, minConfidence, posts, results, c0, logId, extract)
      {
        var p := posts[k];
        ghost var before := db.ledger;
        assert posts[k..][0] == p && posts[k..][1..] == posts[k + 1..];
        c := ProcessOne(p, results, c, logId, extract);
        assert p in posts;
        StepGrows(old(db.ledger), before, db.ledger, p.id, ids);
        forall a | k < a < |posts| ensures Eligible(db.ledger, posts[a]) {
          NotInGrownLedger(before, db.ledger, p.id, posts[a].id);
        }
        k := k + 1;
      }
    }

    /** One message of that loop. */
    method ProcessOne(p: Post, results: seq<Gemini.QuickResult>, c0: Collector.ImportStats, logId: int,
                      extract: Post -> Collector.Extractor)
      returns (c: Collector.ImportStats)
      requires Valid() && Eligible(db.ledger, p)
      modifies db
      ensures Valid() && Grew(c0, c)
      ensures (db.Snapshot(), c)
              == OneHandled(old(db.Snapshot()), db.tokenSortRatio, db.nameKey, minConfidence, p, results, c0, logId, extract(p))
      ensures LedgerStep(old(db.ledger), db.ledger, p.id)
      ensures LogsKept(old(db.logs), db.logs, logId)
    {
      var q := QuickFor(results, p.id);
      if q.None? {
        ghost var t := db.Snapshot();
        var report := ProcessMessage(p, extract(p));
        HandledLedger(t, db.tokenSortRatio, db.nameKey, minConfidence, p, extract(p));
        return Counted(c0, report);
      }
      if !q.value.isFeedback {
        RecordNonFeedback(p);
        return c0.(processed := c0.processed + 1);
      }
      var failed, report := ExtractAndApply(p, extract(p));
      c := if failed then c0.(errors := c0.errors + 1) else Counted(c0, report);
      if c.total > 0 && c.total % 100 == 0 {
        ghost var t := db.Snapshot();
        db.UpdateBulkImportProgress(logId, Some(c.processed), Some(c.feedbacks), Some(c.professors), Some(c.errors), Some(p.id));
        ProgressKeeps(t, logId, Some(c.processed), Some(c.feedbacks), Some(c.professors), Some(c.errors), Some(p.id));
      }
    }

    /** A message the quick check calls not feedback: its sender is
      * captured and it is recorded as not feedback. */
    method RecordNonFeedback(p: Post)
      requires Valid() && Eligible(db.ledger, p)
      modifies db
      ensures Valid() && db.Snapshot() == Marked(Captured(old(db.Snapshot()), p.sender), p.id, false, None, None)
      ensures db.ledger == old(db.ledger) + [ProcessedMessage(p.id, false, None, None)]
      ensures db.logs == old(db.logs) && db.professors == old(db.professors) && db.feedbacks == old(db.feedbacks)
    {
      ghost var t := db.Snapshot();
      CaptureUser(p.sender);
      CapturedSpec(t, p.sender);
      var _ := db.MarkMessageProcessed(p.id, false, None, None);
    }

    /** A message the quick check calls feedback: the full extraction and
      * _process_extraction_result, whose exceptions are counted as errors. */
    method ExtractAndApply(p: Post, x: Collector.Extractor) returns (failed: bool, report: Report)
      requires Valid() && Eligible(db.ledger, p)
      modifies db
      ensures Valid() && LedgerStep(old(db.ledger), db.ledger, p.id) && db.logs == old(db.logs)
      ensures (db.Snapshot(), failed, report)
              == ExtractedApplied(old(db.Snapshot()), db.tokenSortRatio, db.nameKey, minConfidence, p, x)
      ensures x.Raises? ==> failed && db.ledger == old(db.ledger)
      ensures x.Replies? ==> |db.ledger| == |old(db.ledger)| + 1
    {
      if x.Raises? {
        return true, Fresh;
      }
      ghost var t := db.Snapshot();
      var text := CleanFeedbackText(p.text.value);
      var e := Gemini.ExtractFeedback(text, x.first, x.mini);
      Gemini.ExtractFeedbackFailClosed(text, x.first, x.mini);
      AppliedLedgerFirst(t, db.tokenSortRatio, db.nameKey, minConfidence, p, text, e);
      var ending := ApplyExtraction(p, text, e);
      failed := ending.Failed?;
      report := if ending.Done? then ending.report else Fresh;
    }

    /** run_bulk_import: the messages the client yields are counted and
      * grouped in batches of max(1, BULK_IMPORT_BATCH_SIZE), each batch
      * processed when full and the remainder at the end; the import log is
      * completed, or failed when the stream raises after the messages
      * given, in which case the unfinished batch is not processed. */
    method RunBulkImport(history: seq<Post>, limit: Option<nat>, defaultLimit: nat, configuredBatchSize: int,
                         streamError: Option<string>, quick: QuickOracle,
                         extract: Post -> Collector.Extractor, started: int, finished: int)
      returns (c: Collector.ImportStats, error: Option<string>, ghost batches: seq<seq<Post>>)
      requires Valid()
      modifies db
      ensures Valid() && error == streamError
      ensures var ms := Fetched(history, limit, defaultLimit);
        var size := BatchSize(configuredBatchSize);
        c.total == |ms|
        && (forall k :: 0 <= k < |batches| ==> |batches[k]| == size || (k == |batches| - 1 && 0 < |batches[k]| < size))
        && (streamError.None? ==> TelegramHistory.Flatten(batches) == ms)
        && (streamError.Some? ==>
              |batches| * size <= |ms| < |batches| * size + size && TelegramHistory.Flatten(batches) == ms[..|batches| * size])
        && GrownBy(old(db.ledger), db.ledger, IdsOf(ms))
      ensures |db.logs| == |old(db.logs)| + 1 && db.logs[..|old(db.logs)|] == old(db.logs)
      ensures db.logs[|old(db.logs)|].status == (if streamError.None? then "completed" else "failed")
      ensures streamError.None? ==> db.logs[|old(db.logs)|].totalMessages == c.total
      ensures (db.Snapshot(), c)
              == BulkImported(old(db.Snapshot()), db.tokenSortRatio, db.nameKey, minConfidence, Fetched(history, limit, defaultLimit),
                              BatchSize(configuredBatchSize), streamError, quick, extract, started, finished)
    {
      var ms := Fetched(history, limit, defaultLimit);
      ghost var logs0 := db.logs;
      ghost var l0 := db.ledger;
      var log := db.CreateBulkImportLog(started);
      var size := BatchSize(configuredBatchSize);
      var current;
      c, batches, current := ImportBatches(ms, size, log.id, quick, extract, logs0);
      if streamError.Some? {
        db.CompleteBulkImport(log.id, "failed", None, streamError, finished);
        error := streamError;
        return;
      }
      if current != [] {
        ghost var l1 := db.ledger;
        c := ProcessLogged(current, c, log.id, quick, extract, logs0);
        assert forall q :: q in current ==> q in ms;
        GrownTwice(l0, l1, db.ledger, IdsOf(ms), IdsOf(current), IdsOf(ms));
        TelegramHistory.FlattenAppend(batches, current);
        batches := batches + [current];
      }
      db.CompleteBulkImport(log.id, "completed", Some(c.total), None, finished);
      // The embeddings are persisted here.
      error := None;
    }

    /** The loop of run_bulk_import over the messages: every full batch is
      * processed; what is left is the unfinished batch. */
    method ImportBatches(ms: seq<Post>, size: nat, logId: int, quick: QuickOracle,
                         extract: Post -> Collector.Extractor, ghost logs0: seq<BulkImportLog>)
      returns (c: Collector.ImportStats, ghost batches: seq<seq<Post>>, current: seq<Post>)
      requires Valid() && size >= 1 && |db.logs| == |logs0| + 1 && db.logs[..|logs0|] == logs0 && logId == |logs0| + 1
      modifies db
      ensures Valid() && |db.logs| == |logs0| + 1 && db.logs[..|logs0|] == logs0
      ensures c.total == |ms| && TelegramHistory.Flatten(batches) + current == ms
      ensures |current| < size && |TelegramHistory.Flatten(batches)| == |batches| * size
      ensures forall k :: 0 <= k < |batches| ==> |batches[k]| == size
      ensures GrownBy(old(db.ledger), db.ledger, IdsOf(ms))
      ensures (db.Snapshot(), c, current)
              == BatchesHandled(old(db.Snapshot()), db.tokenSortRatio, db.nameKey, minConfidence, ms, size,
                                Collector.ImportStats(0, 0, 0, 0, 0), [], logId, quick, extract)
    {
      c := Collector.ImportStats(0, 0, 0, 0, 0);
      batches := [];
      current := [];
      var i := 0;
      while i < |ms|
        invariant 0 <= i <= |ms| && c.total == i
        invariant db.Valid() && |db.logs| == |logs0| + 1 && db.logs[..|logs0|] == logs0
        invariant GrownBy(old(db.ledger), db.ledger, IdsOf(ms))
        invariant TelegramHistory.Flatten(batches) + current == ms[..i]
        invariant |current| < size && |TelegramHistory.Flatten(batches)| == |batches| * size
        invariant forall k :: 0 <= k < |batches| ==> |batches[k]| == size
        invariant BatchesHandled(db.Snapshot(), db.tokenSortRatio, db.nameKey, minConfidence, ms[i..], size, c, current, logId, quick, extract)
                  == BatchesHandled(old(db.Snapshot()), db.tokenSortRatio, db.nameKey, minConfidence, ms, size,
                                    Collector.ImportStats(0, 0, 0, 0, 0), [], logId, quick, extract)
      {
        assert ms[i..][0] == ms[i] && ms[i..][1..] == ms[i + 1..];
        c := c.(total := c.total + 1);
        current := current + [ms[i]];
        assert ms[..i + 1] == ms[..i] + [ms[i]];
        if |current| >= size {
          ghost var l1 := db.ledger;
          c := ProcessLogged(current, c, logId, quick, extract, logs0);
          assert forall q :: q in current ==> q in ms[..i + 1];
          assert forall q :: q in ms[..i + 1] ==> q in ms;
          GrownTwice(old(db.ledger), l1, db.ledger, IdsOf(ms), IdsOf(current), IdsOf(ms));
          TelegramHistory.FlattenAppend(batches, current);
          OneMoreBatch(|batches|, size);
          batches := batches + [current];
          current := [];
        }
        i := i + 1;
      }
      assert ms[..|ms|] == ms;
    }

    /** A batch processed while the import's log is the last one, which
      * the batch may update and no other. */
    method ProcessLogged(messages: seq<Post>, c0: Collector.ImportStats, logId: int,
                         quick: QuickOracle, extract: Post -> Collector.Extractor,
                         ghost logs0: seq<BulkImportLog>)
      returns (c: Collector.ImportStats)
      requires Valid() && |db.logs| == |logs0| + 1 && db.logs[..|logs0|] == logs0 && logId == |logs0| + 1
      modifies db
      ensures Valid() && Grew(c0, c) && GrownBy(old(db.ledger), db.ledger, IdsOf(messages))
      ensures (db.Snapshot(), c)
              == BatchHandled(old(db.Snapshot()), db.tokenSortRatio, db.nameKey, minConfidence, messages, c0, logId, quick, extract)
      ensures |db.logs| == |logs0| + 1 && db.logs[..|logs0|] == logs0
    {
      ghost var logs1 := db.logs;
      c := ProcessMessageBatch(messages, c0, logId, quick, extract);
      KeptPrefix(logs1, db.logs, logs0, logId);
    }
  }

  /** One more batch of the same size. */
  lemma OneMoreBatch(n: nat, size: nat)
    ensures (n + 1) * size == n * size + size
  {
  }

  /** Every entry of the message map has an id of the batch. */
  lemma IdsOfMap(ledger: seq<ProcessedMessage>, ms: seq<Post>)
    ensures forall q :: q in MessageMapOf(ledger, ms) ==> q.id in IdsOf(ms)
  {
  }

  /** Two growths of a ledger, each by rows with ids of a part, grow it by
    * rows with ids of the whole. */
  lemma GrownTwice(l0: seq<ProcessedMessage>, l1: seq<ProcessedMessage>, l2: seq<ProcessedMessage>,
                   ids1: set<int>, ids2: set<int>, ids: set<int>)
    requires GrownBy(l0, l1, ids1) && GrownBy(l1, l2, ids2) && ids1 <= ids && ids2 <= ids
    ensures GrownBy(l0, l2, ids)
  {
    forall j | |l0| <= j < |l1| ensures l2[j].telegramMessageId in ids {
      assert l2[j] == l1[j];
    }
  }

  /** A step for an id among the ids keeps a growth by those ids. */
  lemma StepGrows(l0: seq<ProcessedMessage>, l1: seq<ProcessedMessage>, l2: seq<ProcessedMessage>, id: int, ids: set<int>)
    requires GrownBy(l0, l1, ids) && LedgerStep(l1, l2, id) && id in ids
    ensures GrownBy(l0, l2, ids)
  {
    forall j | |l0| <= j < |l1| ensures l2[j].telegramMessageId in ids {
      assert l2[j] == l1[j];
    }
  }

  /** The ledger after gained at most one row, for the given id. */
  predicate LedgerStep(before: seq<ProcessedMessage>, after: seq<ProcessedMessage>, id: int)
  {
    before <= after && |after| <= |before| + 1 && (|after| > |before| ==> after[|before|].telegramMessageId == id)
  }

  /** A progress update changes only the log it names. */
  lemma ProgressKeeps(t: Tables, logId: int, processed: Option<int>, feedbacksCreated: Option<int>,
                      professorsCreated: Option<int>, errors: Option<int>, lastMessageId: Option<int>)
    ensures var r := ProgressUpdated(t, logId, processed, feedbacksCreated, professorsCreated, errors, lastMessageId);
      r == t.(logs := r.logs) && LogsKept(t.logs, r.logs, logId)
  {
  }

  /** Every import log other than the one numbered logId is as it was. */
  predicate LogsKept(before: seq<BulkImportLog>, after: seq<BulkImportLog>, logId: int)
  {
    |after| == |before| && forall j :: 0 <= j < |before| && j != logId - 1 ==> after[j] == before[j]
  }

  /** A batch leaves the logs before the import's own as they were. */
  lemma KeptPrefix(before: seq<BulkImportLog>, after: seq<BulkImportLog>, logs0: seq<BulkImportLog>, logId: int)
    requires |before| == |logs0| + 1 && before[..|logs0|] == logs0 && logId == |logs0| + 1
    requires LogsKept(before, after, logId)
    ensures |after| == |logs0| + 1 && after[..|logs0|] == logs0
  {
    forall j | 0 <= j < |logs0| ensures after[j] == logs0[j] {
      assert before[j] == before[..|logs0|][j];
    }
  }

  /** A message id not in a ledger is still not in it after rows for
    * another message are appended. */
  lemma NotInGrownLedger(before: seq<ProcessedMessage>, after: seq<ProcessedMessage>, added: int, other: int)
    requires LedgerStep(before, after, added) && EntryOf(before, other).None? && other != added
    ensures EntryOf(after, other).None?
  {
  }

  // =====================================================================
  // What the bulk import counts and writes

  /** From a to b no counter went down, at most n messages were counted,
    * each as processed or as an error, every feedback created was counted
    * processed, and every professor created came with a feedback. */
  predicate CountedAtMost(a: Collector.ImportStats, b: Collector.ImportStats, n: int)
  {
    a.processed <= b.processed && a.errors <= b.errors && a.feedbacks <= b.feedbacks && a.professors <= b.professors
    && b.processed + b.errors <= a.processed + a.errors + n
    && b.feedbacks - a.feedbacks <= b.processed - a.processed
    && b.professors - a.professors <= b.feedbacks - a.feedbacks
  }

  /** A message of the message_map loop that no counter sees: it has no
    * quick-check item, so process_message handles it, and the extractor
    * raised with an empty message, so the result's error is falsy. */
  predicate Uncounted(results: seq<Gemini.QuickResult>, p: Post, x: Collector.Extractor)
  {
    QuickFor(results, p.id).None? && x == Collector.Raises([])
  }

  /** The number of entries of the loop that no counter sees. */
  function UncountedIn(posts: seq<Post>, results: seq<Gemini.QuickResult>, extract: Post -> Collector.Extractor): (n: nat)
    ensures n <= |posts|
  {
    if posts == [] then 0
    else (if Uncounted(results, posts[0], extract(posts[0])) then 1 else 0) + UncountedIn(posts[1..], results, extract)
  }

  /** What _process_extraction_result reports: a returned dictionary says
    * processed, carries no error, and has a professor created only with a
    * feedback; an exception is never the extractor's. */
  lemma AppliedReport(t: Tables, scorer: Scorer, nameKey: NameKey, minConfidence: real,
                      p: Post, text: string, e: Gemini.Extraction)
    requires Gemini.NormalForm(e)
    ensures var ending := Applied(t, scorer, nameKey, minConfidence, p, text, e).1;
      (ending.Done? ==> ending.report.processed && ending.report.error.None?
                        && (ending.report.feedbackCreated ==> ending.report.processed)
                        && (ending.report.professorCreated ==> ending.report.feedbackCreated))
      && (ending.Failed? ==> !ending.failure.ExtractorFailed?)
  {
  }

  /** The result of process_message on a message past its gates counts it
    * once, as processed or as an error, unless the extractor raised with
    * an empty message; a feedback created is counted processed, and a
    * professor created comes with a feedback. */
  lemma HandledCounts(t: Tables, scorer: Scorer, nameKey: NameKey, minConfidence: real, p: Post, x: Collector.Extractor)
    requires Eligible(t.ledger, p)
    ensures var report := Handled(t, scorer, nameKey, minConfidence, p, x).1;
      ((report.processed || Failing(report.error)) <==> x != Collector.Raises([]))
      && !(report.processed && Failing(report.error))
      && (report.feedbackCreated ==> report.processed)
      && (report.professorCreated ==> report.feedbackCreated)
  {
    if x.Replies? {
      var text := CleanFeedbackText(p.text.value);
      Gemini.ExtractFeedbackFailClosed(text, x.first, x.mini);
      AppliedReport(Captured(t, p.sender), scorer, nameKey, minConfidence, p, text, Gemini.ExtractFeedback(text, x.first, x.mini));
    }
  }

  /** One entry of the message_map loop, for a message past its gates. It
    * keeps the table invariants and the name keys; it adds at most one
    * ledger row, the message's, and the message is in the ledger afterwards
    * exactly when the extractor replied or the quick check called it not
    * feedback; it writes no import log but its own, and that one only on a
    * hundredth message the quick check called feedback, taking the counters
    * and the message id; the total stays; the message is counted once
    * unless it is Uncounted; and a message called not feedback is counted
    * processed and leaves professors and feedback rows alone. */
  lemma OneHandledSpec(t: Tables, scorer: Scorer, nameKey: NameKey, minConfidence: real, p: Post,
                       results: seq<Gemini.QuickResult>, c: Collector.ImportStats, logId: int, x: Collector.Extractor)
    requires TablesValid(t) && Keyed(t.professors, nameKey) && KeyIgnoresOuterBlanks(nameKey)
    requires Eligible(t.ledger, p)
    ensures var (r, c') := OneHandled(t, scorer, nameKey, minConfidence, p, results, c, logId, x);
      var q := QuickFor(results, p.id);
      TablesValid(r) && Keyed(r.professors, nameKey)
      && LedgerStep(t.ledger, r.ledger, p.id)
      && (EntryOf(r.ledger, p.id).Some? <==> x.Replies? || (q.Some? && !q.value.isFeedback))
      && LogsKept(t.logs, r.logs, logId)
      && (q.Some? && q.value.isFeedback && c'.total > 0 && c'.total % 100 == 0 && 1 <= logId <= |t.logs| ==>
            var l := r.logs[logId - 1];
            l.processedMessages == c'.processed && l.feedbacksCreated == c'.feedbacks
            && l.professorsCreated == c'.professors && l.errorsCount == c'.errors
            && l.lastProcessedMessageId == Some(p.id))
      && (!(q.Some? && q.value.isFeedback && c'.total > 0 && c'.total % 100 == 0) ==> r.logs == t.logs)
      && c'.total == c.total
      && CountedAtMost(c, c', 1)
      && c'.processed + c'.errors == c.processed + c.errors + (if Uncounted(results, p, x) then 0 else 1)
      && (q.Some? && !q.value.isFeedback ==>
            c' == c.(processed := c.processed + 1) && r.professors == t.professors && r.feedbacks == t.feedbacks)
  {
    var q := QuickFor(results, p.id);
    if q.None? {
      var (r, report) := Handled(t, scorer, nameKey, minConfidence, p, x);
      assert OneHandled(t, scorer, nameKey, minConfidence, p, results, c, logId, x) == (r, Counted(c, report));
      HandledStep(t, scorer, nameKey, minConfidence, p, x);
    } else if !q.value.isFeedback {
      NotFeedbackStep(t, p);
    } else {
      var (r, failed, report) := ExtractedApplied(t, scorer, nameKey, minConfidence, p, x);
      ExtractedAppliedSpec(t, scorer, nameKey, minConfidence, p, x);
      var c1 := if failed then c.(errors := c.errors + 1) else Counted(c, report);
      assert OneHandled(t, scorer, nameKey, minConfidence, p, results, c, logId, x) == (Progressed(r, c1, logId, p.id), c1);
      ProgressedSpec(r, c1, logId, p.id);
    }
  }

  /** process_message on a message past its gates, as one entry of the
    * loop: the message is in the ledger afterwards exactly when the
    * extractor replied, and nothing else is written to the ledger or the
    * logs. */
  lemma HandledStep(t: Tables, scorer: Scorer, nameKey: NameKey, minConfidence: real, p: Post, x: Collector.Extractor)
    requires TablesValid(t) && Keyed(t.professors, nameKey) && KeyIgnoresOuterBlanks(nameKey)
    requires Eligible(t.ledger, p)
    ensures var (r, report) := Handled(t, scorer, nameKey, minConfidence, p, x);
      TablesValid(r) && Keyed(r.professors, nameKey) && r.logs == t.logs
      && LedgerStep(t.ledger, r.ledger, p.id) && (EntryOf(r.ledger, p.id).Some? <==> x.Replies?)
      && ((report.processed || Failing(report.error)) <==> x != Collector.Raises([]))
      && !(report.processed && Failing(report.error))
      && (report.feedbackCreated ==> report.processed)
      && (report.professorCreated ==> report.feedbackCreated)
  {
    HandledLedger(t, scorer, nameKey, minConfidence, p, x);
    HandledCounts(t, scorer, nameKey, minConfidence, p, x);
    var r := Handled(t, scorer, nameKey, minConfidence, p, x).0;
    if x.Replies? {
      assert r.ledger[|t.ledger|].telegramMessageId == p.id;
    } else {
      CapturedSpec(t, p.sender);
    }
  }

  /** A message the quick check calls not feedback: its sender is captured
    * and one ledger row, saying not feedback, is appended; professors,
    * feedback rows and logs stay. */
  lemma NotFeedbackStep(t: Tables, p: Post)
    requires TablesValid(t) && Eligible(t.ledger, p)
    ensures var r := Marked(Captured(t, p.sender), p.id, false, None, None);
      TablesValid(r) && r.ledger == t.ledger + [ProcessedMessage(p.id, false, None, None)]
      && r.professors == t.professors && r.feedbacks == t.feedbacks && r.logs == t.logs
      && EntryOf(r.ledger, p.id).Some?
  {
    var t1 := Captured(t, p.sender);
    CapturedSpec(t, p.sender);
    MarkedSpec(t1, p.id, false, None, None, false, None, None);
  }

  /** The try block on a message past its gates: an extractor exception
    * writes nothing; otherwise the ledger row comes first and the message
    * is in the ledger afterwards; a returned report says processed,
    * carries no error, and has a professor created only with a feedback. */
  lemma ExtractedAppliedSpec(t: Tables, scorer: Scorer, nameKey: NameKey, minConfidence: real, p: Post, x: Collector.Extractor)
    requires TablesValid(t) && Keyed(t.professors, nameKey) && KeyIgnoresOuterBlanks(nameKey)
    requires Eligible(t.ledger, p)
    ensures var (r, failed, report) := ExtractedApplied(t, scorer, nameKey, minConfidence, p, x);
      TablesValid(r) && Keyed(r.professors, nameKey) && r.logs == t.logs
      && LedgerStep(t.ledger, r.ledger, p.id) && (EntryOf(r.ledger, p.id).Some? <==> x.Replies?)
      && (x.Raises? ==> failed && r == t)
      && (!failed ==> report.processed && !Failing(report.error)
                      && (report.feedbackCreated ==> report.processed)
                      && (report.professorCreated ==> report.feedbackCreated))
  {
    if x.Replies? {
      var text := CleanFeedbackText(p.text.value);
      Gemini.ExtractFeedbackFailClosed(text, x.first, x.mini);
      var e := Gemini.ExtractFeedback(text, x.first, x.mini);
      AppliedLedgerFirst(t, scorer, nameKey, minConfidence, p, text, e);
      AppliedStores(t, scorer, nameKey, minConfidence, p, text, e);
      AppliedReport(t, scorer, nameKey, minConfidence, p, text, e);
      var r := Applied(t, scorer, nameKey, minConfidence, p, text, e).0;
      assert r.ledger[|t.ledger|].telegramMessageId == p.id;
    }
  }

  /** The progress write touches only the import's own log, and only on a
    * hundredth message, when that log takes the counters and the message
    * id. */
  lemma ProgressedSpec(t: Tables, c: Collector.ImportStats, logId: int, messageId: int)
    requires TablesValid(t)
    ensures var r := Progressed(t, c, logId, messageId);
      TablesValid(r) && r == t.(logs := r.logs) && LogsKept(t.logs, r.logs, logId)
      && (!(c.total > 0 && c.total % 100 == 0) ==> r == t)
      && (c.total > 0 && c.total % 100 == 0 && 1 <= logId <= |t.logs| ==>
            var l := r.logs[logId - 1];
            l.processedMessages == c.processed && l.feedbacksCreated == c.feedbacks
            && l.professorsCreated == c.professors && l.errorsCount == c.errors
            && l.lastProcessedMessageId == Some(messageId))
  {
    LogOpsSpec(t, 0, logId, Some(c.processed), Some(c.feedbacks), Some(c.professors), Some(c.errors), Some(messageId),
               "", None, None);
  }

  /** The message_map loop over distinct entries past their gates keeps the
    * table invariants and the name keys, adds ledger rows only for its
    * entries, writes no import log but its own, keeps the total, and counts
    * every entry once except the Uncounted ones. */
  lemma {:induction false} QuickCheckedSpec(t: Tables, scorer: Scorer, nameKey: NameKey, minConfidence: real, posts: seq<Post>,
                                            results: seq<Gemini.QuickResult>, c: Collector.ImportStats, logId: int,
                                            extract: Post -> Collector.Extractor)
    requires TablesValid(t) && Keyed(t.professors, nameKey) && KeyIgnoresOuterBlanks(nameKey)
    requires DistinctIds(posts) && forall q :: q in posts ==> q.text.Some? && Eligible(t.ledger, q)
    ensures var (r, c') := QuickCheckedHandled(t, scorer, nameKey, minConfidence, posts, results, c, logId, extract);
      TablesValid(r) && Keyed(r.professors, nameKey)
      && GrownBy(t.ledger, r.ledger, IdsOf(posts)) && LogsKept(t.logs, r.logs, logId)
      && c'.total == c.total && CountedAtMost(c, c', |posts|)
      && c'.processed + c'.errors + UncountedIn(posts, results, extract) == c.processed + c.errors + |posts|
    decreases |posts|
  {
    if posts != [] {
      var p := posts[0];
      var rest := posts[1..];
      var (t1, c1) := OneHandled(t, scorer, nameKey, minConfidence, p, results, c, logId, extract(p));
      OneHandledSpec(t, scorer, nameKey, minConfidence, p, results, c, logId, extract(p));
      RestEligible(t.ledger, t1.ledger, posts);
      QuickCheckedSpec(t1, scorer, nameKey, minConfidence, rest, results, c1, logId, extract);
      var (r, c2) := QuickCheckedHandled(t1, scorer, nameKey, minConfidence, rest, results, c1, logId, extract);
      StepThenGrown(t.ledger, t1.ledger, r.ledger, p.id, IdsOf(rest), IdsOf(posts));
    }
  }

  /** A step for one id, then a growth by some ids, is a growth by any ids
    * holding both. */
  lemma StepThenGrown(l0: seq<ProcessedMessage>, l1: seq<ProcessedMessage>, l2: seq<ProcessedMessage>,
                      id: int, ids1: set<int>, ids: set<int>)
    requires LedgerStep(l0, l1, id) && GrownBy(l1, l2, ids1) && id in ids && ids1 <= ids
    ensures GrownBy(l0, l2, ids)
  {
    forall j | |l0| <= j < |l1| ensures l2[j].telegramMessageId in ids {
      assert l2[j] == l1[j];
    }
  }

  /** After the first entry of the loop has added at most its own ledger
    * row, the other entries are still past their gates. */
  lemma RestEligible(l0: seq<ProcessedMessage>, l1: seq<ProcessedMessage>, posts: seq<Post>)
    requires posts != [] && DistinctIds(posts) && LedgerStep(l0, l1, posts[0].id)
    requires forall q :: q in posts ==> q.text.Some? && Eligible(l0, q)
    ensures DistinctIds(posts[1..]) && forall q :: q in posts[1..] ==> q.text.Some? && Eligible(l1, q)
    ensures posts[0].id in IdsOf(posts) && IdsOf(posts[1..]) <= IdsOf(posts)
  {
    var rest := posts[1..];
    forall a | 0 <= a < |rest| ensures Eligible(l1, rest[a]) {
      assert rest[a] == posts[a + 1] && posts[a + 1] in posts;
      NotInGrownLedger(l0, l1, posts[0].id, rest[a].id);
    }
    IdsOfSlices(posts, 1);
    assert posts[0] in posts;
  }

  /** A batch whose messages are all stopped by the gates of the payload
    * loop leaves the tables and the counters as they were. */
  lemma BatchHandledIneligible(t: Tables, scorer: Scorer, nameKey: NameKey, minConfidence: real, messages: seq<Post>,
                               c: Collector.ImportStats, logId: int, quick: QuickOracle,
                               extract: Post -> Collector.Extractor)
    requires forall q :: q in messages ==> !Eligible(t.ledger, q)
    ensures BatchHandled(t, scorer, nameKey, minConfidence, messages, c, logId, quick, extract) == (t, c)
  {
    PayloadEmpty(t.ledger, messages);
  }

  /** The payload is empty exactly when no message of the batch passes the
    * gates. */
  lemma {:induction false} PayloadEmpty(ledger: seq<ProcessedMessage>, ms: seq<Post>)
    ensures PayloadOf(ledger, ms) == [] <==> forall q :: q in ms ==> !Eligible(ledger, q)
  {
    if ms != [] {
      var front := ms[..|ms| - 1];
      PayloadEmpty(ledger, front);
      assert forall q :: q in ms ==> q in front || q == ms[|ms| - 1];
      assert forall q :: q in front ==> q in ms;
    }
  }

  /** _process_message_batch keeps the table invariants and the name keys,
    * adds ledger rows only for messages of the batch, writes no import log
    * but its own, keeps the total, and counts each message at most once. */
  lemma {:induction false} BatchHandledSpec(t: Tables, scorer: Scorer, nameKey: NameKey, minConfidence: real, messages: seq<Post>,
                                            c: Collector.ImportStats, logId: int, quick: QuickOracle,
                                            extract: Post -> Collector.Extractor)
    requires TablesValid(t) && Keyed(t.professors, nameKey) && KeyIgnoresOuterBlanks(nameKey)
    ensures var (r, c') := BatchHandled(t, scorer, nameKey, minConfidence, messages, c, logId, quick, extract);
      TablesValid(r) && Keyed(r.professors, nameKey)
      && GrownBy(t.ledger, r.ledger, IdsOf(messages)) && LogsKept(t.logs, r.logs, logId)
      && c'.total == c.total && CountedAtMost(c, c', |messages|)
    decreases |messages|
  {
    var payload := PayloadOf(t.ledger, messages);
    if payload != [] {
      var results := Gemini.QuickItems(payload, quick(payload, 0));
      if results == [] {
        if |messages| == 1 {
          PayloadEmpty(t.ledger, messages);
          assert messages == [messages[0]];
          HandledLedger(t, scorer, nameKey, minConfidence, messages[0], extract(messages[0]));
          HandledCounts(t, scorer, nameKey, minConfidence, messages[0], extract(messages[0]));
          var r := Handled(t, scorer, nameKey, minConfidence, messages[0], extract(messages[0])).0;
          assert messages[0] in messages;
          StepGrows(t.ledger, t.ledger, r.ledger, messages[0].id, IdsOf(messages));
        } else {
          var mid := |messages| / 2;
          IdsOfSlices(messages, mid);
          BatchHandledSpec(t, scorer, nameKey, minConfidence, messages[..mid], c, logId, Deeper(quick), extract);
          var (t1, c1) := BatchHandled(t, scorer, nameKey, minConfidence, messages[..mid], c, logId, Deeper(quick), extract);
          BatchHandledSpec(t1, scorer, nameKey, minConfidence, messages[mid..], c1, logId, Deeper(quick), extract);
          var r := BatchHandled(t1, scorer, nameKey, minConfidence, messages[mid..], c1, logId, Deeper(quick), extract).0;
          GrownTwice(t.ledger, t1.ledger, r.ledger, IdsOf(messages[..mid]), IdsOf(messages[mid..]), IdsOf(messages));
        }
      } else {
        var posts := MessageMapOf(t.ledger, messages);
        IdsOfMap(t.ledger, messages);
        QuickCheckedSpec(t, scorer, nameKey, minConfidence, posts, results, c, logId, extract);
        var r := QuickCheckedHandled(t, scorer, nameKey, minConfidence, posts, results, c, logId, extract).0;
        GrownTwice(t.ledger, t.ledger, r.ledger, {}, IdsOf(posts), IdsOf(messages));
      }
    }
  }

  /** The stream loop of run_bulk_import adds the messages to the total,
    * leaves an unfinished batch that is shorter than the batch size and is
    * the tail of the batch it started with followed by the messages, and
    * counts every message of a handled batch at most once; it keeps the
    * table invariants and the name keys, adds ledger rows only for those
    * messages and writes no import log but its own. */
  lemma {:induction false} BatchesHandledSpec(t: Tables, scorer: Scorer, nameKey: NameKey, minConfidence: real, ms: seq<Post>,
                                              size: nat, c: Collector.ImportStats, current: seq<Post>, logId: int,
                                              quick: QuickOracle, extract: Post -> Collector.Extractor)
    requires TablesValid(t) && Keyed(t.professors, nameKey) && KeyIgnoresOuterBlanks(nameKey)
    requires 1 <= size && |current| < size
    ensures var (r, c', rest) := BatchesHandled(t, scorer, nameKey, minConfidence, ms, size, c, current, logId, quick, extract);
      TablesValid(r) && Keyed(r.professors, nameKey)
      && GrownBy(t.ledger, r.ledger, IdsOf(current + ms)) && LogsKept(t.logs, r.logs, logId)
      && c'.total == c.total + |ms| && |rest| < size && |rest| <= |current + ms|
      && rest == (current + ms)[|current + ms| - |rest|..]
      && CountedAtMost(c, c', |current + ms| - |rest|)
    decreases |ms|
  {
    if ms == [] {
      assert current + ms == current;
      assert GrownBy(t.ledger, t.ledger, IdsOf(current));
    } else {
      var c1 := c.(total := c.total + 1);
      var batch := current + [ms[0]];
      assert current + ms == batch + ms[1..];
      IdsOfSlices(batch + ms[1..], |batch|);
      assert (batch + ms[1..])[..|batch|] == batch && (batch + ms[1..])[|batch|..] == ms[1..];
      if |batch| >= size {
        BatchHandledSpec(t, scorer, nameKey, minConfidence, batch, c1, logId, quick, extract);
        var (t1, c2) := BatchHandled(t, scorer, nameKey, minConfidence, batch, c1, logId, quick, extract);
        BatchesHandledSpec(t1, scorer, nameKey, minConfidence, ms[1..], size, c2, [], logId, quick, extract);
        var (r, c', rest) := BatchesHandled(t1, scorer, nameKey, minConfidence, ms[1..], size, c2, [], logId, quick, extract);
        assert [] + ms[1..] == ms[1..];
        GrownTwice(t.ledger, t1.ledger, r.ledger, IdsOf(batch), IdsOf(ms[1..]), IdsOf(current + ms));
        assert (current + ms)[|current + ms| - |rest|..] == ms[1..][|ms[1..]| - |rest|..];
      } else {
        BatchesHandledSpec(t, scorer, nameKey, minConfidence, ms[1..], size, c1, batch, logId, quick, extract);
      }
    }
  }

  /** run_bulk_import keeps the table invariants and the name keys, counts
    * every message of the stream in the total and each at most once as
    * processed or as an error, with feedbacks only among the processed and
    * professors only with a feedback; it adds ledger rows only for the
    * messages of the stream and exactly one import log, the others kept,
    * which ends completed with the total, or failed. */
  lemma BulkImportedSpec(t: Tables, scorer: Scorer, nameKey: NameKey, minConfidence: real, ms: seq<Post>, size: nat,
                         streamError: Option<string>, quick: QuickOracle,
                         extract: Post -> Collector.Extractor, started: int, finished: int)
    requires TablesValid(t) && Keyed(t.professors, nameKey) && KeyIgnoresOuterBlanks(nameKey) && size >= 1
    ensures var (r, c) := BulkImported(t, scorer, nameKey, minConfidence, ms, size, streamError, quick, extract, started, finished);
      TablesValid(r) && Keyed(r.professors, nameKey)
      && c.total == |ms| && CountedAtMost(Collector.ImportStats(0, 0, 0, 0, 0), c, |ms|)
      && GrownBy(t.ledger, r.ledger, IdsOf(ms))
      && |r.logs| == |t.logs| + 1 && r.logs[..|t.logs|] == t.logs
      && r.logs[|t.logs|].status == (if streamError.None? then "completed" else "failed")
      && r.logs[|t.logs|].completedAt == Some(finished)
      && (streamError.None? ==> r.logs[|t.logs|].totalMessages == c.total)
  {
    var (t1, log) := LogCreated(t, started);
    LogOpsSpec(t, started, 0, None, None, None, None, None, "", None, None);
    var zero := Collector.ImportStats(0, 0, 0, 0, 0);
    BatchesHandledSpec(t1, scorer, nameKey, minConfidence, ms, size, zero, [], log.id, quick, extract);
    var (t2, c, current) := BatchesHandled(t1, scorer, nameKey, minConfidence, ms, size, zero, [], log.id, quick, extract);
    assert [] + ms == ms;
    if streamError.Some? {
      LogOpsSpec(t2, finished, log.id, None, None, None, None, None, "failed", None, streamError);
      KeptPrefix(t1.logs, t2.logs, t.logs, log.id);
    } else {
      var (t3, c3) := if current != [] then BatchHandled(t2, scorer, nameKey, minConfidence, current, c, log.id, quick, extract)
                      else (t2, c);
      if current != [] {
        BatchHandledSpec(t2, scorer, nameKey, minConfidence, current, c, log.id, quick, extract);
        IdsOfSlices(ms, |ms| - |current|);
        GrownTwice(t.ledger, t2.ledger, t3.ledger, IdsOf(ms), IdsOf(current), IdsOf(ms));
      }
      LogOpsSpec(t3, finished, log.id, None, None, None, None, None, "completed", Some(c3.total), None);
      KeptPrefix(t1.logs, t3.logs, t.logs, log.id);
    }
  }
}
