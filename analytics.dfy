// services/analytics_service.py: the read-side statistics over the stored
// professors, feedback rows and user queries. The database queries become
// functions over the tables' rows; the dictionary-counting loops stay loops.
// Values the service rounds for display are kept unrounded.
module Analytics {
  import opened Wrappers
  import opened Strings
  import opened JsonValues
  import opened Models
  import Database

  // =====================================================================
  // _calc_percent

  /** part / total * 100, or 0.0 when total is 0 or None. */
  function Percent(part: int, total: Option<int>): real
  {
    if total.None? || total.value == 0 then 0.0 else (part as real / total.value as real) * 100.0
  }

  /** The percentage is 0 exactly when it has no total or no part; with a
    * total it is the part scaled to 100; for a part within the total it
    * lies in [0, 100]. */
  lemma PercentSpec(part: int, total: Option<int>)
    ensures total.None? || total.value == 0 ==> Percent(part, total) == 0.0
    ensures total.Some? && total.value != 0 ==> Percent(part, total) * total.value as real == part as real * 100.0
    ensures total.Some? && 0 <= part <= total.value && total.value != 0 ==> 0.0 <= Percent(part, total) <= 100.0
  {
    if total.Some? && total.value != 0 {
      var t := total.value as real;
      var q := part as real / t;
      assert q * t == part as real;
      assert Percent(part, total) * t == (q * t) * 100.0;
      if 0 <= part <= total.value {
        assert 0.0 <= q <= 1.0 by {
          assert t > 0.0;
          assert q * t <= 1.0 * t;
        }
      }
    }
  }

  // =====================================================================
  // Counting by dictionary

  /** How many times k occurs in xs. */
  function CountOf(xs: seq<string>, k: string): nat
  {
    if xs == [] then 0 else CountOf(xs[..|xs| - 1], k) + (if xs[|xs| - 1] == k then 1 else 0)
  }

  /** A key occurs exactly when its count is positive, and never more
    * often than there are items. */
  lemma {:induction false} CountOfSpec(xs: seq<string>, k: string)
    ensures (CountOf(xs, k) > 0 <==> k in xs) && CountOf(xs, k) <= |xs|
  {
    if xs != [] {
      CountOfSpec(xs[..|xs| - 1], k);
      assert xs == xs[..|xs| - 1] + [xs[|xs| - 1]];
    }
  }

  predicate Distinct<T(==)>(s: seq<T>)
  {
    forall i, j :: 0 <= i < j < |s| ==> s[i] != s[j]
  }

  /** The dictionary's keys in insertion order: each item the first time it
    * is seen. */
  function FirstSeen(xs: seq<string>): (ks: seq<string>)
    ensures Distinct(ks)
    ensures forall k :: k in ks <==> k in xs
  {
    if xs == [] then []
    else
      var ks := FirstSeen(xs[..|xs| - 1]);
      assert forall k :: k in xs <==> k in xs[..|xs| - 1] || k == xs[|xs| - 1] by {
        assert xs == xs[..|xs| - 1] + [xs[|xs| - 1]];
      }
      if xs[|xs| - 1] in ks then ks else ks + [xs[|xs| - 1]]
  }

  /** counts[k] = counts.get(k, 0) + 1 over the items, as keys in
    * insertion order and the dictionary. */
  function Tallied(xs: seq<string>): (seq<string>, map<string, nat>)
  {
    if xs == [] then ([], map[]) else Bump(Tallied(xs[..|xs| - 1]), xs[|xs| - 1])
  }

  /** counts[x] = counts.get(x, 0) + 1 */
  function Bump(t: (seq<string>, map<string, nat>), x: string): (seq<string>, map<string, nat>)
  {
    var (keys, counts) := t;
    (if x in counts then keys else keys + [x], counts[x := if x in counts then counts[x] + 1 else 1])
  }

  /** The dictionary holds every item once, as first seen, with the number
    * of its occurrences. */
  lemma TalliedSpec(xs: seq<string>)
    ensures var (keys, counts) := Tallied(xs);
      keys == FirstSeen(xs) && counts.Keys == Elements(xs)
      && forall k :: k in counts ==> counts[k] == CountOf(xs, k)
  {
    TalliedKeys(xs);
    TalliedCounts(xs);
  }

  lemma {:induction false} TalliedKeys(xs: seq<string>)
    ensures var (keys, counts) := Tallied(xs); keys == FirstSeen(xs) && counts.Keys == Elements(xs)
  {
    if xs != [] {
      var front := xs[..|xs| - 1];
      var x := xs[|xs| - 1];
      TalliedKeys(front);
      assert Elements(xs) == Elements(front) + {x} by {
        assert xs == front + [x];
      }
    }
  }

  lemma {:induction false} TalliedCounts(xs: seq<string>)
    ensures var (keys, counts) := Tallied(xs); forall k :: k in counts ==> counts[k] == CountOf(xs, k)
  {
    if xs != [] {
      var front := xs[..|xs| - 1];
      var x := xs[|xs| - 1];
      TalliedCounts(front);
      TalliedKeys(front);
      var counts := Tallied(front).1;
      if x !in counts {
        CountOfSpec(front, x);
        assert x !in front;
      }
    }
  }

  /** Counting one more item. */
  lemma TalliedStep(seen: seq<string>, xs: seq<string>, i: nat)
    requires i < |xs|
    ensures Tallied(seen + xs[..i + 1]) == Bump(Tallied(seen + xs[..i]), xs[i])
  {
    var ys := seen + xs[..i + 1];
    assert ys[..|ys| - 1] == seen + xs[..i];
  }

  /** The counting loop, continuing a dictionary that already counts
    * seen with the items xs. */
  method CountInto(keys0: seq<string>, counts0: map<string, nat>, ghost seen: seq<string>, xs: seq<string>)
    returns (keys: seq<string>, counts: map<string, nat>)
    requires (keys0, counts0) == Tallied(seen)
    ensures (keys, counts) == Tallied(seen + xs)
  {
    keys, counts := keys0, counts0;
    assert seen + xs[..0] == seen;
    for i := 0 to |xs|
      invariant (keys, counts) == Tallied(seen + xs[..i])
    {
      TalliedStep(seen, xs, i);
      if xs[i] in counts {
        counts := counts[xs[i] := counts[xs[i]] + 1];
      } else {
        keys := keys + [xs[i]];
        counts := counts[xs[i] := 1];
      }
    }
    assert xs[..|xs|] == xs;
  }

  /** Counting items into an empty dictionary. */
  method Tally(xs: seq<string>) returns (keys: seq<string>, counts: map<string, nat>)
    ensures (keys, counts) == Tallied(xs)
  {
    keys, counts := CountInto([], map[], [], xs);
    assert [] + xs == xs;
  }

  // =====================================================================
  // sorted(counts.items(), key=count, reverse=True)[:limit]

  /** In a stable sort by count, largest first, key i comes before key j:
    * a larger count, or an equal count and an earlier key. */
  predicate Precedes(cnt: seq<nat>, i: nat, j: nat)
    requires i < |cnt| && j < |cnt|
  {
    cnt[i] > cnt[j] || (cnt[i] == cnt[j] && i < j)
  }

  lemma PrecedesTransitive(cnt: seq<nat>, i: nat, j: nat, k: nat)
    requires i < |cnt| && j < |cnt| && k < |cnt|
    requires Precedes(cnt, i, j) && Precedes(cnt, j, k)
    ensures Precedes(cnt, i, k)
  {
  }

  /** order lists, by position, the first min(limit, |cnt|) keys of the
    * stable sort by count, largest first. */
  predicate RankedTop(cnt: seq<nat>, order: seq<nat>, limit: nat)
  {
    |order| == (if limit < |cnt| then limit else |cnt|)
    && (forall i :: 0 <= i < |order| ==> order[i] < |cnt|)
    && Distinct(order)
    && (forall i :: 0 <= i < |order| - 1 ==> Precedes(cnt, order[i], order[i + 1]))
    && (order != [] ==> forall j :: 0 <= j < |cnt| && j !in order ==> Precedes(cnt, order[|order| - 1], j))
  }

  /** A listed key has a count at least that of any key left out, and the
    * listed counts never increase. */
  lemma {:induction false} RankedTopMaximal(cnt: seq<nat>, order: seq<nat>, limit: nat, i: nat, j: nat)
    requires RankedTop(cnt, order, limit) && i < |order| && j < |cnt| && j !in order
    ensures cnt[order[i]] >= cnt[j]
    decreases |order| - i
  {
    if i < |order| - 1 {
      RankedTopMaximal(cnt, order, limit, i + 1, j);
      assert Precedes(cnt, order[i], order[i + 1]);
    }
  }

  /** Only one list is ranked so for given counts and limit: the ranking
    * is determined. */
  lemma {:induction false} RankedTopUnique(cnt: seq<nat>, a: seq<nat>, b: seq<nat>, limit: nat, n: nat)
    requires RankedTop(cnt, a, limit) && RankedTop(cnt, b, limit) && n <= |a|
    requires a[..n] == b[..n]
    ensures a == b
    decreases |a| - n
  {
    if n < |a| {
      // a[n] and b[n] are both the first, in precedence, of the keys not in the common prefix
      if a[n] != b[n] {
        assert b[n] !in a[..n + 1] by {
          assert b[n] !in b[..n];
          assert a[..n + 1] == b[..n] + [a[n]];
        }
        assert a[n] !in b[..n + 1] by {
          assert a[n] !in a[..n];
          assert b[..n + 1] == a[..n] + [b[n]];
        }
        assert n < |b| && b[n] < |cnt|;
        AfterInChain(cnt, a, limit, n, b[n]);
        AfterInChain(cnt, b, limit, n, a[n]);
        assert false;
      }
      assert a[..n + 1] == a[..n] + [a[n]] && b[..n + 1] == b[..n] + [b[n]];
      RankedTopUnique(cnt, a, b, limit, n + 1);
    } else {
      assert a == a[..n] && b == b[..n];
    }
  }

  /** order[n] precedes every key listed after it and every key left out. */
  lemma ChainPrecedes(cnt: seq<nat>, order: seq<nat>, limit: nat, n: nat)
    requires RankedTop(cnt, order, limit) && n < |order|
    ensures forall j :: 0 <= j < |cnt| && j !in order[..n + 1] ==> Precedes(cnt, order[n], j)
  {
    forall j | 0 <= j < |cnt| && j !in order[..n + 1] ensures Precedes(cnt, order[n], j) {
      AfterInChain(cnt, order, limit, n, j);
    }
  }

  lemma {:induction false} AfterInChain(cnt: seq<nat>, order: seq<nat>, limit: nat, n: nat, j: nat)
    requires RankedTop(cnt, order, limit) && n < |order| && j < |cnt| && j !in order[..n + 1]
    ensures Precedes(cnt, order[n], j)
    decreases |order| - n
  {
    if n == |order| - 1 {
      assert order[..n + 1] == order;
    } else if j == order[n + 1] {
    } else {
      assert order[..n + 1] + [order[n + 1]] == order[..n + 2];
      AfterInChain(cnt, order, limit, n + 1, j);
      PrecedesTransitive(cnt, order[n], order[n + 1], j);
    }
  }

  /** The slice of the stable sort, computed by picking, min(limit, |cnt|)
    * times, the first key of largest count among those not yet listed. */
  method TopByCount(cnt: seq<nat>, limit: nat) returns (order: seq<nat>)
    ensures RankedTop(cnt, order, limit)
  {
    order := [];
    while |order| < limit && |order| < |cnt|
      invariant |order| <= |cnt| && |order| <= limit
      invariant forall i :: 0 <= i < |order| ==> order[i] < |cnt|
      invariant Distinct(order)
      invariant forall i :: 0 <= i < |order| - 1 ==> Precedes(cnt, order[i], order[i + 1])
      invariant order != [] ==> forall j :: 0 <= j < |cnt| && j !in order ==> Precedes(cnt, order[|order| - 1], j)
      decreases |cnt| - |order|
    {
      var best := Unlisted(cnt, order);
      order := order + [best];
    }
  }

  /** The first key of largest count among those not in order. */
  method Unlisted(cnt: seq<nat>, order: seq<nat>) returns (best: nat)
    requires |order| < |cnt| && Distinct(order) && forall i :: 0 <= i < |order| ==> order[i] < |cnt|
    ensures best < |cnt| && best !in order
    ensures forall j :: 0 <= j < |cnt| && j !in order && j != best ==> Precedes(cnt, best, j)
  {
    var found := false;
    best := 0;
    for j := 0 to |cnt|
      invariant found ==> best < j && best !in order
      invariant !found ==> forall k :: 0 <= k < j ==> k in order
      invariant found ==> forall k :: 0 <= k < j && k !in order && k != best ==> Precedes(cnt, best, k)
    {
      if j !in order && (!found || cnt[j] > cnt[best]) {
        best := j;
        found := true;
      }
    }
    if !found {
      assert forall k :: 0 <= k < |cnt| ==> k in order;
      UnlistedExists(cnt, order);
      assert false;
    }
  }

  /** Fewer distinct positions than keys leave some key unlisted. */
  lemma UnlistedExists(cnt: seq<nat>, order: seq<nat>)
    requires |order| < |cnt| && Distinct(order) && forall i :: 0 <= i < |order| ==> order[i] < |cnt|
    ensures exists k :: 0 <= k < |cnt| && k !in order
  {
    var all: seq<nat> := seq(|cnt|, i => i);
    DistinctCard(order);
    DistinctCard(all);
    if forall k :: 0 <= k < |cnt| ==> k in order {
      forall k | k in Elements(all) ensures k in Elements(order) {
        var i :| 0 <= i < |all| && all[i] == k;
      }
      SubsetCard(Elements(all), Elements(order));
      assert false;
    }
  }

  function Elements<T>(s: seq<T>): set<T>
  {
    set x | x in s
  }

  lemma {:induction false} DistinctCard<T>(s: seq<T>)
    requires Distinct(s)
    ensures |Elements(s)| == |s|
  {
    if s != [] {
      var front := s[..|s| - 1];
      DistinctCard(front);
      assert Elements(s) == Elements(front) + {s[|s| - 1]} by {
        assert s == front + [s[|s| - 1]];
      }
      assert s[|s| - 1] !in front;
    }
  }

  lemma SubsetCard<T>(a: set<T>, b: set<T>)
    requires a <= b
    ensures |a| <= |b|
  {
    assert b == a + (b - a);
  }

  /** The number of occurrences of each key, in first-seen order. */
  function Counts(xs: seq<string>): (cnt: seq<nat>)
    ensures |cnt| == |FirstSeen(xs)|
  {
    var keys := FirstSeen(xs);
    seq(|keys|, i requires 0 <= i < |keys| => CountOf(xs, keys[i]))
  }

  /** The counting loop's dictionary gives the counts, key by key. */
  lemma TallyCounts(xs: seq<string>)
    ensures var (keys, counts) := Tallied(xs);
      (forall k :: k in keys ==> k in counts) && keys == FirstSeen(xs) && CountsOf(keys, counts) == Counts(xs)
  {
    TalliedSpec(xs);
  }

  /** The counts of the keys, in key order. */
  function CountsOf(keys: seq<string>, counts: map<string, nat>): (cnt: seq<nat>)
    requires forall k :: k in keys ==> k in counts
    ensures |cnt| == |keys|
  {
    seq(|keys|, i requires 0 <= i < |keys| => counts[keys[i]])
  }

  // =====================================================================
  // _get_top_items

  /** item.lower().strip() */
  function ItemKey(item: string): string
  {
    Strip(Lower(item))
  }

  function ItemKeys(items: seq<string>): (ks: seq<string>)
    ensures |ks| == |items| && forall i :: 0 <= i < |items| ==> ks[i] == ItemKey(items[i])
  {
    seq(|items|, i requires 0 <= i < |items| => ItemKey(items[i]))
  }

  /** _get_top_items: the most common items, compared lowercased and
    * stripped. The result has no duplicates, lists the keys of the
    * ranking of their counts (ties in first-seen order) and is empty for no
    * items. */
  method TopItems(items: seq<string>, limit: nat) returns (top: seq<string>, ghost order: seq<nat>)
    ensures items == [] ==> top == []
    ensures var keys := FirstSeen(ItemKeys(items));
      RankedTop(Counts(ItemKeys(items)), order, limit) && top == seq(|order|, i requires 0 <= i < |order| => keys[order[i]])
  {
    var ks := ItemKeys(items);
    if items == [] {
      order := [];
      return [], order;
    }
    var keys, counts := Tally(ks);
    TallyCounts(ks);
    var cnt := CountsOf(keys, counts);
    var ranked := TopByCount(cnt, limit);
    order := ranked;
    top := seq(|ranked|, i requires 0 <= i < |ranked| => keys[ranked[i]]);
  }

  // =====================================================================
  // get_most_searched_professors

  /** The names of professors_mentioned of every query that has a truthy
    * list, in query order. */
  function Mentions(queries: seq<seq<string>>): seq<string>
  {
    if queries == [] then [] else Mentions(queries[..|queries| - 1]) + queries[|queries| - 1]
  }

  /** get_most_searched_professors over the recent queries: +1 per
    * mention, then the ranking by count, as (name, count) pairs. */
  method MostSearched(queries: seq<seq<string>>, limit: nat) returns (top: seq<(string, nat)>, ghost order: seq<nat>)
    ensures var keys := FirstSeen(Mentions(queries));
      var cnt := Counts(Mentions(queries));
      RankedTop(cnt, order, limit)
      && top == seq(|order|, i requires 0 <= i < |order| => (keys[order[i]], cnt[order[i]]))
  {
    var keys: seq<string> := [];
    var counts: map<string, nat> := map[];
    for q := 0 to |queries|
      invariant (keys, counts) == Tallied(Mentions(queries[..q]))
    {
      assert queries[..q + 1][..q] == queries[..q];
      keys, counts := CountInto(keys, counts, Mentions(queries[..q]), queries[q]);
    }
    assert queries[..|queries|] == queries;
    TallyCounts(Mentions(queries));
    var cnt := CountsOf(keys, counts);
    var ranked := TopByCount(cnt, limit);
    order := ranked;
    top := seq(|ranked|, i requires 0 <= i < |ranked| => (keys[ranked[i]], cnt[ranked[i]]));
  }

  // =====================================================================
  // Stable sort, largest key first

  /** Inserts x before the first element whose key is not above its own:
    * x keeps its place ahead of equal keys that follow it. */
  function Insert<T>(x: T, s: seq<T>, key: T -> real): seq<T>
  {
    if s == [] || key(x) >= key(s[0]) then [x] + s else [s[0]] + Insert(x, s[1..], key)
  }

  /** A stable sort by key, largest first: list.sort(key=..., reverse=True)
    * and ORDER BY ... DESC, with ties in their original order. */
  function SortDesc<T>(xs: seq<T>, key: T -> real): seq<T>
  {
    if xs == [] then [] else Insert(xs[0], SortDesc(xs[1..], key), key)
  }

  predicate Descending<T>(s: seq<T>, key: T -> real)
  {
    forall i, j :: 0 <= i < j < |s| ==> key(s[i]) >= key(s[j])
  }

  lemma {:induction false} InsertPermutes<T>(x: T, s: seq<T>, key: T -> real)
    ensures multiset(Insert(x, s, key)) == multiset(s) + multiset{x}
  {
    if s != [] && key(x) < key(s[0]) {
      InsertPermutes(x, s[1..], key);
      assert s == [s[0]] + s[1..];
    }
  }

  /** In a descending sequence the head's key bounds every later key. */
  lemma HeadDominates<T>(s: seq<T>, key: T -> real)
    requires Descending(s, key) && s != []
    ensures forall y :: y in s[1..] ==> key(y) <= key(s[0])
  {
    forall y | y in s[1..] ensures key(y) <= key(s[0]) {
      var k :| 0 <= k < |s[1..]| && s[1..][k] == y;
      assert s[k + 1] == y;
    }
  }

  /** Inserting x after the head keeps every key below the head's. */
  lemma InsertBelowHead<T>(x: T, s: seq<T>, key: T -> real)
    requires Descending(s, key) && s != [] && key(x) < key(s[0])
    ensures forall y :: y in Insert(x, s[1..], key) ==> key(y) <= key(s[0])
  {
    var r := Insert(x, s[1..], key);
    InsertPermutes(x, s[1..], key);
    HeadDominates(s, key);
    forall y | y in r ensures key(y) <= key(s[0]) {
      assert y in multiset(r);
      assert y == x || y in multiset(s[1..]);
    }
  }

  lemma {:induction false} InsertSorted<T>(x: T, s: seq<T>, key: T -> real)
    requires Descending(s, key)
    ensures Descending(Insert(x, s, key), key)
  {
    if s != [] && key(x) < key(s[0]) {
      var r := Insert(x, s[1..], key);
      InsertSorted(x, s[1..], key);
      InsertBelowHead(x, s, key);
      var ins := [s[0]] + r;
      forall i, j | 0 <= i < j < |ins| ensures key(ins[i]) >= key(ins[j]) {
        assert ins[j] == r[j - 1];
        if i > 0 {
          assert ins[i] == r[i - 1];
        } else {
          assert ins[j] in r;
        }
      }
    }
  }

  lemma InsertSpec<T>(x: T, s: seq<T>, key: T -> real)
    requires Descending(s, key)
    ensures Descending(Insert(x, s, key), key) && multiset(Insert(x, s, key)) == multiset(s) + multiset{x}
  {
    InsertSorted(x, s, key);
    InsertPermutes(x, s, key);
  }

  /** The sort is sorted and a permutation of its input. */
  lemma {:induction false} SortDescSpec<T>(xs: seq<T>, key: T -> real)
    ensures Descending(SortDesc(xs, key), key) && multiset(SortDesc(xs, key)) == multiset(xs)
  {
    if xs != [] {
      SortDescSpec(xs[1..], key);
      InsertSpec(xs[0], SortDesc(xs[1..], key), key);
      assert xs == [xs[0]] + xs[1..];
    }
  }

  /** The first limit elements of the sort: query.order_by(...).limit(...). */
  function Leaders<T>(xs: seq<T>, key: T -> real, limit: nat): seq<T>
  {
    var s := SortDesc(xs, key);
    s[..if limit < |s| then limit else |s|]
  }

  /** The leaders are min(limit, |xs|) of the elements, largest key
    * first, and all of them when limit does not cut. */
  lemma LeadersSpec<T>(xs: seq<T>, key: T -> real, limit: nat)
    ensures var l := Leaders(xs, key, limit);
      |l| == (if limit < |xs| then limit else |xs|)
      && multiset(l) <= multiset(xs)
      && Descending(l, key)
      && (|xs| <= limit ==> multiset(l) == multiset(xs))
  {
    var s := SortDesc(xs, key);
    SortDescSpec(xs, key);
    assert |s| == |xs| by {
      assert |multiset(s)| == |multiset(xs)|;
    }
    var n := if limit < |s| then limit else |s|;
    PrefixSplit(s, n);
    DescendingPrefix(s, key, n);
    if |xs| <= limit {
      assert s[..n] == s;
    }
  }

  lemma PrefixSplit<T>(s: seq<T>, n: nat)
    requires n <= |s|
    ensures multiset(s) == multiset(s[..n]) + multiset(s[n..])
  {
    assert s == s[..n] + s[n..];
  }

  lemma DescendingPrefix<T>(s: seq<T>, key: T -> real, n: nat)
    requires n <= |s| && Descending(s, key)
    ensures Descending(s[..n], key)
  {
    forall i, j | 0 <= i < j < n ensures key(s[..n][i]) >= key(s[..n][j]) {
      assert s[..n][i] == s[i] && s[..n][j] == s[j];
    }
  }

  /** Every element left out of the leaders has a key no larger than the
    * last leader's. */
  lemma LeadersBound<T>(xs: seq<T>, key: T -> real, limit: nat, y: T)
    requires Leaders(xs, key, limit) != [] && y in multiset(xs) - multiset(Leaders(xs, key, limit))
    ensures var l := Leaders(xs, key, limit); key(y) <= key(l[|l| - 1])
  {
    var s := SortDesc(xs, key);
    SortDescSpec(xs, key);
    var n := |Leaders(xs, key, limit)|;
    PrefixSplit(s, n);
    assert y in multiset(s[n..]);
    var k :| 0 <= k < |s[n..]| && s[n..][k] == y;
    assert s[n + k] == y;
    assert s[n - 1] == s[..n][n - 1];
  }

  // =====================================================================
  // get_top_professors / get_bottom_professors

  /** A row of the rankings; percent is the share of positive (top) or
    * negative (bottom) feedback. */
  datatype RankedRow = RankedRow(rank: nat, name: string, department: Option<string>, rating: real,
                                 totalFeedbacks: nat, percent: real)

  /** Professor.total_feedbacks >= min_feedbacks, and the department when
    * one is given. */
  predicate Ranked(p: Professor, minFeedbacks: int, department: Option<string>)
  {
    p.totalFeedbacks >= minFeedbacks && (department.Some? && department.value != [] ==> p.department == department)
  }

  function Filtered(ps: seq<Professor>, minFeedbacks: int, department: Option<string>): (r: seq<Professor>)
    ensures forall p :: p in r ==> p in ps && Ranked(p, minFeedbacks, department)
    ensures forall p :: p in ps && Ranked(p, minFeedbacks, department) ==> p in r
    ensures multiset(r) <= multiset(ps)
  {
    if ps == [] then []
    else
      var front := Filtered(ps[..|ps| - 1], minFeedbacks, department);
      assert ps == ps[..|ps| - 1] + [ps[|ps| - 1]];
      if Ranked(ps[|ps| - 1], minFeedbacks, department) then front + [ps[|ps| - 1]] else front
  }

  /** get_top_professors: the best rated of the professors with enough
    * feedback, ranked from 1. */
  function TopProfessors(ps: seq<Professor>, limit: nat, minFeedbacks: int, department: Option<string>): (rows: seq<RankedRow>)
  {
    var l := Leaders(Filtered(ps, minFeedbacks, department), (p: Professor) => p.overallRating, limit);
    seq(|l|, i requires 0 <= i < |l| =>
      RankedRow(i + 1, l[i].name, l[i].department, l[i].overallRating, l[i].totalFeedbacks,
                Percent(l[i].positiveFeedbacks, Some(l[i].totalFeedbacks))))
  }

  /** get_bottom_professors: the worst rated of the professors with enough
    * feedback, ranked from 1. */
  function BottomProfessors(ps: seq<Professor>, limit: nat, minFeedbacks: int): (rows: seq<RankedRow>)
  {
    var l := Leaders(Filtered(ps, minFeedbacks, None), (p: Professor) => -p.overallRating, limit);
    seq(|l|, i requires 0 <= i < |l| =>
      RankedRow(i + 1, l[i].name, l[i].department, l[i].overallRating, l[i].totalFeedbacks,
                Percent(l[i].negativeFeedbacks, Some(l[i].totalFeedbacks))))
  }

  /** The row names the professor, with their rating and feedback count. */
  predicate Describes(row: RankedRow, p: Professor)
  {
    row.name == p.name && row.department == p.department
    && row.rating == p.overallRating && row.totalFeedbacks == p.totalFeedbacks
  }

  predicate Lists(rows: seq<RankedRow>, p: Professor)
  {
    exists i :: 0 <= i < |rows| && Describes(rows[i], p)
  }

  /** The top list ranks from 1 in steps of 1, its ratings never rise, it
    * holds min(limit, eligible) rows, and each row is an eligible professor:
    * enough feedback, and of the department when one is given. */
  lemma TopProfessorsSpec(ps: seq<Professor>, limit: nat, minFeedbacks: int, department: Option<string>)
    ensures var rows := TopProfessors(ps, limit, minFeedbacks, department);
      var eligible := Filtered(ps, minFeedbacks, department);
      |rows| == (if limit < |eligible| then limit else |eligible|)
      && (forall i :: 0 <= i < |rows| ==> rows[i].rank == i + 1)
      && (forall i :: 0 <= i < |rows| - 1 ==> rows[i].rating >= rows[i + 1].rating)
      && (forall i :: 0 <= i < |rows| ==> exists p :: p in ps && Ranked(p, minFeedbacks, department) && Describes(rows[i], p))
  {
    var key := (p: Professor) => p.overallRating;
    var eligible := Filtered(ps, minFeedbacks, department);
    var l := Leaders(eligible, key, limit);
    LeadersSpec(eligible, key, limit);
    var rows := TopProfessors(ps, limit, minFeedbacks, department);
    assert |rows| == |l|;
    forall i | 0 <= i < |rows| - 1 ensures rows[i].rating >= rows[i + 1].rating {
      assert rows[i].rating == key(l[i]) && rows[i + 1].rating == key(l[i + 1]);
    }
    forall i | 0 <= i < |rows| ensures exists p :: p in ps && Ranked(p, minFeedbacks, department) && Describes(rows[i], p) {
      assert l[i] in multiset(eligible);
      assert l[i] in eligible;
      assert Describes(rows[i], l[i]);
    }
  }

  /** No eligible professor rated above the last row is left out. */
  lemma TopProfessorsComplete(ps: seq<Professor>, limit: nat, minFeedbacks: int, department: Option<string>, p: Professor)
    requires p in ps && Ranked(p, minFeedbacks, department)
    requires var rows := TopProfessors(ps, limit, minFeedbacks, department);
      rows != [] && p.overallRating > rows[|rows| - 1].rating
    ensures Lists(TopProfessors(ps, limit, minFeedbacks, department), p)
  {
    var key := (p: Professor) => p.overallRating;
    var eligible := Filtered(ps, minFeedbacks, department);
    var l := Leaders(eligible, key, limit);
    var rows := TopProfessors(ps, limit, minFeedbacks, department);
    assert p in multiset(eligible);
    if p in multiset(l) {
      var k :| 0 <= k < |l| && l[k] == p;
      assert rows[k].name == p.name;
    } else {
      LeadersBound(eligible, key, limit, p);
      assert false;
    }
  }

  /** The bottom list ranks from 1, its ratings never fall, it holds
    * min(limit, eligible) rows, each for a professor with enough feedback. */
  lemma BottomProfessorsSpec(ps: seq<Professor>, limit: nat, minFeedbacks: int)
    ensures var rows := BottomProfessors(ps, limit, minFeedbacks);
      var eligible := Filtered(ps, minFeedbacks, None);
      |rows| == (if limit < |eligible| then limit else |eligible|)
      && (forall i :: 0 <= i < |rows| ==> rows[i].rank == i + 1)
      && (forall i :: 0 <= i < |rows| - 1 ==> rows[i].rating <= rows[i + 1].rating)
      && (forall i :: 0 <= i < |rows| ==> exists p :: p in ps && p.totalFeedbacks >= minFeedbacks && Describes(rows[i], p))
  {
    var key := (p: Professor) => -p.overallRating;
    var eligible := Filtered(ps, minFeedbacks, None);
    var l := Leaders(eligible, key, limit);
    LeadersSpec(eligible, key, limit);
    var rows := BottomProfessors(ps, limit, minFeedbacks);
    forall i | 0 <= i < |rows| - 1 ensures rows[i].rating <= rows[i + 1].rating {
      assert key(l[i]) >= key(l[i + 1]);
    }
    forall i | 0 <= i < |rows| ensures exists p :: p in ps && p.totalFeedbacks >= minFeedbacks && Describes(rows[i], p) {
      assert l[i] in multiset(eligible);
      assert l[i] in eligible;
      assert Describes(rows[i], l[i]);
    }
  }

  /** No professor with enough feedback rated below the last row is left
    * out. */
  lemma BottomProfessorsComplete(ps: seq<Professor>, limit: nat, minFeedbacks: int, p: Professor)
    requires p in ps && p.totalFeedbacks >= minFeedbacks
    requires var rows := BottomProfessors(ps, limit, minFeedbacks);
      rows != [] && p.overallRating < rows[|rows| - 1].rating
    ensures Lists(BottomProfessors(ps, limit, minFeedbacks), p)
  {
    var key := (p: Professor) => -p.overallRating;
    var eligible := Filtered(ps, minFeedbacks, None);
    var l := Leaders(eligible, key, limit);
    var rows := BottomProfessors(ps, limit, minFeedbacks);
    assert Ranked(p, minFeedbacks, None);
    assert p in multiset(eligible);
    if p in multiset(l) {
      var k :| 0 <= k < |l| && l[k] == p;
      assert rows[k].name == p.name;
    } else {
      LeadersBound(eligible, key, limit, p);
      assert false;
    }
  }

  /** The positive share of every top row lies in [0, 100]. */
  lemma TopPercentInRange(ps: seq<Professor>, limit: nat, minFeedbacks: int, department: Option<string>, i: nat)
    requires forall p :: p in ps ==> p.positiveFeedbacks <= p.totalFeedbacks
    requires i < |TopProfessors(ps, limit, minFeedbacks, department)|
    ensures 0.0 <= TopProfessors(ps, limit, minFeedbacks, department)[i].percent <= 100.0
  {
    var eligible := Filtered(ps, minFeedbacks, department);
    var l := Leaders(eligible, (p: Professor) => p.overallRating, limit);
    LeadersSpec(eligible, (p: Professor) => p.overallRating, limit);
    assert l[i] in multiset(eligible);
    PercentSpec(l[i].positiveFeedbacks, Some(l[i].totalFeedbacks));
  }

  // =====================================================================
  // get_professors_for_course

  /** A row of the course listing. */
  datatype CourseRow = CourseRow(professorId: nat, name: string, department: Option<string>, courseRating: real,
                                 courseFeedbacks: nat, overallRating: real, totalFeedbacks: nat)

  /** Professor.courses contains course_code.upper(). */
  predicate Teaches(p: Professor, code: string)
  {
    Upper(code) in p.courses
  }

  /** A feedback row of the professor whose course code matches
    * ILIKE '%code%': contains the code, ignoring case. */
  predicate OnCourse(f: Feedback, p: Professor, code: string)
  {
    f.professorId == p.id && f.courseCode.JStr? && Contains(Lower(f.courseCode.s), Lower(code))
  }

  function CourseFeedbacks(fs: seq<Feedback>, p: Professor, code: string): (r: seq<Feedback>)
    ensures |r| <= |fs| && forall f :: f in r ==> f in fs && OnCourse(f, p, code)
  {
    if fs == [] then []
    else
      var front := CourseFeedbacks(fs[..|fs| - 1], p, code);
      (if OnCourse(fs[|fs| - 1], p, code) then front + [fs[|fs| - 1]] else front)
  }

  /** The truthy final ratings: neither None nor 0. */
  function TruthyRatings(fs: seq<Feedback>): (rs: seq<real>)
    ensures |rs| <= |fs|
  {
    if fs == [] then []
    else
      var f := fs[|fs| - 1];
      TruthyRatings(fs[..|fs| - 1]) + (if f.finalRating.Some? && f.finalRating.value != 0.0 then [f.finalRating.value] else [])
  }

  /** The course rating: the mean of the truthy final ratings of the course
    * feedback, 0 when none is rated, the professor's overall rating when
    * the course has no feedback. */
  function CourseRating(p: Professor, course: seq<Feedback>): real
  {
    if course == [] then p.overallRating
    else
      var rs := TruthyRatings(course);
      if rs == [] then 0.0 else Database.Mean(rs)
  }

  function CourseRowOf(p: Professor, fs: seq<Feedback>, code: string): CourseRow
  {
    var course := CourseFeedbacks(fs, p, code);
    CourseRow(p.id, p.name, p.department, CourseRating(p, course), |course|, p.overallRating, p.totalFeedbacks)
  }

  /** The rows of the professors who teach the course, in table order. */
  function CourseRows(ps: seq<Professor>, fs: seq<Feedback>, code: string): seq<CourseRow>
  {
    if ps == [] then []
    else
      CourseRows(ps[..|ps| - 1], fs, code)
      + (if Teaches(ps[|ps| - 1], code) then [CourseRowOf(ps[|ps| - 1], fs, code)] else [])
  }

  /** The row of one professor teaching the course. */
  method CourseRowFor(prof: Professor, fs: seq<Feedback>, code: string) returns (row: CourseRow)
    ensures row == CourseRowOf(prof, fs, code)
  {
    var course := CourseFeedbacks(fs, prof, code);
    var avg: real;
    if course != [] {
      var ratings := TruthyRatings(course);
      avg := if ratings != [] then Database.Sum(ratings) / |ratings| as real else 0.0;
    } else {
      avg := prof.overallRating;
    }
    row := CourseRow(prof.id, prof.name, prof.department, avg, |course|, prof.overallRating, prof.totalFeedbacks);
  }

  /** get_professors_for_course: one row per professor teaching the
    * course, sorted by course rating, highest first. The rows are those of
    * the professors teaching the course, every one once. */
  method ProfessorsForCourse(ps: seq<Professor>, fs: seq<Feedback>, code: string) returns (rows: seq<CourseRow>)
    ensures multiset(rows) == multiset(CourseRows(ps, fs, code))
    ensures Descending(rows, (r: CourseRow) => r.courseRating)
    ensures rows == SortDesc(CourseRows(ps, fs, code), (r: CourseRow) => r.courseRating)
  {
    var results: seq<CourseRow> := [];
    for k := 0 to |ps|
      invariant results == CourseRows(ps[..k], fs, code)
    {
      assert ps[..k + 1][..k] == ps[..k];
      if Teaches(ps[k], code) {
        var row := CourseRowFor(ps[k], fs, code);
        results := results + [row];
      }
    }
    assert ps[..|ps|] == ps;
    rows := SortDesc(results, (r: CourseRow) => r.courseRating);
    SortDescSpec(results, (r: CourseRow) => r.courseRating);
  }

  /** The course rating of a professor with course feedback lies in
    * [1, 5] when any of it is rated within [1, 5], and is 0 otherwise;
    * without course feedback it is the overall rating. */
  lemma {:induction false} CourseRatingSpec(p: Professor, course: seq<Feedback>)
    requires Database.RatingsInRange(course)
    ensures course == [] ==> CourseRating(p, course) == p.overallRating
    ensures course != [] && TruthyRatings(course) == [] ==> CourseRating(p, course) == 0.0
    ensures course != [] && TruthyRatings(course) != [] ==> 1.0 <= CourseRating(p, course) <= 5.0
  {
    if course != [] && TruthyRatings(course) != [] {
      TruthyInRange(course);
      Database.MeanBounds(TruthyRatings(course), 1.0, 5.0);
    }
  }

  lemma {:induction false} TruthyInRange(fs: seq<Feedback>)
    requires Database.RatingsInRange(fs)
    ensures forall i :: 0 <= i < |TruthyRatings(fs)| ==> 1.0 <= TruthyRatings(fs)[i] <= 5.0
  {
    if fs != [] {
      TruthyInRange(fs[..|fs| - 1]);
      assert Database.RatingsInRange(fs[..|fs| - 1]);
    }
  }
}
