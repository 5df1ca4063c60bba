// Character classes and the few string primitives of Python that the
// ingestion code leans on: str.strip(), str.split() with no argument,
// str.join(), str.lower()/str.upper(), str.startswith/endswith and `in`.
//
// Unicode is modelled for the scripts the feedback group writes in (ASCII,
// Latin-1, Latin Extended-A/B and Cyrillic); other code points are treated
// as neither letters nor digits.
module Strings {

  /** Python's str.isspace() (the set `\s` matches in a str pattern). */
  predicate IsSpace(c: char)
  {
    c == ' ' || ('\t' <= c <= '\r') || ('\U{1C}' <= c <= '\U{1F}')
    || c == '\U{85}' || c == '\U{A0}' || c == '\U{1680}'
    || ('\U{2000}' <= c <= '\U{200A}') || c == '\U{2028}' || c == '\U{2029}'
    || c == '\U{202F}' || c == '\U{205F}' || c == '\U{3000}'
  }

  /** Decimal digits (ASCII only; other Unicode digits are not modelled). */
  predicate IsDigit(c: char)
  {
    '0' <= c <= '9'
  }

  predicate IsAsciiUpper(c: char) { 'A' <= c <= 'Z' }
  predicate IsAsciiLower(c: char) { 'a' <= c <= 'z' }

  /** Python's str.isalpha() restricted to the modelled scripts. */
  predicate IsAlpha(c: char)
  {
    IsAsciiUpper(c) || IsAsciiLower(c)
    || c == '\U{AA}' || c == '\U{B5}' || c == '\U{BA}'
    || ('\U{C0}' <= c <= '\U{FF}' && c != '\U{D7}' && c != '\U{F7}')
    || ('\U{100}' <= c <= '\U{24F}')
    || ('\U{400}' <= c <= '\U{481}') || ('\U{48A}' <= c <= '\U{52F}')
  }

  /** Membership in `\w` for a str pattern. */
  predicate IsWordChar(c: char)
  {
    IsAlpha(c) || IsDigit(c) || c == '_'
  }

  /** Python's lower() of one character (ASCII, Latin-1 and Cyrillic). */
  function LowerChar(c: char): (r: char)
    ensures IsAsciiUpper(c) ==> IsAsciiLower(r)
    ensures !IsAsciiUpper(r)
    ensures IsAlpha(c) <==> IsAlpha(r)
    ensures IsDigit(c) <==> IsDigit(r)
    ensures IsSpace(c) <==> IsSpace(r)
  {
    if IsAsciiUpper(c) then (c as int + 32) as char
    else if '\U{C0}' <= c <= '\U{DE}' && c != '\U{D7}' then (c as int + 32) as char
    else if '\U{410}' <= c <= '\U{42F}' then (c as int + 32) as char
    else if '\U{400}' <= c <= '\U{40F}' then (c as int + 80) as char
    else if CyrillicPairUpper(c) then (c as int + 1) as char
    else if c == '\U{4C0}' then '\U{4CF}'
    else if '\U{4C1}' <= c <= '\U{4CD}' && c as int % 2 == 1 then (c as int + 1) as char
    else c
  }

  /** Upper-case member of a Cyrillic upper/lower pair laid out even/odd
    * (the extended letters such as the Uzbek and Tajik ones). */
  predicate CyrillicPairUpper(c: char)
  {
    (('\U{460}' <= c <= '\U{480}') || ('\U{48A}' <= c <= '\U{4BE}') || ('\U{4D0}' <= c <= '\U{52E}'))
    && c as int % 2 == 0
  }

  /** Python's upper() of one character (ASCII, Latin-1 and Cyrillic). */
  function UpperChar(c: char): (r: char)
    ensures IsAsciiLower(c) ==> IsAsciiUpper(r)
    ensures !IsAsciiLower(r)
    ensures IsDigit(c) <==> IsDigit(r)
    ensures IsSpace(c) <==> IsSpace(r)
  {
    if IsAsciiLower(c) then (c as int - 32) as char
    else if '\U{E0}' <= c <= '\U{FE}' && c != '\U{F7}' then (c as int - 32) as char
    else if '\U{430}' <= c <= '\U{44F}' then (c as int - 32) as char
    else if '\U{450}' <= c <= '\U{45F}' then (c as int - 80) as char
    else if (('\U{461}' <= c <= '\U{481}') || ('\U{48B}' <= c <= '\U{4BF}') || ('\U{4D1}' <= c <= '\U{52F}'))
      && c as int % 2 == 1 then (c as int - 1) as char
    else if c == '\U{4CF}' then '\U{4C0}'
    else if '\U{4C2}' <= c <= '\U{4CE}' && c as int % 2 == 0 then (c as int - 1) as char
    else c
  }

  /** On Cyrillic, upper() undoes what lower() changes. */
  lemma CyrillicCaseRoundTrip(c: char)
    requires '\U{400}' <= c <= '\U{52F}' && LowerChar(c) != c
    ensures UpperChar(LowerChar(c)) == c
  {
  }

  function Lower(s: string): (r: string)
    ensures |r| == |s|
    ensures forall i :: 0 <= i < |s| ==> r[i] == LowerChar(s[i])
  {
    seq(|s|, i requires 0 <= i < |s| => LowerChar(s[i]))
  }

  function Upper(s: string): (r: string)
    ensures |r| == |s|
    ensures forall i :: 0 <= i < |s| ==> r[i] == UpperChar(s[i])
  {
    seq(|s|, i requires 0 <= i < |s| => UpperChar(s[i]))
  }

  predicate StartsWith(s: string, p: string)
  {
    |p| <= |s| && s[..|p|] == p
  }

  predicate EndsWith(s: string, p: string)
  {
    |p| <= |s| && s[|s| - |p|..] == p
  }

  /** `sub` occurs in `s` starting at index i. */
  predicate OccursAt(s: string, sub: string, i: int)
  {
    0 <= i && i + |sub| <= |s| && s[i..i + |sub|] == sub
  }

  /** Python's `sub in s`. */
  predicate Contains(s: string, sub: string)
  {
    exists i :: 0 <= i <= |s| - |sub| && OccursAt(s, sub, i)
  }

  /** Number of occurrences of the character c in s (Python's s.count(c)). */
  function CountChar(s: string, c: char): (n: nat)
    ensures n <= |s|
  {
    if s == [] then 0 else (if s[0] == c then 1 else 0) + CountChar(s[1..], c)
  }

  lemma {:induction false} CountCharAppend(a: string, b: string, c: char)
    ensures CountChar(a + b, c) == CountChar(a, c) + CountChar(b, c)
  {
    if a == [] {
      assert a + b == b;
    } else {
      assert (a + b)[1..] == a[1..] + b;
      CountCharAppend(a[1..], b, c);
    }
  }

  // ---------------------------------------------------------------------
  // strip()

  /** Number of whitespace characters at the head of s. */
  function LeadingSpaces(s: string): (k: nat)
    ensures k <= |s|
    ensures k == |s| || !IsSpace(s[k])
    ensures forall i :: 0 <= i < k ==> IsSpace(s[i])
  {
    if s != [] && IsSpace(s[0]) then 1 + LeadingSpaces(s[1..]) else 0
  }

  /** Index where the whitespace at the tail of s begins. */
  function TrailingStart(s: string): (e: nat)
    ensures e <= |s|
    ensures e == 0 || !IsSpace(s[e - 1])
    ensures forall i :: e <= i < |s| ==> IsSpace(s[i])
  {
    if s != [] && IsSpace(s[|s| - 1]) then TrailingStart(s[..|s| - 1]) else |s|
  }

  /** Python's str.lstrip() with no argument. */
  function TrimLeft(s: string): string
  {
    s[LeadingSpaces(s)..]
  }

  /** Python's str.rstrip() with no argument. */
  function TrimRight(s: string): string
  {
    s[..TrailingStart(s)]
  }

  /** Python's str.strip() with no argument. */
  function Strip(s: string): (r: string)
  {
    TrimRight(TrimLeft(s))
  }

  /** No whitespace at either end. */
  predicate Stripped(s: string)
  {
    s == [] || (!IsSpace(s[0]) && !IsSpace(s[|s| - 1]))
  }

  /** strip() removes exactly the whitespace at both ends and nothing else. */
  lemma StripSpec(s: string) returns (i: nat, j: nat)
    ensures Stripped(Strip(s))
    ensures i <= j <= |s| && Strip(s) == s[i..j]
    ensures forall k :: 0 <= k < i ==> IsSpace(s[k])
    ensures forall k :: j <= k < |s| ==> IsSpace(s[k])
  {
    var l := TrimLeft(s);
    var r := TrimRight(l);
    i := |s| - |l|;
    j := i + |r|;
    assert s[i..j] == r by {
      forall k | 0 <= k < |r| ensures r[k] == s[i..j][k] {
        assert r[k] == l[k] == s[i + k];
      }
    }
    forall k | j <= k < |s| ensures IsSpace(s[k]) {
      assert s[k] == l[k - i];
    }
    assert Stripped(r) by {
      if r != [] {
        assert r[0] == l[0];
      }
    }
  }

  lemma StrippedStrip(s: string)
    ensures Stripped(Strip(s))
  {
    var _, _ := StripSpec(s);
  }

  /** Every character of strip(s) is a character of s. */
  lemma StripChars(s: string, P: char -> bool)
    requires forall k :: 0 <= k < |s| ==> P(s[k])
    ensures forall k :: 0 <= k < |Strip(s)| ==> P(Strip(s)[k])
  {
    var l := TrimLeft(s);
    var r := TrimRight(l);
    forall k | 0 <= k < |r| ensures P(r[k]) {
      assert r[k] == l[k] == s[|s| - |l| + k];
    }
  }

  lemma StripIdempotent(s: string)
    requires Stripped(s)
    ensures Strip(s) == s
  {
  }

  // ---------------------------------------------------------------------
  // split() and join()

  /** Length of the run of non-whitespace characters at the head of s. */
  function TokenLen(s: string): (k: nat)
    ensures k <= |s|
    ensures forall i :: 0 <= i < k ==> !IsSpace(s[i])
    ensures k == |s| || IsSpace(s[k])
  {
    if s != [] && !IsSpace(s[0]) then 1 + TokenLen(s[1..]) else 0
  }

  /** Python's str.split() with no argument: the maximal whitespace-free runs. */
  function Split(s: string): (ps: seq<string>)
    decreases |s|
  {
    var t := TrimLeft(s);
    if t == [] then []
    else
      var k := TokenLen(t);
      [t[..k]] + Split(t[k..])
  }

  predicate Token(w: string)
  {
    w != [] && forall i :: 0 <= i < |w| ==> !IsSpace(w[i])
  }

  lemma {:induction false} SplitTokens(s: string)
    ensures forall w :: w in Split(s) ==> Token(w)
    decreases |s|
  {
    var t := TrimLeft(s);
    if t != [] {
      var k := TokenLen(t);
      SplitTokens(t[k..]);
      assert Split(s) == [t[..k]] + Split(t[k..]);
      assert Token(t[..k]);
    }
  }

  /** Python's sep.join(parts). */
  function Join(sep: string, parts: seq<string>): (r: string)
  {
    if parts == [] then ""
    else if |parts| == 1 then parts[0]
    else parts[0] + sep + Join(sep, parts[1..])
  }

  /** Python's s.split(c) for a one-character separator: the pieces between
    * separators, empty ones included; there is always at least one. */
  function SplitOn(s: string, c: char): (ps: seq<string>)
    ensures |ps| >= 1
    ensures forall p :: p in ps ==> c !in p
  {
    if s == [] then [[]]
    else
      var rest := SplitOn(s[1..], c);
      if s[0] == c then [[]] + rest
      else [[s[0]] + rest[0]] + rest[1..]
  }

  /** Joining the pieces with the separator gives the string back. */
  lemma {:induction false} JoinSplitOn(s: string, c: char)
    ensures Join([c], SplitOn(s, c)) == s
  {
    if s != [] {
      var rest := SplitOn(s[1..], c);
      JoinSplitOn(s[1..], c);
      if s[0] == c {
        JoinCons1([], rest, c);
      } else if |rest| == 1 {
        assert SplitOn(s, c) == [[s[0]] + rest[0]];
      } else {
        JoinCons1(rest[0], rest[1..], c);
        assert rest == [rest[0]] + rest[1..];
        JoinCons1([s[0]] + rest[0], rest[1..], c);
      }
    }
  }

  lemma JoinCons1(w: string, ws: seq<string>, c: char)
    requires ws != []
    ensures Join([c], [w] + ws) == w + [c] + Join([c], ws)
  {
    assert ([w] + ws)[1..] == ws;
  }

  /** Splitting separator-free pieces joined by the separator gives them back. */
  lemma {:induction false} SplitOnJoin(ws: seq<string>, c: char)
    requires ws != [] && forall w :: w in ws ==> c !in w
    ensures SplitOn(Join([c], ws), c) == ws
    decreases |Join([c], ws)|
  {
    var w := ws[0];
    if w == [] {
      if |ws| == 1 {
        assert Join([c], ws) == [];
      } else {
        JoinCons1(w, ws[1..], c);
        var j := Join([c], ws);
        assert j == [c] + Join([c], ws[1..]);
        assert j[1..] == Join([c], ws[1..]);
        assert forall v :: v in ws[1..] ==> v in ws;
        SplitOnJoin(ws[1..], c);
        assert ws == [[]] + ws[1..];
      }
    } else {
      assert w in ws;
      var ws' := [w[1..]] + ws[1..];
      assert forall v :: v in ws' ==> v in ws || v == w[1..];
      assert c !in w[1..] by { assert forall k :: 0 <= k < |w[1..]| ==> w[1..][k] == w[k + 1]; }
      SplitOnJoin(ws', c);
      var j := Join([c], ws);
      assert j == [w[0]] + Join([c], ws') by {
        if |ws| == 1 {
          assert j == w && Join([c], ws') == w[1..];
        } else {
          JoinCons1(w, ws[1..], c);
          JoinCons1(w[1..], ws[1..], c);
        }
      }
      assert j[1..] == Join([c], ws');
      assert j[0] == w[0] != c;
      assert [w[0]] + w[1..] == w;
      assert ws'[1..] == ws[1..];
      assert ws == [[w[0]] + w[1..]] + ws'[1..];
    }
  }

  /** A string whose only whitespace is single blanks between non-blank runs. */
  predicate Collapsed(s: string)
  {
    Stripped(s)
    && (forall i :: 0 <= i < |s| && IsSpace(s[i]) ==> s[i] == ' ')
    && (forall i :: 0 <= i < |s| - 1 ==> !(s[i] == ' ' && s[i + 1] == ' '))
  }

  lemma {:induction false} JoinTokensCollapsed(ws: seq<string>)
    requires forall w :: w in ws ==> Token(w)
    ensures Collapsed(Join(" ", ws))
    ensures ws != [] ==> Join(" ", ws) != []
  {
    if |ws| == 1 {
      assert ws[0] in ws;
    } else if |ws| > 1 {
      assert ws[0] in ws;
      JoinTokensCollapsed(ws[1..]);
      var rest := Join(" ", ws[1..]);
      var r := ws[0] + " " + rest;
      assert r == Join(" ", ws);
      assert forall i :: 0 <= i < |ws[0]| ==> r[i] == ws[0][i];
      assert r[|ws[0]|] == ' ';
      assert forall i :: |ws[0]| < i < |r| ==> r[i] == rest[i - |ws[0]| - 1];
      assert !IsSpace(r[|r| - 1]) by { assert r[|r| - 1] == rest[|rest| - 1]; }
    }
  }

  /** ' '.join(s.split()): the whitespace-collapsing idiom. */
  function Collapse(s: string): (r: string)
    ensures Collapsed(r)
  {
    SplitTokens(s);
    JoinTokensCollapsed(Split(s));
    Join(" ", Split(s))
  }

  /** Splitting a joined list of tokens gives the tokens back. */
  lemma {:induction false} SplitJoin(ws: seq<string>)
    requires forall w :: w in ws ==> Token(w)
    ensures Split(Join(" ", ws)) == ws
  {
    if ws == [] {
      assert TrimLeft([]) == [];
    } else {
      assert ws[0] in ws;
      assert forall w :: w in ws[1..] ==> w in ws;
      SplitJoin(ws[1..]);
      SplitJoinCons(ws[0], ws[1..]);
      HeadTail(ws);
    }
  }

  /** One step of SplitJoin: a token in front of a joined list. */
  lemma SplitJoinCons(w: string, ws: seq<string>)
    requires Token(w) && Split(Join(" ", ws)) == ws
    ensures Split(Join(" ", [w] + ws)) == [w] + ws
  {
    if ws == [] {
      assert Join(" ", [w] + ws) == w + [];
      SplitCons(w, []);
      assert TrimLeft([]) == [];
    } else {
      var rest := Join(" ", ws);
      assert ([w] + ws)[1..] == ws;
      assert Join(" ", [w] + ws) == w + (" " + rest);
      SplitCons(w, " " + rest);
      SplitLeadingSpace(rest);
    }
  }

  /** A non-empty sequence is its head followed by its tail. */
  lemma HeadTail<T>(s: seq<T>)
    requires s != []
    ensures [s[0]] + s[1..] == s
  {
  }

  /** A token followed by whitespace (or nothing) is the first piece of the split. */
  lemma SplitCons(w: string, tail: string)
    requires Token(w)
    requires tail == [] || IsSpace(tail[0])
    ensures Split(w + tail) == [w] + Split(tail)
  {
    var s := w + tail;
    assert s[0] == w[0];
    assert TrimLeft(s) == s;
    TokenLenPrefix(w, tail);
    assert s[..|w|] == w;
    assert s[|w|..] == tail;
  }

  lemma SplitLeadingSpace(s: string)
    ensures Split(" " + s) == Split(s)
  {
    var t := " " + s;
    assert t[1..] == s;
    assert t != [] && IsSpace(t[0]);
    assert TrimLeft(t) == TrimLeft(s);
  }

  lemma {:induction false} TokenLenPrefix(w: string, tail: string)
    requires Token(w)
    requires tail == [] || IsSpace(tail[0])
    ensures TokenLen(w + tail) == |w|
    decreases |w|
  {
    if |w| > 1 {
      assert (w + tail)[1..] == w[1..] + tail;
      TokenLenPrefix(w[1..], tail);
    } else {
      assert (w + tail)[1..] == tail;
    }
  }

  /** Every character of w satisfies P. */
  predicate CharsIn(w: string, P: char -> bool)
  {
    forall k :: 0 <= k < |w| ==> P(w[k])
  }

  lemma CharsInAppend(a: string, b: string, P: char -> bool)
    requires CharsIn(a, P) && CharsIn(b, P)
    ensures CharsIn(a + b, P)
  {
    forall k | 0 <= k < |a + b| ensures P((a + b)[k]) {
      if k < |a| { assert (a + b)[k] == a[k]; } else { assert (a + b)[k] == b[k - |a|]; }
    }
  }

  /** The pieces of split() are made of characters of s that are not blanks. */
  lemma {:induction false} SplitChars(s: string, P: char -> bool)
    requires forall k :: 0 <= k < |s| ==> P(s[k]) || IsSpace(s[k])
    ensures forall w :: w in Split(s) ==> CharsIn(w, P)
    decreases |s|
  {
    var t := TrimLeft(s);
    if t != [] {
      var w, j := SplitHead(s, P);
      SuffixChars(s, j, P);
      SplitChars(s[j..], P);
    }
  }

  /** The first piece of split() is a run of characters of s that are not
    * blanks, and the rest is the split of what follows it. */
  lemma SplitHead(s: string, P: char -> bool) returns (w: string, j: nat)
    requires TrimLeft(s) != []
    requires forall k :: 0 <= k < |s| ==> P(s[k]) || IsSpace(s[k])
    ensures j <= |s| && CharsIn(w, P) && Split(s) == [w] + Split(s[j..])
  {
    var t := TrimLeft(s);
    var n := TokenLen(t);
    w := t[..n];
    j := |s| - |t| + n;
    assert CharsIn(w, P) by {
      forall k | 0 <= k < |w| ensures P(w[k]) {
        assert w[k] == s[|s| - |t| + k] && !IsSpace(w[k]);
      }
    }
    assert t[n..] == s[j..] by {
      forall k | 0 <= k < |t| - n ensures t[n..][k] == s[j..][k] {
        assert t[n + k] == s[|s| - |t| + n + k];
      }
    }
  }

  lemma SuffixChars(s: string, j: nat, P: char -> bool)
    requires j <= |s|
    requires forall k :: 0 <= k < |s| ==> P(s[k]) || IsSpace(s[k])
    ensures forall k :: 0 <= k < |s[j..]| ==> P(s[j..][k]) || IsSpace(s[j..][k])
  {
  }

  /** Joining with a blank adds no character other than the blank. */
  lemma {:induction false} JoinChars(ws: seq<string>, P: char -> bool)
    requires P(' ')
    requires forall w :: w in ws ==> CharsIn(w, P)
    ensures CharsIn(Join(" ", ws), P)
  {
    if |ws| == 1 {
      assert ws[0] in ws;
    } else if |ws| > 1 {
      assert ws[0] in ws;
      assert forall w :: w in ws[1..] ==> w in ws;
      JoinChars(ws[1..], P);
      var rest := Join(" ", ws[1..]);
      var j := ws[0] + " " + rest;
      assert j == Join(" ", ws);
      forall k | 0 <= k < |j| ensures P(j[k]) {
        if k < |ws[0]| {
          assert j[k] == ws[0][k];
        } else if k > |ws[0]| {
          assert j[k] == rest[k - |ws[0]| - 1];
        }
      }
    }
  }

  /** Collapsing whitespace keeps only characters of s and single blanks. */
  lemma CollapseChars(s: string, P: char -> bool)
    requires P(' ')
    requires forall k :: 0 <= k < |s| ==> P(s[k]) || IsSpace(s[k])
    ensures CharsIn(Collapse(s), P)
  {
    SplitChars(s, P);
    JoinChars(Split(s), P);
  }

  /** Collapsing whitespace never makes a string longer. */
  lemma CollapseLength(s: string)
    ensures |Collapse(s)| <= |s|
  {
    JoinSplitLength(s);
  }

  lemma {:induction false} JoinSplitLength(s: string)
    ensures |Join(" ", Split(s))| <= |s|
    decreases |s|
  {
    var t := TrimLeft(s);
    if t != [] {
      var k := TokenLen(t);
      var rest := t[k..];
      var ws := Split(rest);
      assert Split(s) == [t[..k]] + ws;
      if ws != [] {
        var tail := rest[1..];
        assert |tail| < |s| - k;
        SplitDropSpace(rest);
        JoinSplitLength(tail);
        JoinCons(t[..k], ws);
      }
    }
  }

  lemma SplitDropSpace(s: string)
    requires s != [] && IsSpace(s[0])
    ensures Split(s) == Split(s[1..])
  {
  }

  lemma JoinCons(w: string, ws: seq<string>)
    requires ws != []
    ensures Join(" ", [w] + ws) == w + " " + Join(" ", ws)
    ensures Join(" ", [w] + ws) == w + (" " + Join(" ", ws))
  {
    assert ([w] + ws)[1..] == ws;
  }

  /** A collapsed string is its own collapse. */
  lemma CollapseCollapsed(s: string)
    requires Collapsed(s)
    ensures Collapse(s) == s
  {
    JoinSplitCollapsed(s);
  }

  lemma {:induction false} JoinSplitCollapsed(s: string)
    requires Collapsed(s)
    ensures Join(" ", Split(s)) == s
    decreases |s|
  {
    if s == [] {
      assert TrimLeft(s) == [];
    } else {
      var w, tail := CollapsedHead(s);
      if tail == [] {
        JoinSplitToken(w);
      } else {
        JoinSplitCollapsed(tail);
        JoinSplitStep(w, tail);
      }
    }
  }

  lemma JoinSplitToken(w: string)
    requires Token(w)
    ensures Join(" ", Split(w)) == w
  {
    SplitCons(w, []);
    assert w + [] == w;
    assert TrimLeft([]) == [];
  }

  /** One step of JoinSplitCollapsed: a token, a blank and a collapsed rest. */
  lemma JoinSplitStep(w: string, tail: string)
    requires Token(w) && tail != [] && !IsSpace(tail[0]) && Join(" ", Split(tail)) == tail
    ensures Join(" ", Split(w + (" " + tail))) == w + (" " + tail)
  {
    SplitCons(w, " " + tail);
    SplitLeadingSpace(tail);
    assert Split(tail) != [] by { assert TrimLeft(tail) == tail; }
    JoinCons(w, Split(tail));
  }

  /** A non-empty collapsed string is a token, alone or followed by a blank
    * and a shorter collapsed string. */
  lemma CollapsedHead(s: string) returns (w: string, tail: string)
    requires Collapsed(s) && s != []
    ensures Token(w) && Collapsed(tail) && |tail| < |s|
    ensures tail == [] ==> s == w
    ensures tail != [] ==> s == w + (" " + tail)
  {
    var k := TokenLen(s);
    w := s[..k];
    assert Token(w) by {
      assert !IsSpace(s[0]);
      forall i | 0 <= i < k ensures !IsSpace(w[i]) { assert w[i] == s[i]; }
    }
    if k == |s| {
      tail := [];
    } else {
      assert s[k] == ' ';
      assert k + 1 < |s|;
      tail := s[k + 1..];
      CollapsedSuffix(s, k + 1);
      assert s == w + (" " + tail);
    }
  }

  /** What follows a blank of a collapsed string is collapsed. */
  lemma CollapsedSuffix(s: string, j: nat)
    requires Collapsed(s) && 0 < j < |s| && s[j - 1] == ' '
    ensures Collapsed(s[j..])
  {
    var t := s[j..];
    assert forall i :: 0 <= i < |t| ==> t[i] == s[j + i];
    assert s[j] != ' ' by { assert !(s[j - 1] == ' ' && s[j] == ' '); }
    assert t[|t| - 1] == s[|s| - 1];
  }

  /** Collapsing whitespace twice is the same as collapsing it once. */
  lemma CollapseIdempotent(s: string)
    ensures Collapse(Collapse(s)) == Collapse(s)
  {
    SplitTokens(s);
    SplitJoin(Split(s));
  }
}
