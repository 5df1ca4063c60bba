// Worked examples of extract_rating_from_text (utils/text_processing.py):
// a "/10" rating is halved before the clamp, and the "/5" pattern, tried
// first, also reads the head of "/50". Each example walks the search one
// index at a time through small lemmas; the last section proves the "/10"
// case for every natural number.
module RatingExamples {
  import opened Wrappers
  import opened Strings
  import opened JsonValues
  import opened TextProcessing

  // =====================================================================
  // Steps of the search

  /** A pattern that does not match at i hands the search to i + 1. */
  lemma SearchStep(s: string, i: nat, p: RatingPattern)
    requires i < |s| && RatingAt(s, i, p).None?
    ensures SearchRating(s, i, p) == SearchRating(s, i + 1, p)
  {
  }

  lemma SearchEnd(s: string, p: RatingPattern)
    requires RatingAt(s, |s|, p).None?
    ensures SearchRating(s, |s|, p).None?
  {
  }

  lemma SearchHere(s: string, i: nat, p: RatingPattern, g: string)
    requires i <= |s| && RatingAt(s, i, p) == Some(g)
    ensures SearchRating(s, i, p) == Some(g)
  {
  }

  /** A pattern that finds nothing hands over to the next one. */
  lemma PatternMissed(s: string, ps: seq<RatingPattern>)
    requires ps != [] && SearchRating(s, 0, ps[0]).None?
    ensures RatingFromPatterns(s, ps) == RatingFromPatterns(s, ps[1..])
  {
  }

  /** A pattern that captures a number gives the rating. */
  lemma PatternHit(s: string, ps: seq<RatingPattern>, g: string, v: real)
    requires ps != [] && SearchRating(s, 0, ps[0]) == Some(g) && ParseDecimal(g) == Some(v)
    ensures RatingFromPatterns(s, ps) == Some(Clamp(1.0, 5.0, if Scale(ps[0]) == 10.0 then v / 2.0 else v))
  {
    var scaled := if Scale(ps[0]) == 10.0 then v / 2.0 else v;
    assert RatingFromPatterns(s, ps) == Some(Clamp(1.0, 5.0, scaled));
  }

  /** The "/5" pattern finds nothing and the "/10" pattern captures g: the
    * rating is half of g's value, clamped. */
  lemma TenthsRating(s: string, g: string, v: real)
    requires SearchRating(s, 0, OverFive).None? && SearchRating(s, 0, OverTen) == Some(g)
    requires ParseDecimal(g) == Some(v)
    ensures RatingFromPatterns(s, RatingPatterns) == Some(Clamp(1.0, 5.0, v / 2.0))
  {
    assert RatingPatterns[0] == OverFive;
    PatternMissed(s, RatingPatterns);
    assert RatingPatterns[1..][0] == OverTen;
    PatternHit(s, RatingPatterns[1..], g, v);
  }

  /** The "/5" pattern captures g: the rating is g's value, clamped. */
  lemma FifthsRating(s: string, g: string, v: real)
    requires SearchRating(s, 0, OverFive) == Some(g) && ParseDecimal(g) == Some(v)
    ensures RatingFromPatterns(s, RatingPatterns) == Some(Clamp(1.0, 5.0, v))
  {
    assert RatingPatterns[0] == OverFive;
    PatternHit(s, RatingPatterns, g, v);
  }

  /** A number followed directly by '/' and something other than a blank
    * or '5' is no "/5" rating. */
  lemma OverFiveMissed(s: string, i: nat, e: nat)
    requires i <= |s| && NumberEnd(s, i) == Some(e) && e + 1 < |s|
    requires s[e] == '/' && !IsSpace(s[e + 1]) && s[e + 1] != '5'
    ensures RatingAt(s, i, OverFive).None?
  {
    assert SpaceRun(s[e..]) == 0;
    assert SpaceRun(s[e + 1..]) == 0;
    assert s[e + 1..e + 2][0] == s[e + 1];
    assert !OccursAt(s, "5", e + 1);
  }

  // =====================================================================
  // "8/10"

  lemma EightOverFiveAt0()
    ensures RatingAt("8/10", 0, OverFive).None?
  {
    var s := "8/10";
    assert NumberEnd(s, 0) == Some(1);
    OverFiveMissed(s, 0, 1);
  }

  lemma EightOverFiveAt2()
    ensures RatingAt("8/10", 2, OverFive).None?
  {
    assert NumberEnd("8/10", 2) == Some(4);
  }

  lemma EightOverFiveAt3()
    ensures RatingAt("8/10", 3, OverFive).None?
  {
    assert NumberEnd("8/10", 3) == Some(4);
  }

  lemma EightOverFive()
    ensures SearchRating("8/10", 0, OverFive).None?
  {
    var s := "8/10";
    EightOverFiveAt0();
    SearchStep(s, 0, OverFive);
    assert RatingAt(s, 1, OverFive).None?;
    SearchStep(s, 1, OverFive);
    EightOverFiveAt2();
    SearchStep(s, 2, OverFive);
    EightOverFiveAt3();
    SearchStep(s, 3, OverFive);
    SearchEnd(s, OverFive);
  }

  lemma EightOverTen()
    ensures SearchRating("8/10", 0, OverTen) == Some("8")
  {
    var s := "8/10";
    assert NumberEnd(s, 0) == Some(1);
    assert SpaceRun(s[1..]) == 0;
    assert SpaceRun(s[2..]) == 0;
    assert s[2..4] == "10";
    assert TailMatches(s, 1, OverTen);
    assert s[0..1] == "8";
    SearchHere(s, 0, OverTen, "8");
  }

  lemma EightValue()
    ensures ParseDecimal("8") == Some(8.0)
  {
    ParseDecimalOfIntToString(8);
  }

  /** "8/10" is halved to 4.0. */
  lemma EightTenths()
    ensures ExtractRatingFromText("8/10") == Some(4.0)
  {
    assert Lower("8/10") == "8/10";
    EightOverFive();
    EightOverTen();
    EightValue();
    TenthsRating("8/10", "8", 8.0);
  }

  // =====================================================================
  // "12/10"

  lemma TwelveOverFiveAt0()
    ensures RatingAt("12/10", 0, OverFive).None?
  {
    var s := "12/10";
    assert NumberEnd(s, 0) == Some(2);
    OverFiveMissed(s, 0, 2);
  }

  lemma TwelveOverFiveAt1()
    ensures RatingAt("12/10", 1, OverFive).None?
  {
    var s := "12/10";
    assert NumberEnd(s, 1) == Some(2);
    OverFiveMissed(s, 1, 2);
  }

  lemma TwelveOverFiveAt3()
    ensures RatingAt("12/10", 3, OverFive).None?
  {
    assert NumberEnd("12/10", 3) == Some(5);
  }

  lemma TwelveOverFiveAt4()
    ensures RatingAt("12/10", 4, OverFive).None?
  {
    assert NumberEnd("12/10", 4) == Some(5);
  }

  lemma TwelveOverFive()
    ensures SearchRating("12/10", 0, OverFive).None?
  {
    var s := "12/10";
    TwelveOverFiveAt0();
    SearchStep(s, 0, OverFive);
    TwelveOverFiveAt1();
    SearchStep(s, 1, OverFive);
    assert RatingAt(s, 2, OverFive).None?;
    SearchStep(s, 2, OverFive);
    TwelveOverFiveAt3();
    SearchStep(s, 3, OverFive);
    TwelveOverFiveAt4();
    SearchStep(s, 4, OverFive);
    SearchEnd(s, OverFive);
  }

  lemma TwelveOverTen()
    ensures SearchRating("12/10", 0, OverTen) == Some("12")
  {
    var s := "12/10";
    assert NumberEnd(s, 0) == Some(2);
    assert SpaceRun(s[2..]) == 0;
    assert SpaceRun(s[3..]) == 0;
    assert s[3..5] == "10";
    assert TailMatches(s, 2, OverTen);
    assert s[0..2] == "12";
    SearchHere(s, 0, OverTen, "12");
  }

  lemma TwelveText()
    ensures IntToString(12) == "12"
  {
  }

  lemma TwelveValue()
    ensures ParseDecimal("12") == Some(12.0)
  {
    TwelveText();
    ParseDecimalOfIntToString(12);
  }

  /** "12/10" is halved to 6.0 and then clamped to 5.0. */
  lemma TwelveTenths()
    ensures ExtractRatingFromText("12/10") == Some(5.0)
  {
    assert Lower("12/10") == "12/10";
    TwelveOverFive();
    TwelveOverTen();
    TwelveValue();
    TenthsRating("12/10", "12", 12.0);
  }

  // =====================================================================
  // "3/50"

  lemma ThreeOverFive()
    ensures SearchRating("3/50", 0, OverFive) == Some("3")
  {
    var s := "3/50";
    assert NumberEnd(s, 0) == Some(1);
    assert SpaceRun(s[1..]) == 0;
    assert SpaceRun(s[2..]) == 0;
    assert s[2..3] == "5";
    assert TailMatches(s, 1, OverFive);
    assert s[0..1] == "3";
    SearchHere(s, 0, OverFive, "3");
  }

  lemma ThreeValue()
    ensures ParseDecimal("3") == Some(3.0)
  {
    ParseDecimalOfIntToString(3);
  }

  /** The "/5" pattern has no boundary after the 5, so "3/50" reads as
    * 3 out of 5. */
  lemma ThreeFiftieths()
    ensures ExtractRatingFromText("3/50") == Some(3.0)
  {
    assert Lower("3/50") == "3/50";
    ThreeOverFive();
    ThreeValue();
    FifthsRating("3/50", "3", 3.0);
  }

  // =====================================================================
  // "<n>/10" for every natural number n

  /** A search that meets no match from i0 on finds nothing. */
  lemma {:induction false} SearchRatingNone(s: string, i0: nat, p: RatingPattern)
    requires i0 <= |s| && forall k :: i0 <= k <= |s| ==> RatingAt(s, k, p).None?
    ensures SearchRating(s, i0, p).None?
    decreases |s| - i0
  {
    if i0 < |s| {
      SearchRatingNone(s, i0 + 1, p);
    }
  }

  /** A run of digits followed by a non-digit is read whole. */
  lemma DigitRunOf(x: string, y: string)
    requires AllDigits(x) && (y == [] || !IsDigit(y[0]))
    ensures DigitRun(x + y) == |x|
  {
    assert forall i :: 0 <= i < |x| ==> (x + y)[i] == x[i];
    assert |x| < |x + y| ==> (x + y)[|x|] == y[0];
  }

  /** Digits and '/' are their own lower case. */
  lemma LowerTenths(d: string)
    requires AllDigits(d)
    ensures Lower(d + "/10") == d + "/10"
  {
    var s := d + "/10";
    forall i | 0 <= i < |s| ensures LowerChar(s[i]) == s[i] {
      if i < |d| {
        assert IsDigit(s[i]);
      }
    }
  }

  /** No index of "<digits>/10" starts a "/5" rating. */
  lemma TenthsNotOverFive(d: string, i: nat)
    requires d != [] && AllDigits(d) && i <= |d| + 3
    ensures RatingAt(d + "/10", i, OverFive).None?
  {
    var s := d + "/10";
    if i < |d| {
      assert s[i..] == d[i..] + "/10";
      DigitRunOf(d[i..], "/10");
      assert NumberEnd(s, i) == Some(|d|);
      OverFiveMissed(s, i, |d|);
    } else if i == |d| {
      assert s[i..][0] == '/';
    } else if i < |s| {
      DigitRunOf(s[i..], []);
      assert s[i..] + [] == s[i..];
      assert NumberEnd(s, i) == Some(|s|);
    }
  }

  /** The "/10" pattern captures the whole number at index 0. */
  lemma TenthsOverTen(d: string)
    requires d != [] && AllDigits(d)
    ensures SearchRating(d + "/10", 0, OverTen) == Some(d)
  {
    var s := d + "/10";
    assert s[0..] == s;
    DigitRunOf(d, "/10");
    assert NumberEnd(s, 0) == Some(|d|);
    assert s[|d|..][0] == '/' && s[|d| + 1..][0] == '1';
    assert s[|d| + 1..|d| + 3] == "10";
    assert TailMatches(s, |d|, OverTen);
    assert s[0..|d|] == d;
    SearchHere(s, 0, OverTen, d);
  }

  /** Patterns tried in order on "<digits>/10": the "/5" one misses
    * everywhere and the "/10" one captures the digits. */
  lemma TenthsPatterns(d: string, v: real)
    requires d != [] && AllDigits(d) && ParseDecimal(d) == Some(v)
    ensures RatingFromPatterns(d + "/10", RatingPatterns) == Some(Clamp(1.0, 5.0, v / 2.0))
  {
    var s := d + "/10";
    forall k | 0 <= k <= |s| ensures RatingAt(s, k, OverFive).None? {
      TenthsNotOverFive(d, k);
    }
    SearchRatingNone(s, 0, OverFive);
    TenthsOverTen(d);
    TenthsRating(s, d, v);
  }

  /** "<digits>/10" is read as the digits' value out of ten. */
  lemma TenthsText(d: string, v: real)
    requires d != [] && AllDigits(d) && ParseDecimal(d) == Some(v)
    ensures ExtractRatingFromText(d + "/10") == Some(Clamp(1.0, 5.0, v / 2.0))
  {
    LowerTenths(d);
    LoweredRating(d + "/10");
    TenthsPatterns(d, v);
  }

  /** "<n>/10" is read as n out of ten: half of n, clamped to [1, 5]. */
  lemma TenthsRatingOf(n: nat)
    ensures ExtractRatingFromText(IntToString(n) + "/10") == Some(Clamp(1.0, 5.0, n as real / 2.0))
  {
    NatDigits(n);
    ParseDecimalOfIntToString(n);
    TenthsText(IntToString(n), n as real);
  }

  /** str() of a natural number is a non-empty run of digits. */
  lemma NatDigits(n: nat)
    ensures IntToString(n) != [] && AllDigits(IntToString(n))
  {
    assert IntToString(n) == NatToString(n);
  }

  /** A text that is its own lower case is matched as it stands. */
  lemma LoweredRating(s: string)
    requires s != [] && Lower(s) == s
    ensures ExtractRatingFromText(s) == RatingFromPatterns(s, RatingPatterns)
  {
  }
}
