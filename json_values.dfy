// The Python values that travel through the pipeline as parsed JSON (the
// language model's replies, the JSON columns of the database), together
// with the three pieces of Python semantics the code applies to them:
// truthiness, float() and int() on text.
module JsonValues {
  import opened Wrappers
  import opened Strings

  /** A decoded JSON value as Python holds it: int and float stay distinct. */
  datatype Json =
    | JNull
    | JBool(b: bool)
    | JInt(i: int)
    | JReal(r: real)
    | JStr(s: string)
    | JArr(items: seq<Json>)
    | JObj(fields: map<string, Json>)

  /** Python truthiness (`if value:`). */
  predicate Truthy(j: Json)
  {
    match j
    case JNull => false
    case JBool(b) => b
    case JInt(i) => i != 0
    case JReal(r) => r != 0.0
    case JStr(s) => s != []
    case JArr(a) => a != []
    case JObj(m) => m != map[]
  }

  /** dict.get(key, default). */
  function Get(m: map<string, Json>, key: string, dflt: Json): (r: Json)
    ensures key !in m ==> r == dflt
    ensures key in m ==> r == m[key]
  {
    if key in m then m[key] else dflt
  }

  /** Python's `a or b` on two JSON values. */
  function Or(a: Json, b: Json): (r: Json)
    ensures Truthy(a) ==> r == a
    ensures !Truthy(a) ==> r == b
  {
    if Truthy(a) then a else b
  }

  /** isinstance(x, (int, float)): bool is a subclass of int. */
  predicate IsNumber(j: Json)
  {
    j.JBool? || j.JInt? || j.JReal?
  }

  /** The numeric value of an int, bool or float. */
  function NumValue(j: Json): real
    requires IsNumber(j)
  {
    match j
    case JBool(b) => if b then 1.0 else 0.0
    case JInt(i) => i as real
    case JReal(r) => r
  }

  // ---------------------------------------------------------------------
  // Decimal text

  function DigitValue(c: char): (d: nat)
    requires IsDigit(c)
    ensures d < 10
  {
    c as int - '0' as int
  }

  function DigitChar(d: nat): (c: char)
    requires d < 10
    ensures IsDigit(c) && DigitValue(c) == d
  {
    ('0' as int + d) as char
  }

  predicate AllDigits(s: string)
  {
    forall i :: 0 <= i < |s| ==> IsDigit(s[i])
  }

  /** The value of a run of decimal digits, most significant first. */
  function DigitsValue(s: string): nat
    requires AllDigits(s)
  {
    if s == [] then 0 else DigitsValue(s[..|s| - 1]) * 10 + DigitValue(s[|s| - 1])
  }

  /** Decimal text of a natural number, without leading zeros. */
  function NatToString(n: nat): (s: string)
    ensures s != [] && AllDigits(s)
  {
    if n < 10 then [DigitChar(n)] else NatToString(n / 10) + [DigitChar(n % 10)]
  }

  /** Python's str() of an int. */
  function IntToString(n: int): string
  {
    if n < 0 then "-" + NatToString(-n) else NatToString(n)
  }

  lemma {:induction false} DigitsOfNat(n: nat)
    ensures DigitsValue(NatToString(n)) == n
  {
    var s := NatToString(n);
    if n >= 10 {
      DigitsOfNat(n / 10);
      assert s[..|s| - 1] == NatToString(n / 10);
    }
  }

  /** The digit groups Python's int() accepts: digits, single '_' between digits. */
  predicate UnderscoredDigits(s: string)
  {
    s != [] && IsDigit(s[0]) && IsDigit(s[|s| - 1])
    && (forall i :: 0 <= i < |s| ==> IsDigit(s[i]) || s[i] == '_')
    && NoDoubleUnderscore(s)
  }

  /** No '_' is immediately followed by another '_'. */
  predicate NoDoubleUnderscore(s: string)
  {
    |s| < 2 || (!(s[0] == '_' && s[1] == '_') && NoDoubleUnderscore(s[1..]))
  }

  lemma {:induction false} DigitsNoDoubleUnderscore(s: string)
    requires AllDigits(s)
    ensures NoDoubleUnderscore(s)
  {
    if |s| >= 2 {
      DigitsNoDoubleUnderscore(s[1..]);
    }
  }

  function DropUnderscores(s: string): (r: string)
    requires forall i :: 0 <= i < |s| ==> IsDigit(s[i]) || s[i] == '_'
    ensures AllDigits(r)
  {
    if s == [] then []
    else if s[0] == '_' then DropUnderscores(s[1..])
    else [s[0]] + DropUnderscores(s[1..])
  }

  lemma {:induction false} DropUnderscoresOfDigits(s: string)
    requires AllDigits(s)
    ensures DropUnderscores(s) == s
  {
    if s != [] {
      DropUnderscoresOfDigits(s[1..]);
    }
  }

  /** Python's int() applied to a str: surrounding whitespace, one sign,
    * digits with single underscores; anything else raises ValueError (None). */
  function ParseInt(s: string): Option<int>
  {
    ParseSignedInt(Strip(s))
  }

  /** int() of a text whose surrounding whitespace is already gone. */
  function ParseSignedInt(t: string): Option<int>
  {
    if t == [] then None
    else
      var neg := t[0] == '-';
      var body := if t[0] == '+' || t[0] == '-' then t[1..] else t;
      if UnderscoredDigits(body) then
        var v: int := DigitsValue(DropUnderscores(body));
        Some(if neg then -v else v)
      else None
  }

  /** int() reads back what str() writes: the partner of IntToString. */
  lemma ParseIntOfIntToString(n: int)
    ensures ParseInt(IntToString(n)) == Some(n)
  {
    var m: nat := if n < 0 then -n else n;
    var d := NatToString(m);
    DigitsOfNat(m);
    SignedDigitsStripped(IntToString(n), d);
    if n < 0 {
      ParseSignedIntOfDigits("-" + d, d);
    } else {
      ParseUnsignedIntOfDigits(d);
    }
  }

  lemma ParseUnsignedIntOfDigits(d: string)
    requires AllDigits(d) && d != []
    ensures ParseSignedInt(d) == Some(DigitsValue(d))
  {
    DropUnderscoresOfDigits(d);
    DigitsNoDoubleUnderscore(d);
    assert d[0] != '-' && d[0] != '+';
  }

  lemma ParseSignedIntOfDigits(s: string, d: string)
    requires AllDigits(d) && d != [] && s == "-" + d
    ensures ParseSignedInt(s) == Some(-(DigitsValue(d) as int))
  {
    DropUnderscoresOfDigits(d);
    DigitsNoDoubleUnderscore(d);
    assert s[0] == '-' && s[1..] == d;
  }

  /** Python's float() applied to a str, for the plain decimal forms
    * (sign, digits, an optional point and fraction). */
  function ParseDecimal(s: string): Option<real>
  {
    ParseSignedDecimal(Strip(s))
  }

  /** float() of a text whose surrounding whitespace is already gone. */
  function ParseSignedDecimal(t: string): Option<real>
  {
    if t == [] then None
    else if t[0] == '-' then
      match ParseUnsigned(t[1..])
      case Some(v) => Some(-v)
      case None => None
    else if t[0] == '+' then ParseUnsigned(t[1..])
    else ParseUnsigned(t)
  }

  /** Digits, an optional point and fraction, with at least one digit. */
  function ParseUnsigned(body: string): Option<real>
  {
    var dot := DotIndex(body);
    var ip := body[..dot];
    var fp := if dot < |body| then body[dot + 1..] else [];
    if AllDigits(ip) && AllDigits(fp) && (ip != [] || fp != []) then
      Some(DigitsValue(ip) as real + Fraction(fp))
    else None
  }

  /** The value of the digits after the point. */
  function Fraction(fp: string): real
    requires AllDigits(fp)
  {
    if fp == [] then 0.0 else DigitsValue(fp) as real / Pow10(|fp|) as real
  }

  /** Index of the first '.', or |s| when there is none. */
  function DotIndex(s: string): (k: nat)
    ensures k <= |s|
    ensures k < |s| ==> s[k] == '.'
    ensures forall i :: 0 <= i < k ==> s[i] != '.'
  {
    if s == [] then 0 else if s[0] == '.' then 0 else 1 + DotIndex(s[1..])
  }

  function Pow10(n: nat): (p: nat)
    ensures p >= 1
  {
    if n == 0 then 1 else 10 * Pow10(n - 1)
  }

  /** Python's float(x) for the values JSON can hold; None stands for the
    * TypeError or ValueError it raises. */
  function ToFloat(j: Json): (r: Option<real>)
    ensures IsNumber(j) ==> r == Some(NumValue(j))
    ensures (j.JNull? || j.JArr? || j.JObj?) ==> r.None?
  {
    match j
    case JBool(b) => Some(if b then 1.0 else 0.0)
    case JInt(i) => Some(i as real)
    case JReal(x) => Some(x)
    case JStr(s) => ParseDecimal(s)
    case _ => None
  }

  /** float() on the text of an integer gives that integer. */
  lemma ParseDecimalOfIntToString(n: int)
    ensures ParseDecimal(IntToString(n)) == Some(n as real)
  {
    var m: nat := if n < 0 then -n else n;
    var d := NatToString(m);
    DigitsOfNat(m);
    NoDotInDigits(d);
    SignedDigitsStripped(IntToString(n), d);
    ParseUnsignedDigits(d);
    if n < 0 {
      NegativeDecimal("-" + d, d);
    } else {
      assert d[0] != '-' && d[0] != '+';
    }
  }

  lemma NegativeDecimal(s: string, d: string)
    requires d != [] && s == "-" + d
    ensures ParseSignedDecimal(s) == match ParseUnsigned(d) case Some(v) => Some(-v) case None => None
  {
    assert s[0] == '-' && s[1..] == d;
  }

  lemma SignedDigitsStripped(s: string, d: string)
    requires AllDigits(d) && d != [] && (s == "-" + d || s == d)
    ensures Strip(s) == s
  {
    assert IsDigit(d[0]) && IsDigit(d[|d| - 1]);
    assert s[|s| - 1] == d[|d| - 1];
    assert Stripped(s);
    StripIdempotent(s);
  }

  lemma ParseUnsignedDigits(d: string)
    requires AllDigits(d) && d != [] && DotIndex(d) == |d|
    ensures ParseUnsigned(d) == Some(DigitsValue(d) as real)
  {
    assert d[..|d|] == d;
  }

  lemma {:induction false} NoDotInDigits(s: string)
    requires AllDigits(s)
    ensures DotIndex(s) == |s|
  {
    if s != [] {
      NoDotInDigits(s[1..]);
    }
  }
}
