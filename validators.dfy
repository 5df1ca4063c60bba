// The input validators of utils/validators.py: professor names, course
// codes, ratings, the arguments of /compare, Telegram ids, free-text
// sanitising and semester strings.
module Validators {
  import opened Wrappers
  import opened Strings
  import opened JsonValues
  import opened TextProcessing

  /** A validator's answer: (True, None) or (False, message). */
  datatype Verdict = Valid | Invalid(message: string)

  // =====================================================================
  // validate_professor_name

  /** sum(1 for c in name if c.isalpha()). */
  function CountAlpha(s: string): (n: nat)
    ensures n <= |s|
  {
    if s == [] then 0 else (if IsAlpha(s[0]) then 1 else 0) + CountAlpha(s[1..])
  }

  /** A name is accepted exactly when it has 2 to 100 characters of which at
    * least two are letters; each rejection carries its own message. */
  function ValidateProfessorName(name: string): (v: Verdict)
    ensures v.Valid? <==> 2 <= |name| <= 100 && CountAlpha(name) >= 2
    ensures v == Invalid("Professor name is required") <==> name == []
  {
    if name == [] then Invalid("Professor name is required")
    else if |name| < 2 then Invalid("Professor name is too short")
    else if |name| > 100 then Invalid("Professor name is too long")
    else if CountAlpha(name) < 2 then Invalid("Professor name must contain letters")
    else Valid
  }

  // =====================================================================
  // validate_course_code

  /** s.replace(' ', ''). */
  function RemoveBlanks(s: string): (r: string)
    ensures forall k :: 0 <= k < |r| ==> r[k] != ' '
    ensures |r| == |s| - CountChar(s, ' ')
  {
    if s == [] then []
    else (if s[0] == ' ' then [] else [s[0]]) + RemoveBlanks(s[1..])
  }

  lemma {:induction false} RemoveBlanksAppend(a: string, b: string)
    ensures RemoveBlanks(a + b) == RemoveBlanks(a) + RemoveBlanks(b)
  {
    if a == [] {
      assert a + b == b;
    } else {
      assert (a + b)[1..] == a[1..] + b;
      RemoveBlanksAppend(a[1..], b);
    }
  }

  lemma {:induction false} RemoveBlanksNone(s: string)
    requires forall k :: 0 <= k < |s| ==> s[k] != ' '
    ensures RemoveBlanks(s) == s
  {
    if s != [] {
      RemoveBlanksNone(s[1..]);
    }
  }

  /** `$` in a pattern without MULTILINE: the end, or just before a final newline. */
  predicate AtEnd(s: string, i: nat)
  {
    i == |s| || (i + 1 == |s| && s[i] == '\n')
  }

  /** re.match(r'^[A-Z]{2,4}\d{3,4}$', c). Both groups must be whole runs:
    * a shorter letter group leaves a capital where a digit is needed, and a
    * shorter digit group leaves a digit where the end is needed. */
  predicate CompactCode(c: string)
  {
    var l := CapitalsRun(c);
    2 <= l <= 4 && 3 <= DigitRun(c[l..]) <= 4 && AtEnd(c, l + DigitRun(c[l..]))
  }

  /** c is n capitals, then digits up to index e, then the end. */
  predicate CodeSplit(c: string, n: nat, e: nat)
  {
    2 <= n <= 4 && n + 3 <= e <= n + 4 && e <= |c| && AtEnd(c, e)
    && (forall k :: 0 <= k < n ==> IsAsciiUpper(c[k]))
    && (forall k :: n <= k < e ==> IsDigit(c[k]))
  }

  /** The language of the pattern, stated without the scan. */
  ghost predicate CompactCodeForm(c: string)
  {
    exists n: nat, e: nat :: CodeSplit(c, n, e)
  }

  /** The scan accepts exactly the strings of the pattern's language. */
  lemma CompactCodeMeaning(c: string)
    ensures CompactCode(c) <==> CompactCodeForm(c)
  {
    if CompactCodeForm(c) {
      var n: nat, e: nat :| CodeSplit(c, n, e);
      CompactCodeComplete(c, n, e);
    }
    if CompactCode(c) {
      CompactCodeSound(c);
    }
  }

  lemma CompactCodeComplete(c: string, n: nat, e: nat)
    requires CodeSplit(c, n, e)
    ensures CompactCode(c)
  {
    assert CapitalsRun(c) == n by {
      assert IsDigit(c[n]);
    }
    var d := DigitRun(c[n..]);
    assert d == e - n by {
      assert forall k :: 0 <= k < e - n ==> IsDigit(c[n..][k]);
      assert e < |c| ==> !IsDigit(c[n..][e - n]);
    }
  }

  lemma CompactCodeSound(c: string)
    requires CompactCode(c)
    ensures CodeSplit(c, CapitalsRun(c), CapitalsRun(c) + DigitRun(c[CapitalsRun(c)..]))
  {
    var l := CapitalsRun(c);
    var e := l + DigitRun(c[l..]);
    assert forall k :: l <= k < e ==> IsDigit(c[k]) by {
      assert forall k :: l <= k < e ==> c[k] == c[l..][k - l];
    }
  }

  /** A code is accepted when, with its blanks removed and upper-cased, it is
    * 2-4 ASCII capitals followed by 3-4 digits (a final newline is tolerated). */
  function ValidateCourseCode(code: string): (v: Verdict)
    ensures code == [] ==> v == Invalid("Course code is required")
    ensures v.Valid? <==> code != [] && CompactCodeForm(Upper(RemoveBlanks(code)))
  {
    CompactCodeMeaning(Upper(RemoveBlanks(code)));
    if code == [] then Invalid("Course code is required")
    else if !CompactCode(Upper(RemoveBlanks(code))) then
      Invalid("Course code should be in format like 'COSC1570' or 'MATH201'")
    else Valid
  }

  /** Every course code extract_course_code finds is accepted by validate_course_code. */
  lemma ExtractedCodeIsValid(text: string)
    requires ExtractCourseCode(text).Some?
    ensures ValidateCourseCode(ExtractCourseCode(text).value).Valid?
  {
    var c := ExtractCourseCode(text).value;
    var n :| 2 <= n <= 4 && n < |c| && c[n] == ' ' && 3 <= |c| - n - 1 <= 4
      && (forall k :: 0 <= k < n ==> IsAsciiUpper(c[k]))
      && (forall k :: n < k < |c| ==> IsDigit(c[k]));
    var compact := ShapeWithoutBlank(c, n);
    UpperOfCode(compact);
    assert CodeSplit(compact, n, |compact|);
  }

  /** Removing the blank of a shaped code leaves capitals then digits. */
  lemma ShapeWithoutBlank(c: string, n: nat) returns (compact: string)
    requires 2 <= n <= 4 && n < |c| && c[n] == ' ' && 3 <= |c| - n - 1 <= 4
    requires forall k :: 0 <= k < n ==> IsAsciiUpper(c[k])
    requires forall k :: n < k < |c| ==> IsDigit(c[k])
    ensures compact == RemoveBlanks(c) && |compact| == |c| - 1
    ensures forall k :: 0 <= k < n ==> IsAsciiUpper(compact[k])
    ensures forall k :: n <= k < |compact| ==> IsDigit(compact[k])
  {
    var left, right := c[..n], c[n + 1..];
    assert c == left + " " + right;
    RemoveOneBlank(left, right);
    RemoveBlanksNone(left);
    RemoveBlanksNone(right);
    compact := left + right;
    assert forall k :: 0 <= k < n ==> compact[k] == c[k];
    assert forall k :: n <= k < |compact| ==> compact[k] == c[k + 1];
  }

  lemma RemoveOneBlank(left: string, right: string)
    ensures RemoveBlanks(left + " " + right) == RemoveBlanks(left) + RemoveBlanks(right)
  {
    var blank := " ";
    assert RemoveBlanks(blank) == [] by {
      assert blank[0] == ' ' && blank[1..] == [];
    }
    RemoveBlanksAppend(left + blank, right);
    RemoveBlanksAppend(left, blank);
    assert RemoveBlanks(left) + [] == RemoveBlanks(left);
  }

  lemma UpperOfCode(s: string)
    requires forall k :: 0 <= k < |s| ==> IsAsciiUpper(s[k]) || IsDigit(s[k])
    ensures Upper(s) == s
  {
  }

  // =====================================================================
  // validate_rating

  /** A rating is accepted when it is an int, bool or float between 1 and 5. */
  function ValidateRating(rating: Json): (v: Verdict)
    ensures rating.JNull? <==> v == Invalid("Rating is required")
    ensures v.Valid? <==> IsNumber(rating) && 1.0 <= NumValue(rating) <= 5.0
  {
    if rating.JNull? then Invalid("Rating is required")
    else if !IsNumber(rating) then Invalid("Rating must be a number")
    else if NumValue(rating) < 1.0 || NumValue(rating) > 5.0 then Invalid("Rating must be between 1 and 5")
    else Valid
  }

  // =====================================================================
  // validate_compare_args

  /** The separators, tried in this order; the fourth is the Russian "и". */
  const CompareSeparators: seq<string> := [" vs ", " vs. ", " versus ", " \U{438} ", " va "]

  const NoArgumentsMessage := "Please provide two professor names: /compare Prof A vs Prof B"
  const UseFormatMessage := "Use format: /compare Professor A vs Professor B"
  const FirstNamePrefix := "First professor name: "
  const SecondNamePrefix := "Second professor name: "

  /** One pattern character against one text character under re.IGNORECASE:
    * '.' is any character but a newline, letters compare after lower-casing. */
  predicate PatternCharMatches(p: char, c: char)
  {
    if p == '.' then c != '\n' else LowerChar(c) == LowerChar(p)
  }

  /** The separator, read as a regular expression, matches at index i. */
  predicate PatternAt(s: string, pat: string, i: nat)
  {
    i + |pat| <= |s| && forall k :: 0 <= k < |pat| ==> PatternCharMatches(pat[k], s[i + k])
  }

  /** Where re.split finds the separator: leftmost matches, without overlap. */
  function MatchStarts(s: string, pat: string, i: nat): (ms: seq<nat>)
    requires pat != [] && i <= |s|
    ensures forall k :: 0 <= k < |ms| ==> i <= ms[k] && PatternAt(s, pat, ms[k])
    decreases |s| - i
  {
    if i + |pat| > |s| then []
    else if PatternAt(s, pat, i) then [i] + MatchStarts(s, pat, i + |pat|)
    else MatchStarts(s, pat, i + 1)
  }

  /** Where the text is split by one separator: the start of its only match,
    * when the separator occurs in the lower-cased text and the regular
    * expression matches exactly once (re.split gives exactly two parts). */
  function SplitPoint(full: string, sep: string): (m: Option<nat>)
    requires sep != []
    ensures m.Some? ==> MatchStarts(full, sep, 0) == [m.value] && m.value + |sep| <= |full|
  {
    var ms := MatchStarts(full, sep, 0);
    if Contains(Lower(full), sep) && |ms| == 1 then
      assert PatternAt(full, sep, ms[0]);
      Some(ms[0])
    else None
  }

  /** Both names must pass validate_professor_name, the first one first. */
  function CompareNames(a: string, b: string): (r: Result<(string, string), string>)
    ensures r.Ok? <==> ValidateProfessorName(a).Valid? && ValidateProfessorName(b).Valid?
    ensures r.Ok? ==> r.value == (a, b)
  {
    match ValidateProfessorName(a)
    case Invalid(e) => Err(FirstNamePrefix + e)
    case Valid =>
      match ValidateProfessorName(b)
      case Invalid(e) => Err(SecondNamePrefix + e)
      case Valid => Ok((a, b))
  }

  /** The separator loop: the first separator that splits the text into
    * exactly two parts decides the answer; the others are not tried. */
  function CompareWith(full: string, seps: seq<string>): (r: Result<(string, string), string>)
    requires forall sep :: sep in seps ==> sep != []
    ensures r.Ok? ==> ValidateProfessorName(r.value.0).Valid? && ValidateProfessorName(r.value.1).Valid?
    ensures r.Ok? ==> Stripped(r.value.0) && Stripped(r.value.1)
    decreases |seps|
  {
    if seps == [] then Err(UseFormatMessage)
    else
      var sep := seps[0];
      assert sep in seps;
      match SplitPoint(full, sep)
      case Some(m) =>
        StrippedStrip(full[..m]);
        StrippedStrip(full[m + |sep|..]);
        CompareNames(Strip(full[..m]), Strip(full[m + |sep|..]))
      case None =>
        assert forall s :: s in seps[1..] ==> s in seps;
        CompareWith(full, seps[1..])
  }

  /** validate_compare_args: the arguments are joined with blanks and split
    * at the first separator that yields exactly two parts; both must be valid names. */
  function ValidateCompareArgs(args: seq<string>): (r: Result<(string, string), string>)
    ensures args == [] ==> r == Err(NoArgumentsMessage)
    ensures r.Ok? ==> ValidateProfessorName(r.value.0).Valid? && ValidateProfessorName(r.value.1).Valid?
    ensures r.Ok? ==> Stripped(r.value.0) && Stripped(r.value.1)
  {
    if args == [] then Err(NoArgumentsMessage)
    else CompareWith(Join(" ", args), CompareSeparators)
  }

  /** When the first separator splits the text at m, the answer is decided by
    * the two stripped sides of that split and no later separator is tried. */
  lemma CompareWithFirst(full: string, seps: seq<string>, k: nat)
    requires forall sep :: sep in seps ==> sep != []
    requires seps != [] && seps[0] != [] && SplitPoint(full, seps[0]) == Some(k)
    ensures CompareWith(full, seps) == CompareNames(Strip(full[..k]), Strip(full[k + |seps[0]|..]))
  {
  }

  /** Two one-word names typed around " vs " come back unchanged. */
  lemma CompareRoundTrip(a: string, b: string)
    requires ValidateProfessorName(a).Valid? && ValidateProfessorName(b).Valid?
    requires forall k :: 0 <= k < |a| ==> !IsSpace(a[k])
    requires forall k :: 0 <= k < |b| ==> !IsSpace(b[k])
    ensures ValidateCompareArgs([a + " vs " + b]) == Ok((a, b))
  {
    var full := a + " vs " + b;
    assert Join(" ", [full]) == full;
    SeparatorFound(a, b, full);
    OnlyMatch(a, b, full);
    assert full[..|a|] == a;
    assert full[|a| + 4..] == b;
    StripIdempotent(a);
    StripIdempotent(b);
    assert SplitPoint(full, " vs ") == Some(|a|);
    assert CompareSeparators[0] == " vs ";
  }

  lemma SeparatorFound(a: string, b: string, full: string)
    requires full == a + " vs " + b
    ensures PatternAt(full, " vs ", |a|)
    ensures Contains(Lower(full), " vs ")
  {
    assert full[|a|..|a| + 4] == " vs ";
    assert Lower(full)[|a|..|a| + 4] == " vs ";
    assert OccursAt(Lower(full), " vs ", |a|);
  }

  lemma OnlyMatch(a: string, b: string, full: string)
    requires forall k :: 0 <= k < |a| ==> !IsSpace(a[k])
    requires forall k :: 0 <= k < |b| ==> !IsSpace(b[k])
    requires full == a + " vs " + b && PatternAt(full, " vs ", |a|)
    ensures MatchStarts(full, " vs ", 0) == [|a|]
  {
    assert " vs "[0] == ' ';
    assert IsSpace(' ');
    assert forall k :: 0 <= k < |a| ==> full[k] == a[k];
    assert forall k :: |a| + 4 <= k < |full| ==> full[k] == b[k - |a| - 4];
    NoMatchBefore(full, " vs ", |a|, 0);
    NoMatchFrom(full, " vs ", |a| + 4);
  }

  lemma LowerBlank(c: char)
    ensures LowerChar(c) == ' ' ==> c == ' '
  {
  }

  /** A pattern starting with a blank matches nowhere before m when no blank occurs there. */
  lemma {:induction false} NoMatchBefore(full: string, pat: string, m: nat, i: nat)
    requires pat != [] && pat[0] == ' '
    requires i <= m && m + |pat| <= |full| && PatternAt(full, pat, m)
    requires forall k :: i <= k < m ==> full[k] != ' '
    ensures MatchStarts(full, pat, i) == [m] + MatchStarts(full, pat, m + |pat|)
    decreases m - i
  {
    if i < m {
      SkipNonBlank(full, pat, i);
      NoMatchBefore(full, pat, m, i + 1);
    } else {
      MatchHere(full, pat, m);
    }
  }

  lemma MatchHere(full: string, pat: string, m: nat)
    requires pat != [] && m + |pat| <= |full| && PatternAt(full, pat, m)
    ensures MatchStarts(full, pat, m) == [m] + MatchStarts(full, pat, m + |pat|)
  {
  }

  lemma SkipNonBlank(full: string, pat: string, i: nat)
    requires pat != [] && pat[0] == ' '
    requires i + |pat| <= |full| && full[i] != ' '
    ensures MatchStarts(full, pat, i) == MatchStarts(full, pat, i + 1)
  {
    NotBlankNoMatch(full, pat, i);
  }

  lemma NotBlankNoMatch(full: string, pat: string, i: nat)
    requires pat != [] && pat[0] == ' '
    requires i < |full| && full[i] != ' '
    ensures !PatternAt(full, pat, i)
  {
    LowerBlank(full[i]);
    assert !PatternCharMatches(pat[0], full[i]);
  }

  lemma {:induction false} NoMatchFrom(full: string, pat: string, i: nat)
    requires pat != [] && pat[0] == ' '
    requires i <= |full|
    requires forall k :: i <= k < |full| ==> full[k] != ' '
    ensures MatchStarts(full, pat, i) == []
    decreases |full| - i
  {
    if i + |pat| <= |full| {
      NotBlankNoMatch(full, pat, i);
      NoMatchFrom(full, pat, i + 1);
    }
  }

  // =====================================================================
  // validate_telegram_user_id / validate_group_id

  /** isinstance(x, int): bool is a subclass of int. */
  predicate IsPyInt(j: Json)
  {
    j.JInt? || j.JBool?
  }

  function PyIntValue(j: Json): int
    requires IsPyInt(j)
  {
    if j.JBool? then (if j.b then 1 else 0) else j.i
  }

  function ValidateTelegramUserId(userId: Json): (ok: bool)
    ensures ok <==> IsPyInt(userId) && PyIntValue(userId) > 0
  {
    match userId
    case JInt(i) => i > 0
    case JBool(b) => b
    case _ => false
  }

  function ValidateGroupId(groupId: Json): (ok: bool)
    ensures ok <==> IsPyInt(groupId) && PyIntValue(groupId) != 0
  {
    match groupId
    case JInt(i) => i != 0
    case JBool(b) => b
    case _ => false
  }

  // =====================================================================
  // sanitize_input

  /** Python's str.isprintable() for one character: control (Cc) and
    * format (Cf) characters, private-use characters of all three private
    * areas and every separator except the blank are not printable, as
    * the Unicode 14 tables (Python 3.11) have them. Unassigned code points
    * are not modelled. */
  predicate IsPrintable(c: char)
  {
    !(c < ' ' || ('\U{7F}' <= c <= '\U{9F}'))
    && !(IsSpace(c) && c != ' ')
    && !(c == '\U{AD}' || ('\U{600}' <= c <= '\U{605}') || c == '\U{61C}' || c == '\U{6DD}'
         || c == '\U{70F}' || c == '\U{890}' || c == '\U{891}' || c == '\U{8E2}' || c == '\U{180E}'
         || ('\U{200B}' <= c <= '\U{200F}') || ('\U{202A}' <= c <= '\U{202E}')
         || ('\U{2060}' <= c <= '\U{2064}') || ('\U{2066}' <= c <= '\U{206F}')
         || c == '\U{FEFF}' || ('\U{FFF9}' <= c <= '\U{FFFB}')
         || c == '\U{110BD}' || c == '\U{110CD}' || ('\U{13430}' <= c <= '\U{13438}')
         || ('\U{1BCA0}' <= c <= '\U{1BCA3}') || ('\U{1D173}' <= c <= '\U{1D17A}')
         || c == '\U{E0001}' || ('\U{E0020}' <= c <= '\U{E007F}'))
    && !('\U{E000}' <= c <= '\U{F8FF}') && !('\U{F0000}' <= c <= '\U{FFFFD}')
    && !('\U{100000}' <= c <= '\U{10FFFD}')
  }

  /** ''.join(c for c in text if c.isprintable() or c in '\n\t'). */
  function KeepPrintable(s: string): (r: string)
    ensures |r| <= |s|
    ensures forall k :: 0 <= k < |r| ==> IsPrintable(r[k]) || r[k] == '\n' || r[k] == '\t'
  {
    if s == [] then []
    else (if IsPrintable(s[0]) || s[0] == '\n' || s[0] == '\t' then [s[0]] else []) + KeepPrintable(s[1..])
  }

  lemma {:induction false} KeepPrintableAll(s: string)
    requires CharsIn(s, IsPrintable)
    ensures KeepPrintable(s) == s
  {
    if s != [] {
      assert IsPrintable(s[0]);
      KeepPrintableAll(s[1..]);
    }
  }

  /** sanitize_input: cut to max_length, drop unprintable characters, and
    * collapse whitespace to single blanks. The result is printable, has no
    * tab, newline, blank run or outer blank, and fits in max_length. */
  function SanitizeInput(text: string, maxLength: int): (r: string)
    ensures text == [] ==> r == []
    ensures Collapsed(r) && CharsIn(r, IsPrintable)
    ensures maxLength >= 0 ==> |r| <= maxLength
  {
    if text == [] then ""
    else
      var cut := PyPrefix(text, maxLength);
      assert maxLength >= 0 ==> |cut| <= maxLength;
      CleanCut(cut)
  }

  /** The steps after the cut: printable filter, whitespace collapse, strip. */
  function CleanCut(cut: string): (r: string)
    ensures Collapsed(r) && CharsIn(r, IsPrintable) && |r| <= |cut|
  {
    var kept := KeepPrintable(cut);
    CollapseChars(kept, IsPrintable);
    CollapseLength(kept);
    StripIdempotent(Collapse(kept));
    Strip(Collapse(kept))
  }

  /** A text that is already printable, collapsed and short enough is its
    * own sanitised form. */
  lemma SanitizeClean(t: string, maxLength: int)
    requires Collapsed(t) && CharsIn(t, IsPrintable) && |t| <= maxLength
    ensures SanitizeInput(t, maxLength) == t
  {
    if t != [] {
      assert PyPrefix(t, maxLength) == t;
      KeepPrintableAll(t);
      CollapseCollapsed(t);
      StripIdempotent(t);
      assert CleanCut(t) == t;
    }
  }

  /** Sanitising a sanitised text changes nothing. */
  lemma SanitizeIdempotent(text: string, maxLength: int)
    requires maxLength >= 0
    ensures SanitizeInput(SanitizeInput(text, maxLength), maxLength) == SanitizeInput(text, maxLength)
  {
    SanitizeClean(SanitizeInput(text, maxLength), maxLength);
  }

  // =====================================================================
  // is_valid_semester

  /** `\s*\d{4}$` from index i (the blank run and the digits cannot trade characters). */
  predicate YearAt(s: string, i: nat)
    requires i <= |s|
  {
    var j := i + SpaceRun(s[i..]);
    j + 4 <= |s| && AllDigits(s[j..j + 4]) && AtEnd(s, j + 4)
  }

  /** `^(fall|spring|summer|winter)\s*\d{4}$`: the four seasons start differently,
    * so at most one alternative can match. */
  predicate SeasonYear(s: string)
  {
    (StartsWith(s, "fall") && YearAt(s, 4)) || (StartsWith(s, "spring") && YearAt(s, 6))
    || (StartsWith(s, "summer") && YearAt(s, 6)) || (StartsWith(s, "winter") && YearAt(s, 6))
  }

  /** `^\d{4}\s*[-/]\s*\d{4}$`. */
  predicate YearRange(s: string)
  {
    |s| >= 4 && AllDigits(s[..4])
    && var j := 4 + SpaceRun(s[4..]);
    j < |s| && (s[j] == '-' || s[j] == '/') && YearAt(s, j + 1)
  }

  /** is_valid_semester: a season and a year, or a range of years, in any case. */
  function IsValidSemester(semester: string): (ok: bool)
    ensures semester == [] ==> !ok
    ensures ok ==> |semester| >= 8
  {
    var l := Lower(semester);
    semester != [] && (SeasonYear(l) || YearRange(l))
  }

  // ----- the same language, stated by shape

  const Seasons: seq<string> := ["fall", "spring", "summer", "winter"]

  /** `$`: the end of s, or just before a newline that ends s. */
  predicate YearEndsAt(s: string, i: nat, e: nat)
  {
    i + 4 <= e <= |s| && AtEnd(s, e) && AllSpace(s[i..e - 4]) && AllDigits(s[e - 4..e])
  }

  /** From index i: blanks, then four digits, then the end of the text. */
  predicate YearShape(s: string, i: nat)
  {
    YearEndsAt(s, i, |s|) || (|s| > 0 && YearEndsAt(s, i, |s| - 1))
  }

  /** A season word, blanks and a four-digit year. */
  predicate SeasonShape(l: string)
  {
    exists season :: season in Seasons && StartsWith(l, season) && YearShape(l, |season|)
  }

  /** Four digits, blanks, '-' or '/', blanks and four digits. */
  predicate RangeShape(l: string)
  {
    |l| >= 4 && AllDigits(l[..4])
    && exists j :: 4 <= j < |l| && AllSpace(l[4..j]) && (l[j] == '-' || l[j] == '/') && YearShape(l, j + 1)
  }

  /** A blank run followed by a non-blank character is exactly what SpaceRun counts. */
  lemma {:induction false} SpaceRunExact(t: string, k: nat)
    requires k < |t| && AllSpace(t[..k]) && !IsSpace(t[k])
    ensures SpaceRun(t) == k
  {
    if k > 0 {
      assert IsSpace(t[..k][0]);
      assert t[1..][..k - 1] == t[..k][1..];
      SpaceRunExact(t[1..], k - 1);
    }
  }

  lemma YearAtShape(s: string, i: nat)
    requires i <= |s|
    ensures YearAt(s, i) <==> YearShape(s, i)
  {
    var j := i + SpaceRun(s[i..]);
    if YearAt(s, i) {
      assert AllSpace(s[i..j]) by {
        forall k | 0 <= k < j - i ensures IsSpace(s[i..j][k]) {
          assert s[i..j][k] == s[i..][k];
        }
      }
      if j + 4 == |s| {
        assert YearEndsAt(s, i, |s|);
      } else {
        assert YearEndsAt(s, i, |s| - 1);
      }
    }
    if YearShape(s, i) {
      var e := if YearEndsAt(s, i, |s|) then |s| else |s| - 1;
      assert YearEndsAt(s, i, e);
      assert IsDigit(s[e - 4..e][0]);
      assert s[i..][..e - 4 - i] == s[i..e - 4];
      assert s[i..][e - 4 - i] == s[e - 4];
      SpaceRunExact(s[i..], e - 4 - i);
      assert j == e - 4;
    }
  }

  lemma OneSeason(l: string, season: string)
    ensures (StartsWith(l, season) && YearAt(l, |season|)) <==> (StartsWith(l, season) && YearShape(l, |season|))
  {
    if |season| <= |l| {
      YearAtShape(l, |season|);
    }
  }

  lemma SeasonYearShape(l: string)
    ensures SeasonYear(l) <==> SeasonShape(l)
  {
    OneSeason(l, "fall");
    OneSeason(l, "spring");
    OneSeason(l, "summer");
    OneSeason(l, "winter");
    if SeasonShape(l) {
      var season :| season in Seasons && StartsWith(l, season) && YearShape(l, |season|);
      assert season == "fall" || season == "spring" || season == "summer" || season == "winter";
    }
    if SeasonYear(l) {
      assert Seasons == ["fall", "spring", "summer", "winter"];
    }
  }

  /** The blanks SpaceRun skips after the first year form a blank run. */
  lemma SpaceRunBlanks(l: string, j: nat)
    requires 4 <= j <= |l| && j == 4 + SpaceRun(l[4..])
    ensures AllSpace(l[4..j])
  {
    forall k | 0 <= k < j - 4 ensures IsSpace(l[4..j][k]) {
      assert l[4..j][k] == l[4..][k];
    }
  }

  lemma RangeToShape(l: string)
    requires YearRange(l)
    ensures RangeShape(l)
  {
    var j := 4 + SpaceRun(l[4..]);
    YearAtShape(l, j + 1);
    SpaceRunBlanks(l, j);
  }

  lemma ShapeToRange(l: string)
    requires RangeShape(l)
    ensures YearRange(l)
  {
    var j :| 4 <= j < |l| && AllSpace(l[4..j]) && (l[j] == '-' || l[j] == '/') && YearShape(l, j + 1);
    assert l[4..][..j - 4] == l[4..j];
    assert l[4..][j - 4] == l[j];
    SpaceRunExact(l[4..], j - 4);
    YearAtShape(l, j + 1);
  }

  lemma YearRangeShape(l: string)
    ensures YearRange(l) <==> RangeShape(l)
  {
    if YearRange(l) {
      RangeToShape(l);
    }
    if RangeShape(l) {
      ShapeToRange(l);
    }
  }

  /** is_valid_semester accepts exactly the non-empty texts whose lower case
    * is a season and a year, or a range of years. */
  lemma SemesterShape(semester: string)
    ensures IsValidSemester(semester) <==>
      semester != [] && (SeasonShape(Lower(semester)) || RangeShape(Lower(semester)))
  {
    SeasonYearShape(Lower(semester));
    YearRangeShape(Lower(semester));
  }

  /** A season in any case, any blanks and a four-digit year make a valid
    * semester ("Fall 2023", "SPRING2024"). */
  lemma SeasonYearValid(season: string, blanks: string, year: string)
    requires Lower(season) in Seasons
    requires AllSpace(blanks) && |year| == 4 && AllDigits(year)
    ensures IsValidSemester(season + blanks + year)
  {
    var s := season + blanks + year;
    LowerAppend(season + blanks, year);
    LowerAppend(season, blanks);
    LowerSpaces(blanks);
    LowerDigits(year);
    var l := Lower(s);
    var n := |season|;
    assert l == Lower(season) + Lower(blanks) + year;
    assert l[..n] == Lower(season);
    assert l[n..|l| - 4] == Lower(blanks);
    assert l[|l| - 4..] == year;
    assert YearEndsAt(l, n, |l|);
    assert SeasonShape(l);
    SemesterShape(s);
  }

  /** Two four-digit years around '-' or '/', with any blanks on either
    * side, make a valid semester ("2023-2024", "2023 / 2024"). */
  lemma YearRangeValid(y1: string, b1: string, sep: char, b2: string, y2: string)
    requires |y1| == 4 && AllDigits(y1) && |y2| == 4 && AllDigits(y2)
    requires AllSpace(b1) && AllSpace(b2)
    requires sep == '-' || sep == '/'
    ensures IsValidSemester(y1 + b1 + [sep] + b2 + y2)
  {
    var s := y1 + b1 + [sep] + b2 + y2;
    LowerAppend(y1 + b1 + [sep] + b2, y2);
    LowerAppend(y1 + b1 + [sep], b2);
    LowerAppend(y1 + b1, [sep]);
    LowerAppend(y1, b1);
    LowerSpaces(b1);
    LowerSpaces(b2);
    LowerDigits(y1);
    LowerDigits(y2);
    var l := Lower(s);
    assert Lower([sep]) == [sep];
    assert l == y1 + Lower(b1) + [sep] + Lower(b2) + y2;
    var j := 4 + |b1|;
    assert l[..4] == y1;
    assert l[4..j] == Lower(b1);
    assert l[j] == sep;
    assert l[j + 1..|l| - 4] == Lower(b2);
    assert l[|l| - 4..] == y2;
    assert YearEndsAt(l, j + 1, |l|);
    assert RangeShape(l);
    SemesterShape(s);
  }

  /** Lower-casing leaves digits alone. */
  lemma LowerDigits(d: string)
    requires AllDigits(d)
    ensures Lower(d) == d
  {
  }

  /** The docstring's example: "Fall 2023". */
  lemma FallSemester()
    ensures IsValidSemester("Fall 2023")
  {
    assert Lower("Fall") == "fall";
    assert "Fall 2023" == "Fall" + " " + "2023";
    SeasonYearValid("Fall", " ", "2023");
  }
}
