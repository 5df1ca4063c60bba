// Pure text transforms of utils/text_processing.py: the professor name key,
// the message cleaner, and the small extractors (course code, rating,
// sentences, professor mention) and truncation.
//
// Each regular expression of the source is written out as the scan the
// regex engine performs on it; where greedy matching could backtrack, the
// comments say why the greedy choice is the only one that can succeed.
module TextProcessing {
  import opened Wrappers
  import opened Strings
  import opened JsonValues

  // =====================================================================
  // normalize_professor_name

  /** The Latin spelling of a basic Cyrillic letter (either case), if any. */
  function CyrillicLatin(c: char): Option<string>
  {
    var l := if ('\U{410}' <= c <= '\U{42F}') || c == '\U{401}' then LowerChar(c) else c;
    match l
    case 'а' => Some("a")    case 'б' => Some("b")    case 'в' => Some("v")
    case 'г' => Some("g")    case 'д' => Some("d")    case 'е' => Some("e")
    case 'ё' => Some("e")    case 'ж' => Some("zh")   case 'з' => Some("z")
    case 'и' => Some("i")    case 'й' => Some("i")    case 'к' => Some("k")
    case 'л' => Some("l")    case 'м' => Some("m")    case 'н' => Some("n")
    case 'о' => Some("o")    case 'п' => Some("p")    case 'р' => Some("r")
    case 'с' => Some("s")    case 'т' => Some("t")    case 'у' => Some("u")
    case 'ф' => Some("f")    case 'х' => Some("h")    case 'ц' => Some("ts")
    case 'ч' => Some("ch")   case 'ш' => Some("sh")   case 'щ' => Some("shch")
    case 'ъ' => Some("")     case 'ы' => Some("y")    case 'ь' => Some("")
    case 'э' => Some("e")    case 'ю' => Some("yu")   case 'я' => Some("ya")
    case _ => None
  }

  /** A letter of the basic Russian alphabet, upper or lower case. */
  predicate IsBasicCyrillic(c: char)
  {
    ('\U{410}' <= c <= '\U{44F}') || c == '\U{401}' || c == '\U{451}'
  }

  lemma CyrillicLatinAscii(c: char)
    ensures CyrillicLatin(c).Some? ==> CharsIn(CyrillicLatin(c).value, IsAsciiLower)
  {
  }

  lemma CyrillicLatinCovers(c: char)
    ensures CyrillicLatin(c).Some? <==> IsBasicCyrillic(c)
    ensures CyrillicLatin(c).Some? ==>
      forall i :: 0 <= i < |CyrillicLatin(c).value| ==> IsAsciiLower(CyrillicLatin(c).value[i])
  {
    CyrillicLatinAscii(c);
  }

  /** ''.join(cyrillic_map.get(ch, ch) for ch in name). */
  function Transliterate(s: string): (r: string)
    ensures forall i :: 0 <= i < |r| ==> !IsBasicCyrillic(r[i])
  {
    if s == [] then []
    else
      CyrillicLatinCovers(s[0]);
      var head := match CyrillicLatin(s[0]) case Some(t) => t case None => [s[0]];
      head + Transliterate(s[1..])
  }

  lemma {:induction false} TransliterateAppend(a: string, b: string)
    ensures Transliterate(a + b) == Transliterate(a) + Transliterate(b)
  {
    if a == [] {
      assert a + b == b;
    } else {
      assert (a + b)[1..] == a[1..] + b;
      TransliterateAppend(a[1..], b);
    }
  }

  predicate AllSpace(s: string)
  {
    forall i :: 0 <= i < |s| ==> IsSpace(s[i])
  }

  lemma {:induction false} TransliterateSpaces(s: string)
    requires AllSpace(s)
    ensures Transliterate(s) == s
  {
    if s != [] {
      CyrillicLatinCovers(s[0]);
      TransliterateSpaces(s[1..]);
    }
  }

  /** A title pattern `\b<literal>` + (`\.?` when `dot`) + `\s*`. */
  datatype Title = Title(literal: string, dot: bool)

  /** The title patterns, in the order they are removed. */
  const Titles: seq<Title> := [
    Title("dr", true), Title("prof", true), Title("professor", false),
    Title("mr", true), Title("mrs", true), Title("ms", true),
    Title("phd", true), Title("ph.d", true)
  ]

  /** Length of the whitespace run at the head of s (a greedy `\s*`). */
  function SpaceRun(s: string): (k: nat)
    ensures k <= |s|
    ensures forall i :: 0 <= i < k ==> IsSpace(s[i])
    ensures k == |s| || !IsSpace(s[k])
  {
    if s != [] && IsSpace(s[0]) then 1 + SpaceRun(s[1..]) else 0
  }

  /** `\b` before a word character at index i: the previous character is not a word character. */
  predicate WordStart(s: string, i: nat)
    requires i <= |s|
  {
    i == 0 || !IsWordChar(s[i - 1])
  }

  /** Where a match of the title pattern starting at index i ends, if it matches there. */
  function TitleMatchEnd(s: string, t: Title, i: nat): (e: Option<nat>)
    requires i <= |s|
    ensures e.Some? ==> i + |t.literal| <= e.value <= |s|
  {
    if WordStart(s, i) && OccursAt(s, t.literal, i) then
      var e0 := i + |t.literal|;
      var e1 := if t.dot && e0 < |s| && s[e0] == '.' then e0 + 1 else e0;
      Some(e1 + SpaceRun(s[e1..]))
    else None
  }

  /** re.sub(title, '', s): scan left to right, drop each match, resume after it.
    * Word boundaries are judged on the string being scanned (s), not on the output. */
  function RemoveTitle(s: string, t: Title, i: nat): (r: string)
    requires i <= |s| && t.literal != []
    ensures |r| <= |s| - i
    ensures (forall k :: i <= k < |s| ==> Lowered(s[k])) ==> AllLowered(r)
    decreases |s| - i
  {
    if i == |s| then []
    else
      match TitleMatchEnd(s, t, i)
      case Some(e) => RemoveTitle(s, t, e)
      case None => [s[i]] + RemoveTitle(s, t, i + 1)
  }

  /** The title loop: each pattern applied to the output of the previous one. */
  function RemoveTitles(s: string, ts: seq<Title>): (r: string)
    requires forall t :: t in ts ==> t.literal != []
    ensures AllLowered(s) ==> AllLowered(r)
    decreases |ts|
  {
    if ts == [] then s
    else
      var s1 := RemoveTitle(s, ts[0], 0);
      RemoveTitles(s1, ts[1..])
  }

  /** Index of the first occurrence of c in s, or |s|. */
  function IndexOf(s: string, c: char): (k: nat)
    ensures k <= |s|
    ensures k < |s| ==> s[k] == c
    ensures forall i :: 0 <= i < k ==> s[i] != c
  {
    if s == [] then 0 else if s[0] == c then 0 else 1 + IndexOf(s[1..], c)
  }

  /** re.sub(r'\([^)]*\)', '', s): an opening parenthesis with a closing one
    * somewhere after it is removed together with everything up to the first ')'. */
  function RemoveParenthetical(s: string): (r: string)
    ensures AllLowered(s) ==> AllLowered(r)
  {
    if s == [] then []
    else if s[0] == '(' && IndexOf(s[1..], ')') < |s| - 1 then
      RemoveParenthetical(s[IndexOf(s[1..], ')') + 2..])
    else
      [s[0]] + RemoveParenthetical(s[1..])
  }

  /** Characters kept by re.sub(r'[^\w\s\-]', '', s). */
  predicate IsNameChar(c: char)
  {
    IsWordChar(c) || IsSpace(c) || c == '-'
  }

  function KeepNameChars(s: string): (r: string)
    ensures AllLowered(s) ==> forall k :: 0 <= k < |r| ==> KeyChar(r[k]) || IsSpace(r[k])
  {
    if s == [] then []
    else (if IsNameChar(s[0]) then [s[0]] else []) + KeepNameChars(s[1..])
  }

  /** alias_map.get(part, part). */
  function Alias(w: string): string
  {
    if w == "javed" then "javad" else w
  }

  function AliasAll(ws: seq<string>): (r: seq<string>)
    ensures |r| == |ws|
    ensures forall k :: 0 <= k < |ws| ==> r[k] == Alias(ws[k])
  {
    if ws == [] then [] else [Alias(ws[0])] + AliasAll(ws[1..])
  }

  /** The "Last, First" branch: swap the two sides of the first comma. */
  function SwapAtComma(name: string): string
  {
    var k := IndexOf(name, ',');
    if k < |name| then Strip(name[k + 1..]) + " " + Strip(name[..k]) else name
  }

  /** The pipeline after the lower-case and strip step. */
  function NormalizeLowered(s: string): string
  {
    var noTitles := RemoveTitles(s, Titles);
    var noParens := RemoveParenthetical(noTitles);
    var kept := KeepNameChars(noParens);
    var collapsed := Collapse(kept);
    var aliased := Join(" ", AliasAll(Split(collapsed)));
    Strip(SwapAtComma(aliased))
  }

  /** The professor name key (normalize_professor_name). Unicode
    * compatibility decomposition is not modelled. */
  function NormalizeProfessorName(name: string): string
  {
    if name == [] then ""
    else NormalizeLowered(Strip(Lower(Transliterate(name))))
  }

  // ----- properties of the name key

  /** Characters a name key may contain. */
  predicate KeyChar(c: char)
  {
    (IsWordChar(c) || c == ' ' || c == '-') && !IsAsciiUpper(c) && !IsBasicCyrillic(c)
  }

  predicate NameKey(r: string)
  {
    Collapsed(r) && forall k :: 0 <= k < |r| ==> KeyChar(r[k])
  }

  /** Lower-case after the transliteration step: no ASCII capital and no basic Cyrillic letter. */
  predicate Lowered(c: char)
  {
    !IsAsciiUpper(c) && !IsBasicCyrillic(c)
  }

  predicate AllLowered(s: string)
  {
    forall k :: 0 <= k < |s| ==> Lowered(s[k])
  }

  predicate AllKeyChars(s: string)
  {
    CharsIn(s, KeyChar)
  }

  /** The aliased tokens are still tokens of key characters. */
  lemma AliasTokens(ws: seq<string>)
    requires forall w :: w in ws ==> Token(w) && AllKeyChars(w)
    ensures forall w :: w in AliasAll(ws) ==> Token(w) && AllKeyChars(w)
  {
    forall w | w in AliasAll(ws) ensures Token(w) && AllKeyChars(w) {
      var i :| 0 <= i < |ws| && AliasAll(ws)[i] == w;
      if ws[i] == "javed" {
        AliasKey();
      } else {
        assert ws[i] in ws;
      }
    }
  }

  lemma AliasKey()
    ensures Token("javad") && AllKeyChars("javad")
  {
    var w := "javad";
    forall k | 0 <= k < |w| ensures KeyChar(w[k]) && !IsSpace(w[k]) {
      assert IsAsciiLower(w[k]);
    }
  }

  /** The name key holds only lower-case word characters, single blanks and
    * hyphens, with no blank at either end and no basic Cyrillic letter. */
  lemma NormalizeShape(name: string)
    ensures NameKey(NormalizeProfessorName(name))
  {
    if name != [] {
      var s := Strip(Lower(Transliterate(name)));
      PreparedLowered(name);
      TitlesNonEmpty();
      var kept := KeepNameChars(RemoveParenthetical(RemoveTitles(s, Titles)));
      KeyFromKept(kept);
    }
  }

  lemma TitlesNonEmpty()
    ensures forall t :: t in Titles ==> t.literal != []
  {
  }

  lemma PreparedLowered(name: string)
    ensures AllLowered(Strip(Lower(Transliterate(name))))
  {
    var t := Transliterate(name);
    LowerAfterTransliterate(t);
    StripChars(Lower(t), Lowered);
  }

  lemma LowerAfterTransliterate(t: string)
    requires forall k :: 0 <= k < |t| ==> !IsBasicCyrillic(t[k])
    ensures AllLowered(Lower(t))
  {
    forall k | 0 <= k < |t| ensures Lowered(Lower(t)[k]) {
      LowerKeepsLowered(t[k]);
    }
  }

  /** From the filtered string to the key: collapse, alias, (no) swap, strip. */
  lemma KeyFromKept(kept: string)
    requires forall k :: 0 <= k < |kept| ==> KeyChar(kept[k]) || IsSpace(kept[k])
    ensures NameKey(Strip(SwapAtComma(Join(" ", AliasAll(Split(Collapse(kept)))))))
  {
    var ws := Split(kept);
    SplitTokens(kept);
    SplitChars(kept, KeyChar);
    SplitJoin(ws);
    assert Split(Collapse(kept)) == ws;
    AliasTokens(ws);
    var aliased := Join(" ", AliasAll(ws));
    JoinTokensCollapsed(AliasAll(ws));
    JoinChars(AliasAll(ws), KeyChar);
    NoCommaInKey(aliased);
    StripIdempotent(aliased);
  }

  lemma LowerKeepsLowered(c: char)
    requires !IsBasicCyrillic(c)
    ensures Lowered(LowerChar(c))
  {
  }

  /** Commas are removed before the "Last, First" check, so the swap never applies. */
  lemma NoCommaInKey(aliased: string)
    requires AllKeyChars(aliased)
    ensures IndexOf(aliased, ',') == |aliased|
    ensures SwapAtComma(aliased) == aliased
  {
    var k := IndexOf(aliased, ',');
    if k < |aliased| {
      assert false;
    }
  }

  /** Leading and trailing blanks of the input do not change the key; this is
    * why a professor stored under the stripped name keeps a consistent key. */
  lemma NormalizeIgnoresOuterBlanks(name: string)
    ensures NormalizeProfessorName(Strip(name)) == NormalizeProfessorName(name)
  {
    if name != [] {
      var a, m, b := OuterBlanks(name);
      PreparePadded(a, m, b);
      var key := Strip(Lower(Transliterate(m)));
      assert NormalizeProfessorName(name) == NormalizeLowered(key);
      if m == [] {
        assert key == [];
        NormalizeLoweredEmpty();
      } else {
        assert NormalizeProfessorName(m) == NormalizeLowered(key);
      }
    }
  }

  /** name == a + strip(name) + b with blank a and b. */
  lemma OuterBlanks(name: string) returns (a: string, m: string, b: string)
    ensures AllSpace(a) && AllSpace(b) && name == a + m + b && m == Strip(name)
  {
    var i, j := StripSpec(name);
    a, m, b := name[..i], name[i..j], name[j..];
    assert name[..i] + name[i..j] == name[..j];
    assert name[..j] + name[j..] == name;
    assert AllSpace(a) by {
      forall k | 0 <= k < |a| ensures IsSpace(a[k]) { assert a[k] == name[k]; }
    }
    assert AllSpace(b) by {
      forall k | 0 <= k < |b| ensures IsSpace(b[k]) { assert b[k] == name[j + k]; }
    }
  }

  /** Blanks around the name survive transliteration and lower-casing, and strip() removes them. */
  lemma PreparePadded(a: string, m: string, b: string)
    requires AllSpace(a) && AllSpace(b)
    ensures Strip(Lower(Transliterate(a + m + b))) == Strip(Lower(Transliterate(m)))
  {
    TransliterateAppend(a + m, b);
    TransliterateAppend(a, m);
    TransliterateSpaces(a);
    TransliterateSpaces(b);
    var tm := Transliterate(m);
    assert Transliterate(a + m + b) == a + tm + b;
    LowerAppend(a + tm, b);
    LowerAppend(a, tm);
    LowerSpaces(a);
    LowerSpaces(b);
    StripPadded(Lower(a), Lower(tm), Lower(b));
  }

  lemma LowerAppend(x: string, y: string)
    ensures Lower(x + y) == Lower(x) + Lower(y)
  {
  }

  lemma LowerSpaces(a: string)
    requires AllSpace(a)
    ensures AllSpace(Lower(a))
  {
  }

  lemma NormalizeLoweredEmpty()
    ensures NormalizeLowered([]) == []
  {
    var noTitles := RemoveTitles([], Titles);
    assert |noTitles| == 0;
  }

  /** Whitespace around a string does not survive strip(). */
  lemma StripPadded(a: string, m: string, b: string)
    requires AllSpace(a) && AllSpace(b)
    ensures Strip(a + m + b) == Strip(m)
  {
    assert a + m + b == a + (m + b);
    LeftPad(a, m + b);
    TrimLeftAppend(m, b);
    RightPad(TrimLeft(m), b);
    StripPaddedChain(a + m + b, m + b, TrimLeft(m) + b, m);
  }

  /** The equalities of StripPadded, chained. */
  lemma StripPaddedChain(s: string, x: string, y: string, m: string)
    requires TrimLeft(s) == TrimLeft(x)
    requires TrimRight(TrimLeft(x)) == TrimRight(y)
    requires TrimRight(y) == TrimRight(TrimLeft(m))
    ensures Strip(s) == Strip(m)
  {
  }

  lemma {:induction false} LeftPad(a: string, x: string)
    requires AllSpace(a)
    ensures TrimLeft(a + x) == TrimLeft(x)
  {
    if a != [] {
      assert (a + x)[1..] == a[1..] + x;
      LeftPad(a[1..], x);
    } else {
      assert a + x == x;
    }
  }

  lemma {:induction false} RightPad(x: string, b: string)
    requires AllSpace(b)
    ensures TrimRight(x + b) == TrimRight(x)
    decreases |b|
  {
    if b != [] {
      assert (x + b)[..|x + b| - 1] == x + b[..|b| - 1];
      RightPad(x, b[..|b| - 1]);
    } else {
      assert x + b == x;
    }
  }

  lemma {:induction false} TrimLeftAppend(m: string, b: string)
    requires AllSpace(b)
    ensures TrimRight(TrimLeft(m + b)) == TrimRight(TrimLeft(m) + b)
  {
    if m == [] {
      assert m + b == b;
      LeftPad(b, []);
      assert b + [] == b;
      RightPad([], b);
      assert [] + b == b;
    } else if IsSpace(m[0]) {
      assert (m + b)[1..] == m[1..] + b;
      TrimLeftAppend(m[1..], b);
    } else {
    }
  }

  // =====================================================================
  // clean_feedback_text

  /** Unicode category Cc: the C0 and C1 control characters and DEL. */
  predicate IsControl(c: char)
  {
    c < ' ' || ('\U{7F}' <= c <= '\U{9F}')
  }

  predicate NoStrayControls(s: string)
  {
    forall i :: 0 <= i < |s| ==> !IsControl(s[i]) || s[i] == '\n' || s[i] == '\t'
  }

  predicate NoDoubleSpace(s: string)
  {
    forall i :: 0 <= i < |s| - 1 ==> !(s[i] == ' ' && s[i + 1] == ' ')
  }

  /** Every line is stripped: a blank other than a newline never starts or ends
    * the text and never touches a newline. */
  predicate LinesStripped(s: string)
  {
    forall i :: 0 <= i < |s| && IsSpace(s[i]) && s[i] != '\n' ==>
      0 < i < |s| - 1 && s[i - 1] != '\n' && s[i + 1] != '\n'
  }

  function DropControls(s: string): (r: string)
    ensures NoStrayControls(r)
  {
    if s == [] then []
    else (if !IsControl(s[0]) || s[0] == '\n' || s[0] == '\t' then [s[0]] else []) + DropControls(s[1..])
  }

  /** Length of the run of c at the head of s. */
  function RunOf(s: string, c: char): (k: nat)
    ensures k <= |s|
    ensures forall i :: 0 <= i < k ==> s[i] == c
    ensures k == |s| || s[k] != c
  {
    if s != [] && s[0] == c then 1 + RunOf(s[1..], c) else 0
  }

  /** re.sub(r'\n{3,}', '\n\n', s). */
  function CollapseNewlines(s: string): (r: string)
    ensures NoStrayControls(s) ==> NoStrayControls(r)
  {
    if s == [] then []
    else if RunOf(s, '\n') >= 3 then "\n\n" + CollapseNewlines(s[RunOf(s, '\n')..])
    else [s[0]] + CollapseNewlines(s[1..])
  }

  /** re.sub(r' {2,}', ' ', s). */
  function CollapseBlanks(s: string): (r: string)
    ensures NoStrayControls(s) ==> NoStrayControls(r)
    ensures NoDoubleSpace(r)
    ensures r == [] <==> s == []
    ensures s != [] ==> (r[0] == ' ' <==> s[0] == ' ')
  {
    if s == [] then []
    else if RunOf(s, ' ') >= 2 then " " + CollapseBlanks(s[RunOf(s, ' ')..])
    else [s[0]] + CollapseBlanks(s[1..])
  }

  /** Python's s.split('\n'). */
  function SplitLines(s: string): (ls: seq<string>)
    ensures |ls| >= 1
    ensures forall l :: l in ls ==> '\n' !in l
    decreases |s|
  {
    var j := IndexOf(s, '\n');
    if j == |s| then [s] else [s[..j]] + SplitLines(s[j + 1..])
  }

  function StripEach(ls: seq<string>): (r: seq<string>)
    ensures |r| == |ls|
    ensures forall k :: 0 <= k < |ls| ==> r[k] == Strip(ls[k])
  {
    seq(|ls|, k requires 0 <= k < |ls| => Strip(ls[k]))
  }

  /** '\n'.join(line.strip() for line in s.split('\n')). */
  function StripLines(s: string): string
  {
    Join("\n", StripEach(SplitLines(s)))
  }

  /** The message cleaner. Unicode compatibility composition is not modelled. */
  function CleanFeedbackText(text: string): (r: string)
    ensures text == [] ==> r == []
    ensures NoStrayControls(r) && NoDoubleSpace(r)
    ensures Stripped(r) && LinesStripped(r)
  {
    if text == [] then ""
    else
      var a := DropControls(text);
      var b := CollapseNewlines(a);
      var c := CollapseBlanks(b);
      var d := StripLines(c);
      CleanedLines(c);
      StripKeepsLines(d);
      Strip(d)
  }

  lemma CleanedLines(c: string)
    requires NoStrayControls(c) && NoDoubleSpace(c)
    ensures NoStrayControls(StripLines(c)) && NoDoubleSpace(StripLines(c))
    ensures LinesStripped(StripLines(c))
  {
    var ls := SplitLines(c);
    SplitLinesParts(c);
    var ss := StripEach(ls);
    forall k | 0 <= k < |ss|
      ensures NoStrayControls(ss[k]) && NoDoubleSpace(ss[k]) && Stripped(ss[k]) && '\n' !in ss[k]
    {
      assert ls[k] in ls;
      StrippedStrip(ls[k]);
      SubstringKeeps(c, ls[k]);
      StripSubstring(ls[k]);
    }
    JoinLines(ss);
  }

  /** No run of three newlines. */
  predicate NoTripleNewline(s: string)
  {
    forall i :: 0 <= i < |s| - 2 ==> !(s[i] == '\n' && s[i + 1] == '\n' && s[i + 2] == '\n')
  }

  /** A text that is already clean is its own cleaning: every step of the
    * cleaner leaves it as it is. */
  lemma CleanFeedbackTextFixed(t: string)
    requires NoStrayControls(t) && NoDoubleSpace(t) && NoTripleNewline(t)
    requires Stripped(t) && LinesStripped(t)
    ensures CleanFeedbackText(t) == t
  {
    if t != [] {
      DropControlsKeeps(t);
      CollapseNewlinesKeeps(t);
      CollapseBlanksKeeps(t);
      StripLinesKeeps(t);
      StripIdempotent(t);
    }
  }

  lemma {:induction false} DropControlsKeeps(t: string)
    requires NoStrayControls(t)
    ensures DropControls(t) == t
  {
    if t != [] {
      assert NoStrayControls(t[1..]) by {
        forall i | 0 <= i < |t| - 1 ensures !IsControl(t[1..][i]) || t[1..][i] == '\n' || t[1..][i] == '\t' {
          assert t[1..][i] == t[i + 1];
        }
      }
      DropControlsKeeps(t[1..]);
      assert [t[0]] + t[1..] == t;
    }
  }

  lemma {:induction false} CollapseNewlinesKeeps(t: string)
    requires NoTripleNewline(t)
    ensures CollapseNewlines(t) == t
  {
    if t != [] {
      assert NoTripleNewline(t[1..]) by {
        forall i | 0 <= i < |t| - 3 ensures !(t[1..][i] == '\n' && t[1..][i + 1] == '\n' && t[1..][i + 2] == '\n') {
          assert t[1..][i] == t[i + 1] && t[1..][i + 1] == t[i + 2] && t[1..][i + 2] == t[i + 3];
        }
      }
      CollapseNewlinesKeeps(t[1..]);
      assert [t[0]] + t[1..] == t;
    }
  }

  lemma {:induction false} CollapseBlanksKeeps(t: string)
    requires NoDoubleSpace(t)
    ensures CollapseBlanks(t) == t
  {
    if t != [] {
      assert NoDoubleSpace(t[1..]) by {
        forall i | 0 <= i < |t| - 2 ensures !(t[1..][i] == ' ' && t[1..][i + 1] == ' ') {
          assert t[1..][i] == t[i + 1] && t[1..][i + 1] == t[i + 2];
        }
      }
      CollapseBlanksKeeps(t[1..]);
      assert [t[0]] + t[1..] == t;
    }
  }

  /** Stripping every line of a text whose lines are stripped changes nothing. */
  lemma {:induction false} StripLinesKeeps(t: string)
    requires LinesStripped(t)
    ensures StripLines(t) == t
    decreases |t|
  {
    var j := IndexOf(t, '\n');
    var l := t[..j];
    FirstLineStripped(t, j);
    if j == |t| {
      StripIdempotent(l);
      assert l == t;
      assert StripEach([t])[0] == t;
    } else {
      var rest := t[j + 1..];
      RestLinesStripped(t, j);
      StripLinesKeeps(rest);
      SplitAtNewline(t, j);
      assert '\n' !in l by {
        forall i | 0 <= i < |l| ensures l[i] != '\n' { assert l[i] == t[i]; }
      }
      StripLinesCons(l, rest);
    }
  }

  /** Stripping the lines of a text whose first line is stripped keeps that line. */
  lemma StripLinesCons(l: string, rest: string)
    requires '\n' !in l && Stripped(l)
    ensures StripLines(l + "\n" + rest) == l + "\n" + StripLines(rest)
  {
    var t := l + "\n" + rest;
    IndexOfAfter(l, rest);
    assert t[..|l|] == l && t[|l| + 1..] == rest;
    var ls := SplitLines(rest);
    assert SplitLines(t) == [l] + ls;
    StripEachCons(l, ls);
    JoinCons1(l, StripEach(ls), '\n');
  }

  lemma IndexOfAfter(l: string, rest: string)
    requires '\n' !in l
    ensures IndexOf(l + "\n" + rest, '\n') == |l|
  {
    var t := l + "\n" + rest;
    assert t[|l|] == '\n';
    assert forall i :: 0 <= i < |l| ==> t[i] == l[i];
  }

  /** A text cut at one of its newlines. */
  lemma SplitAtNewline(t: string, j: nat)
    requires j < |t| && t[j] == '\n'
    ensures t == t[..j] + "\n" + t[j + 1..]
  {
    assert t == t[..j] + [t[j]] + t[j + 1..];
  }

  lemma StripEachCons(l: string, ls: seq<string>)
    requires Stripped(l)
    ensures StripEach([l] + ls) == [l] + StripEach(ls)
  {
    StripIdempotent(l);
  }

  lemma FirstLineStripped(t: string, j: nat)
    requires LinesStripped(t) && j == IndexOf(t, '\n')
    ensures Stripped(t[..j])
  {
    if j > 0 {
      assert t[..j][0] == t[0];
      assert t[..j][j - 1] == t[j - 1];
    }
  }

  lemma RestLinesStripped(t: string, j: nat)
    requires LinesStripped(t) && j < |t| && t[j] == '\n'
    ensures LinesStripped(t[j + 1..])
  {
    var rest := t[j + 1..];
    forall i | 0 <= i < |rest| && IsSpace(rest[i]) && rest[i] != '\n'
      ensures 0 < i < |rest| - 1 && rest[i - 1] != '\n' && rest[i + 1] != '\n'
    {
      assert rest[i] == t[j + 1 + i];
      if i > 0 { assert rest[i - 1] == t[j + i]; }
      if i < |rest| - 1 { assert rest[i + 1] == t[j + 2 + i]; }
    }
  }

  /** l is a slice of s. */
  predicate SliceOf(l: string, s: string)
  {
    exists i, j :: 0 <= i <= j <= |s| && l == s[i..j]
  }

  /** A slice of a suffix of s is a slice of s. */
  lemma SliceOfSuffix(l: string, s: string, m: nat)
    requires m <= |s| && SliceOf(l, s[m..])
    ensures SliceOf(l, s)
  {
    var i, k :| 0 <= i <= k <= |s[m..]| && l == s[m..][i..k];
    assert l == s[m + i..m + k];
  }

  /** Each piece of s.split('\n') is a slice of s. */
  lemma {:induction false} SplitLinesParts(s: string)
    ensures forall l :: l in SplitLines(s) ==> SliceOf(l, s)
    decreases |s|
  {
    var j := IndexOf(s, '\n');
    if j < |s| {
      var rest := s[j + 1..];
      SplitLinesParts(rest);
      assert SplitLines(s) == [s[..j]] + SplitLines(rest);
      assert s[..j] == s[0..j];
      forall l | l in SplitLines(rest) ensures SliceOf(l, s) {
        SliceOfSuffix(l, s, j + 1);
      }
    } else {
      assert s == s[0..|s|];
    }
  }

  lemma SubstringKeeps(c: string, l: string)
    requires NoStrayControls(c) && NoDoubleSpace(c)
    requires SliceOf(l, c)
    ensures NoStrayControls(l) && NoDoubleSpace(l)
  {
    var i, j :| 0 <= i <= j <= |c| && l == c[i..j];
    assert forall k :: 0 <= k < |l| ==> l[k] == c[i + k];
  }

  lemma StripSubstring(l: string)
    ensures SliceOf(Strip(l), l)
    ensures NoStrayControls(l) && NoDoubleSpace(l) ==> NoStrayControls(Strip(l)) && NoDoubleSpace(Strip(l))
    ensures '\n' !in l ==> '\n' !in Strip(l)
    ensures Stripped(Strip(l))
  {
    var i, j := StripSpec(l);
    assert forall k :: 0 <= k < |Strip(l)| ==> Strip(l)[k] == l[i + k];
  }

  /** Joining stripped, newline-free lines gives a text whose lines are stripped. */
  lemma {:induction false} JoinLines(ss: seq<string>)
    requires forall k :: 0 <= k < |ss| ==>
      NoStrayControls(ss[k]) && NoDoubleSpace(ss[k]) && Stripped(ss[k]) && '\n' !in ss[k]
    ensures NoStrayControls(Join("\n", ss)) && NoDoubleSpace(Join("\n", ss))
    ensures LinesStripped(Join("\n", ss))
  {
    if |ss| == 1 {
      var w := ss[0];
      forall i | 0 <= i < |w| && IsSpace(w[i]) && w[i] != '\n'
        ensures 0 < i < |w| - 1 && w[i - 1] != '\n' && w[i + 1] != '\n'
      {
        assert w[i - 1] in w;
        assert w[i + 1] in w;
      }
    } else if |ss| > 1 {
      JoinLines(ss[1..]);
      var w := ss[0];
      var rest := Join("\n", ss[1..]);
      var j := w + "\n" + rest;
      assert j == Join("\n", ss);
      assert forall i :: 0 <= i < |w| ==> j[i] == w[i];
      assert j[|w|] == '\n';
      assert forall i :: |w| < i < |j| ==> j[i] == rest[i - |w| - 1];
      forall i | 0 <= i < |j| && IsSpace(j[i]) && j[i] != '\n'
        ensures 0 < i < |j| - 1 && j[i - 1] != '\n' && j[i + 1] != '\n'
      {
        if i < |w| {
          assert 0 < i < |w| - 1;
          assert w[i - 1] in w;
          assert w[i + 1] in w;
        }
      }
    }
  }

  /** A final strip() keeps every line stripped. */
  lemma StripKeepsLines(d: string)
    requires NoStrayControls(d) && NoDoubleSpace(d) && LinesStripped(d)
    ensures NoStrayControls(Strip(d)) && NoDoubleSpace(Strip(d))
    ensures Stripped(Strip(d)) && LinesStripped(Strip(d))
  {
    var i, j := StripSpec(d);
    SliceKeepsLines(d, i, j);
  }

  lemma SliceKeepsLines(d: string, i: nat, j: nat)
    requires i <= j <= |d| && Stripped(d[i..j])
    requires NoStrayControls(d) && NoDoubleSpace(d) && LinesStripped(d)
    ensures NoStrayControls(d[i..j]) && NoDoubleSpace(d[i..j]) && LinesStripped(d[i..j])
  {
    var r := d[i..j];
    assert forall k :: 0 <= k < |r| ==> r[k] == d[i + k];
    forall k | 0 <= k < |r| && IsSpace(r[k]) && r[k] != '\n'
      ensures 0 < k < |r| - 1 && r[k - 1] != '\n' && r[k + 1] != '\n'
    {
      assert r[k] == d[i + k];
    }
  }

  // =====================================================================
  // extract_course_code

  /** Length of the run of ASCII capital letters at the head of s. */
  function CapitalsRun(s: string): (k: nat)
    ensures k <= |s|
    ensures forall i :: 0 <= i < k ==> IsAsciiUpper(s[i])
    ensures k == |s| || !IsAsciiUpper(s[k])
  {
    if s != [] && IsAsciiUpper(s[0]) then 1 + CapitalsRun(s[1..]) else 0
  }

  function DigitRun(s: string): (k: nat)
    ensures k <= |s|
    ensures forall i :: 0 <= i < k ==> IsDigit(s[i])
    ensures k == |s| || !IsDigit(s[k])
  {
    if s != [] && IsDigit(s[0]) then 1 + DigitRun(s[1..]) else 0
  }

  /** The separator `\s*[-]?\s*` taken greedily; a shorter one would leave a
    * blank or hyphen where a digit must follow. */
  function SeparatorEnd(s: string, j: nat): (e: nat)
    requires j <= |s|
    ensures j <= e <= |s|
  {
    var a := j + SpaceRun(s[j..]);
    var b := if a < |s| && s[a] == '-' then a + 1 else a;
    b + SpaceRun(s[b..])
  }

  lemma CapitalsSlice(s: string, i: nat, l: nat)
    requires i <= |s| && l == CapitalsRun(s[i..])
    ensures i + l <= |s| && CharsIn(s[i..i + l], IsAsciiUpper)
  {
    var w := s[i..i + l];
    forall k | 0 <= k < l ensures IsAsciiUpper(w[k]) { assert w[k] == s[i..][k]; }
  }

  lemma DigitsSlice(s: string, j: nat, d: nat)
    requires j <= |s| && d == DigitRun(s[j..])
    ensures j + d <= |s| && CharsIn(s[j..j + d], IsDigit)
  {
    var w := s[j..j + d];
    forall k | 0 <= k < d ensures IsDigit(w[k]) { assert w[k] == s[j..][k]; }
  }

  /** A course code pattern matching at index i, as (letters, digits).
    * The letter group must be the whole run of capitals (a shorter group is
    * followed by a capital, which nothing in the pattern accepts), and the
    * digit group the whole run of 3-4 digits followed by a non-word character. */
  function CodeAt(s: string, i: nat, separated: bool): (m: Option<(string, string)>)
    requires i <= |s|
    ensures m.Some? ==> 2 <= |m.value.0| <= 4 && 3 <= |m.value.1| <= 4
    ensures m.Some? ==> CharsIn(m.value.0, IsAsciiUpper) && CharsIn(m.value.1, IsDigit)
  {
    var l := CapitalsRun(s[i..]);
    if !WordStart(s, i) || l < 2 || l > 4 then None
    else
      var j := if separated then SeparatorEnd(s, i + l) else i + l;
      var d := DigitRun(s[j..]);
      if d < 3 || d > 4 || (j + d < |s| && IsWordChar(s[j + d])) then None
      else
        CapitalsSlice(s, i, l);
        DigitsSlice(s, j, d);
        Some((s[i..i + l], s[j..j + d]))
  }

  /** re.search: the leftmost index where the pattern matches. */
  function SearchCode(s: string, i: nat, separated: bool): (m: Option<(string, string)>)
    requires i <= |s|
    ensures m.Some? ==> 2 <= |m.value.0| <= 4 && 3 <= |m.value.1| <= 4
    ensures m.Some? ==> CharsIn(m.value.0, IsAsciiUpper) && CharsIn(m.value.1, IsDigit)
    decreases |s| - i
  {
    match CodeAt(s, i, separated)
    case Some(m) => Some(m)
    case None => if i == |s| then None else SearchCode(s, i + 1, separated)
  }

  /** A course code: 2-4 capitals, one blank, 3-4 digits. */
  predicate CourseCodeShape(c: string)
  {
    exists n :: 2 <= n <= 4 && n < |c| && c[n] == ' ' && 3 <= |c| - n - 1 <= 4
      && (forall k :: 0 <= k < n ==> IsAsciiUpper(c[k]))
      && (forall k :: n < k < |c| ==> IsDigit(c[k]))
  }

  function FormatCode(m: (string, string)): (c: string)
    requires 2 <= |m.0| <= 4 && 3 <= |m.1| <= 4
    requires CharsIn(m.0, IsAsciiUpper) && CharsIn(m.1, IsDigit)
    ensures CourseCodeShape(c)
  {
    var c := m.0 + " " + m.1;
    var n := |m.0|;
    assert c[n] == ' ';
    assert forall k :: n < k < |c| ==> c[k] == m.1[k - n - 1];
    c
  }

  /** extract_course_code: the separated pattern first, then the compact one. */
  function ExtractCourseCode(text: string): (r: Option<string>)
    ensures text == [] ==> r.None?
    ensures r.Some? ==> CourseCodeShape(r.value)
  {
    if text == [] then None
    else
      var u := Upper(text);
      match SearchCode(u, 0, true)
      case Some(m) => Some(FormatCode(m))
      case None =>
        match SearchCode(u, 0, false)
        case Some(m) => Some(FormatCode(m))
        case None => None
  }

  /** The search returns the match at the leftmost index where the pattern matches. */
  lemma {:induction false} SearchCodeLeftmost(s: string, i0: nat, i: nat, separated: bool)
    requires i0 <= i <= |s|
    requires forall k :: i0 <= k < i ==> CodeAt(s, k, separated).None?
    requires CodeAt(s, i, separated).Some?
    ensures SearchCode(s, i0, separated) == CodeAt(s, i, separated)
    decreases i - i0
  {
    if i0 < i {
      SearchCodeLeftmost(s, i0 + 1, i, separated);
    }
  }

  /** The search finds nothing exactly when the pattern matches nowhere. */
  lemma {:induction false} SearchCodeNone(s: string, i0: nat, separated: bool)
    requires i0 <= |s|
    ensures SearchCode(s, i0, separated).None? <==> forall k :: i0 <= k <= |s| ==> CodeAt(s, k, separated).None?
    decreases |s| - i0
  {
    if i0 < |s| {
      SearchCodeNone(s, i0 + 1, separated);
    }
  }

  /** The code extracted is the one at the leftmost match of the separated
    * pattern in the upper-cased text, written with a single blank. */
  lemma ExtractCourseCodeLeftmost(text: string, i: nat)
    requires i <= |text|
    requires forall k :: 0 <= k < i ==> CodeAt(Upper(text), k, true).None?
    requires CodeAt(Upper(text), i, true).Some?
    ensures ExtractCourseCode(text) == Some(FormatCode(CodeAt(Upper(text), i, true).value))
  {
    SearchCodeLeftmost(Upper(text), 0, i, true);
  }

  /** A text holding no course code gives none. */
  lemma ExtractCourseCodeNone(text: string)
    ensures ExtractCourseCode(text).None? <==> forall k :: 0 <= k <= |text| ==> CodeAt(Upper(text), k, true).None?
  {
    if text != [] {
      SearchCodeNone(Upper(text), 0, true);
      if SearchCode(Upper(text), 0, true).None? {
        CompactSubsumed(Upper(text), 0);
      }
    } else {
      assert Upper(text) == [];
    }
  }

  lemma ExtractCourseCodeExample()
    ensures ExtractCourseCode("CS 101") == Some("CS 101")
  {
    var t := "CS 101";
    assert UpperChar('C') == 'C' && UpperChar('S') == 'S' && UpperChar(' ') == ' ';
    assert UpperChar('1') == '1' && UpperChar('0') == '0';
    assert Upper(t) == t;
    CodeAtExample(t);
    ExtractCourseCodeLeftmost(t, 0);
    FormatCodeExample();
  }

  lemma FormatCodeExample()
    ensures FormatCode(("CS", "101")) == "CS 101"
  {
  }

  lemma CodeAtExample(t: string)
    requires t == "CS 101"
    ensures CodeAt(t, 0, true) == Some(("CS", "101"))
  {
    assert t[0] == 'C' && t[1] == 'S' && t[2] == ' ';
    assert CapitalsRun(t[0..]) == 2;
    assert SpaceRun(t[2..]) == 1 by {
      assert t[2..][0] == ' ' && t[2..][1] == '1';
    }
    assert SeparatorEnd(t, 2) == 3 by {
      assert SpaceRun(t[3..]) == 0 by { assert t[3..][0] == '1'; }
    }
    assert DigitRun(t[3..]) == 3 by {
      assert t[3..] == "101";
    }
    assert t[0..2] == "CS" && t[3..6] == "101";
  }

  /** The compact pattern only matches where the separated one already does,
    * so the second search of extract_course_code never finds anything. */
  lemma {:induction false} CompactSubsumed(s: string, i: nat)
    requires i <= |s|
    requires SearchCode(s, i, true).None?
    ensures SearchCode(s, i, false).None?
    decreases |s| - i
  {
    CompactNotAt(s, i);
    if i < |s| {
      CompactSubsumed(s, i + 1);
    }
  }

  /** Where the separated pattern fails, the compact one fails too: the
    * compact pattern is the separated one with an empty separator. */
  lemma CompactNotAt(s: string, i: nat)
    requires i <= |s| && CodeAt(s, i, true).None?
    ensures CodeAt(s, i, false).None?
  {
    var l := CapitalsRun(s[i..]);
    if WordStart(s, i) && 2 <= l <= 4 {
      var j := i + l;
      var e := SeparatorEnd(s, j);
      if e != j {
        assert s[j..][0] == s[j];
        assert IsSpace(s[j]) || s[j] == '-';
        assert DigitRun(s[j..]) == 0;
      }
    }
  }

  // =====================================================================
  // truncate_text

  /** Python's s[:n], negative n counting from the end. */
  function PyPrefix(s: string, n: int): (r: string)
    ensures |r| <= |s| && r == s[..|r|]
    ensures 0 <= n <= |s| ==> |r| == n
  {
    if n >= 0 then (if n <= |s| then s[..n] else s)
    else (if -n <= |s| then s[..|s| + n] else [])
  }

  /** Python's s.rfind(c): the last index of c, or -1. */
  function RFind(s: string, c: char): (k: int)
    ensures -1 <= k < |s|
    ensures k >= 0 ==> s[k] == c
    ensures forall i :: k < i < |s| ==> s[i] != c
  {
    if s == [] then -1 else if s[|s| - 1] == c then |s| - 1 else RFind(s[..|s| - 1], c)
  }

  /** truncate_text: cut to leave room for the suffix, back up to the last
    * blank when that keeps more than 70% of the limit, then add the suffix. */
  function TruncateText(text: string, maxLength: int, suffix: string): (r: string)
    ensures (text == [] || |text| <= maxLength) ==> r == text
    ensures text != [] && |text| > maxLength ==>
      EndsWith(r, suffix) && exists k :: 0 <= k <= |text| && r == text[..k] + suffix
    ensures text != [] && |text| > maxLength && maxLength >= |suffix| ==> |r| <= maxLength
  {
    if text == [] || |text| <= maxLength then text
    else
      var cut := PyPrefix(text, maxLength - |suffix|);
      var lastSpace := RFind(cut, ' ');
      var kept := if lastSpace as real > maxLength as real * 0.7 then PyPrefix(cut, lastSpace) else cut;
      assert kept == text[..|kept|];
      var r := kept + suffix;
      assert r[|r| - |suffix|..] == suffix;
      r
  }

  // =====================================================================
  // extract_rating_from_text

  /** End of the number `\d+(?:\.\d+)?` starting at i (greedy; a shorter
    * number would leave a digit where the rest of each pattern needs something else). */
  function NumberEnd(s: string, i: nat): (e: Option<nat>)
    requires i <= |s|
    ensures e.Some? ==> i < e.value <= |s|
  {
    var d := DigitRun(s[i..]);
    if d == 0 then None
    else
      var j := i + d;
      if j + 1 < |s| && s[j] == '.' && IsDigit(s[j + 1]) then Some(j + 1 + DigitRun(s[j + 1..]))
      else Some(j)
  }

  /** The five rating patterns, in order. */
  datatype RatingPattern =
    | OverFive       // X/5
    | OverTen        // X/10
    | OutOfFive      // X out of 5 (also the Russian "из")
    | Stars          // X stars (also "звезд")
    | Labelled       // rating: X (also "оценка", "баҳо")

  const RatingPatterns: seq<RatingPattern> := [OverFive, OverTen, OutOfFive, Stars, Labelled]

  function Scale(p: RatingPattern): real
  {
    if p == OverTen then 10.0 else 5.0
  }

  /** After the number at [i, e): does the rest of the pattern follow? */
  predicate TailMatches(s: string, e: nat, p: RatingPattern)
    requires e <= |s|
  {
    var a := e + SpaceRun(s[e..]);
    match p
    case OverFive =>
      a < |s| && s[a] == '/' && OccursAt(s, "5", a + 1 + SpaceRun(s[a + 1..]))
    case OverTen =>
      a < |s| && s[a] == '/' && OccursAt(s, "10", a + 1 + SpaceRun(s[a + 1..]))
    case OutOfFive =>
      (OccursAt(s, "из", a) && OccursAt(s, "5", a + 2 + SpaceRun(s[a + 2..])))
      || (OccursAt(s, "out of", a) && OccursAt(s, "5", a + 6 + SpaceRun(s[a + 6..])))
    case Stars => OccursAt(s, "star", a) || OccursAt(s, "звезд", a)
    case Labelled => false
  }

  /** Length of the run of ':' and blanks at the head of s (`[:\s]*`). */
  function ColonSpaceRun(s: string): (k: nat)
    ensures k <= |s|
  {
    if s != [] && (s[0] == ':' || IsSpace(s[0])) then 1 + ColonSpaceRun(s[1..]) else 0
  }

  /** The captured number when the pattern matches at index i. */
  function RatingAt(s: string, i: nat, p: RatingPattern): Option<string>
    requires i <= |s|
  {
    if p == Labelled then
      var labelEnd :=
        if OccursAt(s, "rating", i) then Some(i + 6)
        else if OccursAt(s, "оценка", i) then Some(i + 6)
        else if OccursAt(s, "баҳо", i) then Some(i + 4)
        else None;
      match labelEnd
      case None => None
      case Some(le) =>
        var n := le + ColonSpaceRun(s[le..]);
        match NumberEnd(s, n)
        case None => None
        case Some(e) => Some(s[n..e])
    else
      match NumberEnd(s, i)
      case None => None
      case Some(e) => if TailMatches(s, e, p) then Some(s[i..e]) else None
  }

  function SearchRating(s: string, i: nat, p: RatingPattern): Option<string>
    requires i <= |s|
    decreases |s| - i
  {
    match RatingAt(s, i, p)
    case Some(g) => Some(g)
    case None => if i == |s| then None else SearchRating(s, i + 1, p)
  }

  function Clamp(lo: real, hi: real, x: real): (r: real)
    requires lo <= hi
    ensures lo <= r <= hi
    ensures lo <= x <= hi ==> r == x
  {
    if x < lo then lo else if x > hi then hi else x
  }

  /** The first pattern (in order) that matches and whose number converts. */
  function RatingFromPatterns(s: string, ps: seq<RatingPattern>): (r: Option<real>)
    ensures r.Some? ==> 1.0 <= r.value <= 5.0
  {
    if ps == [] then None
    else
      match SearchRating(s, 0, ps[0])
      case None => RatingFromPatterns(s, ps[1..])
      case Some(g) =>
        match ParseDecimal(g)
        case None => RatingFromPatterns(s, ps[1..])
        case Some(v) =>
          var scaled := if Scale(ps[0]) == 10.0 then v / 2.0 else v;
          Some(Clamp(1.0, 5.0, scaled))
  }

  /** extract_rating_from_text: a rating on the 1-5 scale, or None. */
  function ExtractRatingFromText(text: string): (r: Option<real>)
    ensures text == [] ==> r.None?
    ensures r.Some? ==> 1.0 <= r.value <= 5.0
  {
    if text == [] then None else RatingFromPatterns(Lower(text), RatingPatterns)
  }

  // =====================================================================
  // split_into_sentences

  predicate SentenceEnd(c: char)
  {
    c == '.' || c == '!' || c == '?'
  }

  /** Index of the first blank preceded by sentence punctuation, or |s|. */
  function BreakAt(s: string, i: nat): (k: nat)
    requires i <= |s|
    ensures i <= k <= |s|
    ensures k < |s| ==> 0 < k && SentenceEnd(s[k - 1]) && IsSpace(s[k])
    decreases |s| - i
  {
    if i == |s| then |s|
    else if 0 < i && SentenceEnd(s[i - 1]) && IsSpace(s[i]) then i
    else BreakAt(s, i + 1)
  }

  lemma ContainsInSuffix(s: string, j: nat, p: string)
    requires j <= |s| && Contains(s[j..], p)
    ensures Contains(s, p)
  {
    var i :| 0 <= i <= |s[j..]| - |p| && OccursAt(s[j..], p, i);
    assert s[j + i..j + i + |p|] == s[j..][i..i + |p|];
    assert OccursAt(s, p, j + i);
  }

  /** re.split(r'(?<=[.!?])\s+', s). */
  function SplitSentencePieces(s: string): (ps: seq<string>)
    ensures forall p :: p in ps ==> Contains(s, p)
    decreases |s|
  {
    var k := BreakAt(s, 0);
    if k == |s| then
      assert OccursAt(s, s, 0);
      [s]
    else
      var rest := s[k + SpaceRun(s[k..])..];
      var tail := SplitSentencePieces(rest);
      assert OccursAt(s, s[..k], 0);
      forall p | p in tail ensures Contains(s, p) {
        ContainsInSuffix(s, k + SpaceRun(s[k..]), p);
      }
      [s[..k]] + tail
  }

  lemma StrippedTail(ps: seq<string>, rest: seq<string>)
    requires ps != []
    requires forall x :: x in rest ==> exists p :: p in ps[1..] && Strip(p) == x
    ensures forall x :: x in rest ==> exists p :: p in ps && Strip(p) == x
  {
    forall x | x in rest ensures exists p :: p in ps && Strip(p) == x {
      var p :| p in ps[1..] && Strip(p) == x;
      assert p in ps;
    }
  }

  function KeepSentences(ps: seq<string>): (r: seq<string>)
    ensures forall x :: x in r ==> |x| > 5 && Stripped(x)
    ensures forall x :: x in r ==> exists p :: p in ps && Strip(p) == x
    ensures forall p :: p in ps && |Strip(p)| > 5 ==> Strip(p) in r
  {
    if ps == [] then []
    else
      StrippedStrip(ps[0]);
      var rest := KeepSentences(ps[1..]);
      StrippedTail(ps, rest);
      if |Strip(ps[0])| > 5 then [Strip(ps[0])] + rest else rest
  }

  /** The sentences of two runs of pieces are those of the first run followed
    * by those of the second: the kept sentences stay in the order of their
    * pieces. */
  lemma {:induction false} KeepSentencesAppend(a: seq<string>, b: seq<string>)
    ensures KeepSentences(a + b) == KeepSentences(a) + KeepSentences(b)
  {
    if a == [] {
      assert a + b == b;
    } else {
      assert (a + b)[0] == a[0] && (a + b)[1..] == a[1..] + b;
      KeepSentencesAppend(a[1..], b);
    }
  }

  /** One piece gives its stripped form exactly when that is longer than five characters. */
  lemma KeepSentencesOne(p: string)
    ensures KeepSentences([p]) == if |Strip(p)| > 5 then [Strip(p)] else []
  {
    assert [p][1..] == [];
  }

  /** split_into_sentences: stripped pieces longer than five characters. */
  function SplitIntoSentences(text: string): (r: seq<string>)
    ensures text == [] ==> r == []
    ensures forall x :: x in r ==> |x| > 5 && Stripped(x)
    ensures forall x :: x in r ==> exists p :: Contains(text, p) && Strip(p) == x
    ensures forall p :: p in SplitSentencePieces(text) && |Strip(p)| > 5 ==> Strip(p) in r
  {
    if text == [] then
      assert SplitSentencePieces(text) == [[]];
      []
    else KeepSentences(SplitSentencePieces(text))
  }

  // =====================================================================
  // contains_professor_mention

  const MentionKeywords: seq<string> := [
    "professor", "prof", "teacher", "instructor", "lecturer",
    "профессор", "преподаватель", "учитель", "доцент",
    "professor", "o'qituvchi", "ustoz"
  ]

  /** `\b(dr|prof)\.?\s+[a-z]` matching at index i with the given title. */
  predicate TitledNameAt(s: string, i: nat, lit: string)
    requires i <= |s|
  {
    WordStart(s, i) && OccursAt(s, lit, i) &&
    var e0 := i + |lit|;
    var e1 := if e0 < |s| && s[e0] == '.' then e0 + 1 else e0;
    var sp := SpaceRun(s[e1..]);
    sp > 0 && e1 + sp < |s| && IsAsciiLower(s[e1 + sp])
  }

  /** contains_professor_mention. */
  predicate ContainsProfessorMention(text: string)
  {
    text != [] &&
    var t := Lower(text);
    (exists kw :: kw in MentionKeywords && Contains(t, kw))
    || (exists i :: 0 <= i <= |t| && (TitledNameAt(t, i, "dr") || TitledNameAt(t, i, "prof")))
  }
  /** Some keyword of the list occurs in t. */
  predicate HasKeyword(t: string)
  {
    exists kw :: kw in MentionKeywords && Contains(t, kw)
  }

  /** The `prof` alternative of the title pattern adds nothing: "prof" is
    * itself a keyword, so a mention is a keyword or a "dr" title. */
  lemma {:induction false} MentionByKeywordOrDoctor(text: string)
    ensures ContainsProfessorMention(text) <==>
      text != [] && (HasKeyword(Lower(text))
                     || exists i :: 0 <= i <= |Lower(text)| && TitledNameAt(Lower(text), i, "dr"))
  {
    var t := Lower(text);
    if i :| 0 <= i <= |t| && TitledNameAt(t, i, "prof") {
      ProfKeyword(t, i);
    }
  }

  /** Any text holding "prof" in any case is a mention. */
  lemma ProfIsMention(text: string, i: nat)
    requires i + 4 <= |text| && Lower(text[i..i + 4]) == "prof"
    ensures ContainsProfessorMention(text)
  {
    var t := Lower(text);
    assert t[i..i + 4] == Lower(text[i..i + 4]);
    ProfKeyword(t, i);
  }

  lemma ProfKeyword(t: string, i: nat)
    requires OccursAt(t, "prof", i)
    ensures HasKeyword(t)
  {
    assert Contains(t, "prof");
    assert "prof" == MentionKeywords[1];
    assert "prof" in MentionKeywords;
  }
}
