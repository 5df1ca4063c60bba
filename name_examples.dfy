// Worked examples of the professor name key (normalize_professor_name in
// utils/text_processing.py), followed stage by stage through
// TextProcessing.NormalizeProfessorName. The facts about literal strings
// are stated as predicates that walk an index along the string, which the
// verifier evaluates one character at a time; a lemma beside each turns
// the walk into the fact about the stage.
module NameKeyExamples {
  import opened Wrappers
  import opened Strings
  import opened TextProcessing

  // =====================================================================
  // Character walks and what they give

  /** No basic Cyrillic letter in s from index i on. */
  predicate LatinFrom(s: string, i: nat)
    decreases |s| - i
  {
    i >= |s| || (!IsBasicCyrillic(s[i]) && LatinFrom(s, i + 1))
  }

  /** Text without Cyrillic letters is left alone by the transliteration. */
  lemma {:induction false} TransliterateLatin(s: string, i: nat)
    requires i <= |s| && LatinFrom(s, i)
    ensures Transliterate(s[i..]) == s[i..]
    decreases |s| - i
  {
    if i < |s| {
      CyrillicLatinCovers(s[i]);
      TransliterateLatin(s, i + 1);
      assert s[i..][0] == s[i] && s[i..][1..] == s[i + 1..];
    }
  }

  /** From index i on, t is s lower-cased character by character. */
  predicate LowersFrom(s: string, t: string, i: nat)
    decreases |s| - i
  {
    |s| == |t| && (i >= |s| || (LowerChar(s[i]) == t[i] && LowersFrom(s, t, i + 1)))
  }

  lemma {:induction false} LowersFromAll(s: string, t: string, i: nat)
    requires LowersFrom(s, t, i)
    ensures forall k :: i <= k < |s| ==> LowerChar(s[k]) == t[k]
    decreases |s| - i
  {
    if i < |s| {
      LowersFromAll(s, t, i + 1);
    }
  }

  lemma LowerOf(s: string, t: string)
    requires LowersFrom(s, t, 0)
    ensures Lower(s) == t
  {
    LowersFromAll(s, t, 0);
  }

  /** c does not occur in s from index i on. */
  predicate LacksFrom(s: string, c: char, i: nat)
    decreases |s| - i
  {
    i >= |s| || (s[i] != c && LacksFrom(s, c, i + 1))
  }

  lemma {:induction false} LacksNotIn(s: string, c: char, i: nat)
    requires i <= |s| && LacksFrom(s, c, i)
    ensures c !in s[i..]
    decreases |s| - i
  {
    if i < |s| {
      LacksNotIn(s, c, i + 1);
      assert s[i..] == [s[i]] + s[i + 1..];
    }
  }

  /** A text without '(' has nothing parenthesised to remove. */
  lemma {:induction false} RemoveParentheticalLacking(s: string)
    requires '(' !in s
    ensures RemoveParenthetical(s) == s
  {
    if s != [] {
      assert s == [s[0]] + s[1..];
      RemoveParentheticalLacking(s[1..]);
    }
  }

  /** Every character of s from index i on survives the filter of name
    * characters. */
  predicate NameCharsFrom(s: string, i: nat)
    decreases |s| - i
  {
    i >= |s| || (IsNameChar(s[i]) && NameCharsFrom(s, i + 1))
  }

  lemma {:induction false} KeepNameCharsFrom(s: string, i: nat)
    requires i <= |s| && NameCharsFrom(s, i)
    ensures KeepNameChars(s[i..]) == s[i..]
    decreases |s| - i
  {
    if i < |s| {
      KeepNameCharsFrom(s, i + 1);
      assert s[i..][0] == s[i] && s[i..][1..] == s[i + 1..];
      assert s[i..] == [s[i]] + s[i + 1..];
    }
  }

  lemma KeepNameCharsAll(s: string)
    requires NameCharsFrom(s, 0)
    ensures KeepNameChars(s) == s
  {
    KeepNameCharsFrom(s, 0);
    assert s[0..] == s;
  }

  /** The filter works piece by piece. */
  lemma {:induction false} KeepNameCharsAppend(a: string, b: string)
    ensures KeepNameChars(a + b) == KeepNameChars(a) + KeepNameChars(b)
  {
    if a == [] {
      assert a + b == b;
    } else {
      assert (a + b)[0] == a[0] && (a + b)[1..] == a[1..] + b;
      KeepNameCharsAppend(a[1..], b);
      var h := if IsNameChar(a[0]) then [a[0]] else [];
      assert KeepNameChars(a + b) == h + (KeepNameChars(a[1..]) + KeepNameChars(b));
      assert KeepNameChars(a) == h + KeepNameChars(a[1..]);
    }
  }

  /** No whitespace and no comma in w from index i on. */
  predicate PlainFrom(w: string, i: nat)
    decreases |w| - i
  {
    i >= |w| || (!IsSpace(w[i]) && w[i] != ',' && PlainFrom(w, i + 1))
  }

  lemma {:induction false} PlainFromAll(w: string, i: nat)
    requires PlainFrom(w, i)
    ensures forall k :: i <= k < |w| ==> !IsSpace(w[k]) && w[k] != ','
    decreases |w| - i
  {
    if i < |w| {
      PlainFromAll(w, i + 1);
    }
  }

  /** A word of a name key: not empty, without whitespace or comma. */
  predicate Word(w: string)
  {
    w != [] && PlainFrom(w, 0)
  }

  lemma WordToken(w: string)
    requires Word(w)
    ensures Token(w) && ',' !in w
  {
    PlainFromAll(w, 0);
  }

  // =====================================================================
  // Titles

  /** From index i on, every c follows a word character: no title that
    * begins with c can start at a word boundary there. */
  predicate Unstarted(s: string, c: char, i: nat)
    decreases |s| - i
  {
    i >= |s| || ((s[i] != c || (i > 0 && IsWordChar(s[i - 1]))) && Unstarted(s, c, i + 1))
  }

  /** A title that cannot start anywhere from i on removes nothing there. */
  lemma {:induction false} RemoveTitleUnstarted(s: string, t: Title, i: nat)
    requires i <= |s| && t.literal != [] && Unstarted(s, t.literal[0], i)
    ensures RemoveTitle(s, t, i) == s[i..]
    decreases |s| - i
  {
    if i < |s| {
      assert TitleMatchEnd(s, t, i).None? by {
        if OccursAt(s, t.literal, i) {
          assert s[i] == s[i..i + |t.literal|][0];
        }
      }
      RemoveTitleUnstarted(s, t, i + 1);
      assert s[i..] == [s[i]] + s[i + 1..];
    }
  }

  /** Every title begins with d, p or m. */
  lemma TitleInitials()
    ensures forall t :: t in Titles ==> t.literal != [] && t.literal[0] in "dpm"
  {
  }

  /** A text in which no d, p or m begins a word passes the titles untouched. */
  lemma {:induction false} RemoveTitlesKeep(s: string, ts: seq<Title>)
    requires forall t :: t in ts ==> t.literal != [] && t.literal[0] in "dpm"
    requires Unstarted(s, 'd', 0) && Unstarted(s, 'p', 0) && Unstarted(s, 'm', 0)
    ensures RemoveTitles(s, ts) == s
  {
    if ts != [] {
      assert ts[0] in ts;
      RemoveTitleUnstarted(s, ts[0], 0);
      assert s[0..] == s;
      assert forall t :: t in ts[1..] ==> t in ts;
      RemoveTitlesKeep(s, ts[1..]);
    }
  }

  /** The titles from the n-th on, when none of them can start anywhere. */
  lemma RemoveLaterTitles(s: string, n: nat)
    requires n <= |Titles|
    requires Unstarted(s, 'd', 0) && Unstarted(s, 'p', 0) && Unstarted(s, 'm', 0)
    ensures RemoveTitles(s, Titles[n..]) == s
  {
    TitleInitials();
    assert forall t :: t in Titles[n..] ==> t in Titles;
    RemoveTitlesKeep(s, Titles[n..]);
  }

  /** One step of the titles loop: the n-th title, then the rest. */
  lemma RemoveTitlesStep(s: string, n: nat)
    requires n < |Titles|
    ensures RemoveTitles(s, Titles[n..]) == RemoveTitles(RemoveTitle(s, Titles[n], 0), Titles[n + 1..])
  {
    TitleInitials();
    assert Titles[n..][0] == Titles[n] && Titles[n..][1..] == Titles[n + 1..];
  }

  /** A title matched at the start and unable to start again removes just
    * that match. */
  lemma TitleAtStart(s: string, t: Title, e: nat, rest: string)
    requires t.literal != [] && e <= |s| && TitleMatchEnd(s, t, 0) == Some(e)
    requires Unstarted(s, t.literal[0], e) && s[e..] == rest
    ensures RemoveTitle(s, t, 0) == rest
  {
    RemoveTitleUnstarted(s, t, e);
  }

  /** The n-th title, which cannot start at index 0, removes nothing. */
  lemma TitleSkipped(s: string, n: nat, c: char)
    requires n < |Titles| && Titles[n].literal != [] && Titles[n].literal[0] == c && Unstarted(s, c, 0)
    ensures RemoveTitles(s, Titles[n..]) == RemoveTitles(s, Titles[n + 1..])
  {
    RemoveTitlesStep(s, n);
    RemoveTitleUnstarted(s, Titles[n], 0);
    assert s[0..] == s;
  }

  // =====================================================================
  // The stages around the titles

  /** Transliteration, lower-casing and strip on a Latin name whose lower
    * case has no outer whitespace. */
  lemma Prepared(name: string, lowered: string)
    requires name != [] && LatinFrom(name, 0) && LowersFrom(name, lowered, 0) && Stripped(lowered)
    ensures NormalizeProfessorName(name) == NormalizeLowered(lowered)
  {
    TransliterateLatin(name, 0);
    assert name[0..] == name;
    LowerOf(name, lowered);
    StripIdempotent(lowered);
  }

  /** Two words joined by one blank. */
  lemma JoinPair(x: string, y: string)
    ensures Join(" ", [x, y]) == x + " " + y
  {
    assert [x, y][1..] == [y];
  }

  lemma AliasPair(x: string, y: string)
    ensures AliasAll([x, y]) == [Alias(x), Alias(y)]
  {
  }

  /** Collapsing two words joined by one blank changes nothing. */
  lemma CollapsePair(x: string, y: string)
    requires Word(x) && Word(y)
    ensures Collapse(x + " " + y) == x + " " + y
  {
    WordToken(x);
    WordToken(y);
    JoinPair(x, y);
    SplitJoin([x, y]);
  }

  /** Two comma-free words joined by one blank form a key the swap and the
    * final strip leave alone. */
  lemma FinalPair(x: string, y: string)
    requires Word(x) && Word(y)
    ensures Strip(SwapAtComma(x + " " + y)) == x + " " + y
  {
    WordToken(x);
    WordToken(y);
    var key := x + " " + y;
    JoinPair(x, y);
    assert ',' !in key;
    assert IndexOf(key, ',') == |key|;
    JoinTokensCollapsed([x, y]);
    StripIdempotent(key);
  }

  /** When the text after the titles has no parenthesis and filters to two
    * words, the key is the two aliased words. */
  lemma AfterTitles(s: string, r: string, a: string, b: string, key: string)
    requires RemoveTitles(s, Titles) == r
    requires '(' !in r && KeepNameChars(r) == a + " " + b
    requires Word(a) && Word(b) && Word(Alias(a)) && Word(Alias(b))
    requires key == Alias(a) + " " + Alias(b)
    ensures NormalizeLowered(s) == key
  {
    RemoveParentheticalLacking(r);
    var collapsed := a + " " + b;
    CollapsePair(a, b);
    WordToken(a);
    WordToken(b);
    JoinPair(a, b);
    SplitJoin([a, b]);
    assert Split(collapsed) == [a, b];
    AliasPair(a, b);
    JoinPair(Alias(a), Alias(b));
    var aliased := Alias(a) + " " + Alias(b);
    assert Join(" ", AliasAll(Split(collapsed))) == aliased;
    FinalPair(Alias(a), Alias(b));
  }

  /** The alias table maps words to words. */
  lemma AliasWord(w: string)
    requires Word(w)
    ensures Word(Alias(w))
  {
    if w == "javed" {
      assert Word("javad");
    }
  }

  /** AfterTitles for a text that is two name words around one blank. */
  lemma AfterTitlesJoined(s: string, r: string, a: string, b: string, key: string)
    requires RemoveTitles(s, Titles) == r
    requires r == a + " " + b && '(' !in r
    requires NameCharsFrom(a, 0) && NameCharsFrom(b, 0)
    requires Word(a) && Word(b)
    requires key == Alias(a) + " " + Alias(b)
    ensures NormalizeLowered(s) == key
  {
    AliasWord(a);
    AliasWord(b);
    KeepNameCharsAll(a);
    KeepNameCharsAll(b);
    KeptJoin(a, b);
    AfterTitles(s, r, a, b, key);
  }

  /** AfterTitles for a text that is two name words with a punctuation mark
    * p and a blank between them. */
  lemma AfterTitlesDropped(s: string, r: string, a: string, p: char, b: string, key: string)
    requires RemoveTitles(s, Titles) == r
    requires r == a + [p] + " " + b && '(' !in r && !IsNameChar(p)
    requires NameCharsFrom(a, 0) && NameCharsFrom(b, 0)
    requires Word(a) && Word(b)
    requires key == Alias(a) + " " + Alias(b)
    ensures NormalizeLowered(s) == key
  {
    AliasWord(a);
    AliasWord(b);
    KeepNameCharsAll(a);
    KeepNameCharsAll(b);
    KeptDropped(a, p, b);
    AfterTitles(s, r, a, b, key);
  }

  // =====================================================================
  // The examples
  //
  // Each example is split into one small lemma per stage (the lower-cased
  // name, the titles, the character filter, the words), and the example
  // itself chains them through AfterTitles.

  // ----- where no title can start

  lemma EssorFreeD()
    ensures Unstarted("essor x", 'd', 0)
  {
  }

  lemma EssorFreeP()
    ensures Unstarted("essor x", 'p', 0)
  {
  }

  lemma EssorFreeM()
    ensures Unstarted("essor x", 'm', 0)
  {
  }

  lemma SDotFreeD()
    ensures Unstarted("s. smith", 'd', 0)
  {
  }

  lemma SDotFreeP()
    ensures Unstarted("s. smith", 'p', 0)
  {
  }

  lemma SDotFreeM()
    ensures Unstarted("s. smith", 'm', 0)
  {
  }

  lemma JohnSmithFreeD()
    ensures Unstarted("john smith", 'd', 0)
  {
  }

  lemma JohnSmithFreeP()
    ensures Unstarted("john smith", 'p', 0)
  {
  }

  lemma JohnSmithFreeM()
    ensures Unstarted("john smith", 'm', 0)
  {
  }

  lemma JavedFreeD()
    ensures Unstarted("javed rahimov", 'd', 0)
  {
  }

  lemma JavedFreeP()
    ensures Unstarted("javed rahimov", 'p', 0)
  {
  }

  lemma JavedFreeM()
    ensures Unstarted("javed rahimov", 'm', 0)
  {
  }

  lemma JavadFreeD()
    ensures Unstarted("javad rahimov", 'd', 0)
  {
  }

  lemma JavadFreeP()
    ensures Unstarted("javad rahimov", 'p', 0)
  {
  }

  lemma JavadFreeM()
    ensures Unstarted("javad rahimov", 'm', 0)
  {
  }

  lemma CommaFreeD()
    ensures Unstarted("smith, john", 'd', 0)
  {
  }

  lemma CommaFreeP()
    ensures Unstarted("smith, john", 'p', 0)
  {
  }

  lemma CommaFreeM()
    ensures Unstarted("smith, john", 'm', 0)
  {
  }

  lemma ProfessorFreeD()
    ensures Unstarted("professor x", 'd', 0)
  {
  }

  lemma MrsFreeD()
    ensures Unstarted("mrs. smith", 'd', 0)
  {
  }

  lemma MrsFreeP()
    ensures Unstarted("mrs. smith", 'p', 0)
  {
  }

  /** A text in which no title can start is left alone by the title loop. */
  lemma NoTitles(s: string)
    requires Unstarted(s, 'd', 0) && Unstarted(s, 'p', 0) && Unstarted(s, 'm', 0)
    ensures RemoveTitles(s, Titles) == s
  {
    RemoveLaterTitles(s, 0);
    assert Titles[0..] == Titles;
  }

  /** The filter keeps a blank after kept text. */
  lemma KeptBlank(a: string)
    requires KeepNameChars(a) == a
    ensures KeepNameChars(a + " ") == a + " "
  {
    KeepNameCharsAppend(a, " ");
    assert KeepNameChars(" ") == " ";
  }

  /** The filter drops a punctuation mark p after kept text. */
  lemma KeptMark(a: string, p: char)
    requires KeepNameChars(a) == a && !IsNameChar(p)
    ensures KeepNameChars(a + [p]) == a
  {
    KeepNameCharsAppend(a, [p]);
    assert KeepNameChars([p]) == [];
  }

  /** The filter drops a punctuation mark p and keeps the blank after it. */
  lemma KeptMarkBlank(a: string, p: char)
    requires KeepNameChars(a) == a && !IsNameChar(p)
    ensures KeepNameChars(a + [p] + " ") == a + " "
  {
    KeepNameCharsAppend(a + [p], " ");
    KeptMark(a, p);
    assert KeepNameChars(" ") == " ";
  }

  /** The filter keeps two kept words around one blank. */
  lemma KeptJoin(a: string, b: string)
    requires KeepNameChars(a) == a && KeepNameChars(b) == b
    ensures KeepNameChars(a + " " + b) == a + " " + b
  {
    KeepNameCharsAppend(a + " ", b);
    KeptBlank(a);
  }

  /** The filter drops a punctuation mark p after the first word. */
  lemma KeptDropped(a: string, p: char, b: string)
    requires KeepNameChars(a) == a && !IsNameChar(p) && KeepNameChars(b) == b
    ensures KeepNameChars(a + [p] + " " + b) == a + " " + b
  {
    KeepNameCharsAppend(a + [p] + " ", b);
    KeptMarkBlank(a, p);
  }

  // ----- "Professor X"

  lemma ProfessorLowered()
    ensures NormalizeProfessorName("Professor X") == NormalizeLowered("professor x")
  {
    Prepared("Professor X", "professor x");
  }

  /** "prof" (the second title) matches at the start of "professor". */
  lemma ProfessorRestUnstarted()
    ensures Unstarted("professor x", 'p', 4)
  {
  }

  lemma ProfessorProfMatch()
    ensures RemoveTitle("professor x", Titles[1], 0) == "essor x"
  {
    assert TitleMatchEnd("professor x", Titles[1], 0) == Some(4);
    ProfessorRestUnstarted();
    assert Titles[1].literal[0] == 'p';
    assert "professor x"[4..] == "essor x";
    TitleAtStart("professor x", Titles[1], 4, "essor x");
  }

  lemma ProfessorNoDr()
    ensures RemoveTitles("professor x", Titles) == RemoveTitles("professor x", Titles[1..])
  {
    assert Titles[0..] == Titles;
    ProfessorFreeD();
    TitleSkipped("professor x", 0, 'd');
  }

  lemma ProfessorProf()
    ensures RemoveTitles("professor x", Titles[1..]) == RemoveTitles("essor x", Titles[2..])
  {
    RemoveTitlesStep("professor x", 1);
    ProfessorProfMatch();
  }

  lemma EssorRest()
    ensures RemoveTitles("essor x", Titles[2..]) == "essor x"
  {
    EssorFreeD();
    EssorFreeP();
    EssorFreeM();
    RemoveLaterTitles("essor x", 2);
  }

  lemma ProfessorTitles()
    ensures RemoveTitles("professor x", Titles) == "essor x"
  {
    ProfessorNoDr();
    ProfessorProf();
    EssorRest();
  }

  lemma EssorSplit()
    ensures "essor x" == "essor" + " " + "x"
  {
  }

  lemma EssorKey()
    ensures "essor x" == Alias("essor") + " " + Alias("x")
  {
  }

  lemma EssorWords()
    ensures '(' !in "essor x" && Word("essor") && Word("x")
    ensures NameCharsFrom("essor", 0) && NameCharsFrom("x", 0)
  {
  }

  lemma ProfessorAfter()
    ensures NormalizeLowered("professor x") == "essor x"
  {
    ProfessorTitles();
    EssorSplit();
    EssorKey();
    EssorWords();
    AfterTitlesJoined("professor x", "essor x", "essor", "x", "essor x");
  }

  /** "Professor X": the "prof" title matches at the start of "professor"
    * and leaves "essor x"; the longer "professor" title comes later in the
    * loop and never sees the word whole. */
  lemma ProfessorPrefix()
    ensures NormalizeProfessorName("Professor X") == "essor x"
  {
    ProfessorLowered();
    ProfessorAfter();
  }

  // ----- "Mrs. Smith"

  lemma MrsLowered()
    ensures NormalizeProfessorName("Mrs. Smith") == NormalizeLowered("mrs. smith")
  {
    Prepared("Mrs. Smith", "mrs. smith");
  }

  /** "mr" (the fourth title) matches at the start of "mrs". */
  lemma MrsRestUnstarted()
    ensures Unstarted("mrs. smith", 'm', 2)
  {
  }

  lemma MrsMrMatch()
    ensures RemoveTitle("mrs. smith", Titles[3], 0) == "s. smith"
  {
    assert TitleMatchEnd("mrs. smith", Titles[3], 0) == Some(2);
    MrsRestUnstarted();
    assert Titles[3].literal[0] == 'm';
    assert "mrs. smith"[2..] == "s. smith";
    TitleAtStart("mrs. smith", Titles[3], 2, "s. smith");
  }

  lemma MrsNoDr()
    ensures RemoveTitles("mrs. smith", Titles) == RemoveTitles("mrs. smith", Titles[1..])
  {
    assert Titles[0..] == Titles;
    MrsFreeD();
    TitleSkipped("mrs. smith", 0, 'd');
  }

  lemma MrsNoProf()
    ensures RemoveTitles("mrs. smith", Titles[1..]) == RemoveTitles("mrs. smith", Titles[3..])
  {
    MrsFreeP();
    TitleSkipped("mrs. smith", 1, 'p');
    MrsFreeP();
    TitleSkipped("mrs. smith", 2, 'p');
  }

  lemma MrsMr()
    ensures RemoveTitles("mrs. smith", Titles[3..]) == RemoveTitles("s. smith", Titles[4..])
  {
    RemoveTitlesStep("mrs. smith", 3);
    MrsMrMatch();
  }

  lemma SDotRest()
    ensures RemoveTitles("s. smith", Titles[4..]) == "s. smith"
  {
    SDotFreeD();
    SDotFreeP();
    SDotFreeM();
    RemoveLaterTitles("s. smith", 4);
  }

  lemma MrsTitles()
    ensures RemoveTitles("mrs. smith", Titles) == "s. smith"
  {
    MrsNoDr();
    MrsNoProf();
    MrsMr();
    SDotRest();
  }

  lemma SDotMark()
    ensures !IsNameChar('.')
  {
  }

  lemma SDotSplit()
    ensures "s. smith" == "s" + ['.'] + " " + "smith"
  {
  }

  lemma SDotKey()
    ensures "s smith" == Alias("s") + " " + Alias("smith")
  {
  }

  lemma SDotWords()
    ensures '(' !in "s. smith" && Word("s") && Word("smith")
    ensures NameCharsFrom("s", 0) && NameCharsFrom("smith", 0)
  {
  }

  lemma MrsAfter()
    ensures NormalizeLowered("mrs. smith") == "s smith"
  {
    MrsTitles();
    SDotMark();
    SDotSplit();
    SDotKey();
    SDotWords();
    AfterTitlesDropped("mrs. smith", "s. smith", "s", '.', "smith", "s smith");
  }

  /** "Mrs. Smith": "mr" is removed from the front of "mrs" before the
    * "mrs" title is tried, so its "s" stays in the key. */
  lemma MrsPrefix()
    ensures NormalizeProfessorName("Mrs. Smith") == "s smith"
  {
    MrsLowered();
    MrsAfter();
  }

  // ----- "Dr. John Smith" and "john smith"

  lemma DoctorLowered()
    ensures NormalizeProfessorName("Dr. John Smith") == NormalizeLowered("dr. john smith")
  {
    Prepared("Dr. John Smith", "dr. john smith");
  }

  /** The one blank after "dr." is the whitespace run the title pattern takes. */
  lemma DoctorBlank()
    ensures SpaceRun("dr. john smith"[3..]) == 1
  {
    assert "dr. john smith"[3..] == " john smith";
    assert " john smith"[1..] == "john smith";
  }

  /** "dr", its dot and the blank after it match at the start. */
  lemma DoctorDrEnd()
    ensures TitleMatchEnd("dr. john smith", Titles[0], 0) == Some(4)
  {
    DoctorBlank();
  }

  lemma DoctorRestUnstarted()
    ensures Unstarted("dr. john smith", 'd', 4)
  {
  }

  lemma DoctorDrMatch()
    ensures RemoveTitle("dr. john smith", Titles[0], 0) == "john smith"
  {
    DoctorDrEnd();
    DoctorRestUnstarted();
    assert Titles[0].literal[0] == 'd';
    assert "dr. john smith"[4..] == "john smith";
    TitleAtStart("dr. john smith", Titles[0], 4, "john smith");
  }

  lemma DoctorDr()
    ensures RemoveTitles("dr. john smith", Titles) == RemoveTitles("john smith", Titles[1..])
  {
    assert Titles[0..] == Titles;
    RemoveTitlesStep("dr. john smith", 0);
    DoctorDrMatch();
  }

  lemma JohnSmithRest()
    ensures RemoveTitles("john smith", Titles[1..]) == "john smith"
  {
    JohnSmithFreeD();
    JohnSmithFreeP();
    JohnSmithFreeM();
    RemoveLaterTitles("john smith", 1);
  }

  lemma DoctorTitles()
    ensures RemoveTitles("dr. john smith", Titles) == "john smith"
  {
    DoctorDr();
    JohnSmithRest();
  }

  lemma JohnSmithSplit()
    ensures "john smith" == "john" + " " + "smith"
  {
  }

  lemma JohnSmithKey()
    ensures "john smith" == Alias("john") + " " + Alias("smith")
  {
  }

  lemma JohnSmithWords()
    ensures '(' !in "john smith" && Word("john") && Word("smith")
    ensures NameCharsFrom("john", 0) && NameCharsFrom("smith", 0)
  {
  }

  lemma DoctorAfter()
    ensures NormalizeLowered("dr. john smith") == "john smith"
  {
    DoctorTitles();
    JohnSmithSplit();
    JohnSmithKey();
    JohnSmithWords();
    AfterTitlesJoined("dr. john smith", "john smith", "john", "smith", "john smith");
  }

  /** "Dr. John Smith": the title, its dot and the blank after it go. */
  lemma DoctorTitle()
    ensures NormalizeProfessorName("Dr. John Smith") == "john smith"
  {
    DoctorLowered();
    DoctorAfter();
  }

  lemma PlainLowered()
    ensures NormalizeProfessorName("john smith") == NormalizeLowered("john smith")
  {
    Prepared("john smith", "john smith");
  }

  lemma PlainTitles()
    ensures RemoveTitles("john smith", Titles) == "john smith"
  {
    JohnSmithFreeD();
    JohnSmithFreeP();
    JohnSmithFreeM();
    NoTitles("john smith");
  }

  lemma PlainAfter()
    ensures NormalizeLowered("john smith") == "john smith"
  {
    PlainTitles();
    JohnSmithSplit();
    JohnSmithKey();
    JohnSmithWords();
    AfterTitlesJoined("john smith", "john smith", "john", "smith", "john smith");
  }

  /** A plain two-word name without titles or punctuation is its own key. */
  lemma PlainName()
    ensures NormalizeProfessorName("john smith") == "john smith"
  {
    PlainLowered();
    PlainAfter();
  }

  /** A title does not change the key: "Dr. John Smith" and "john smith"
    * are the same professor. */
  lemma TitleIgnored()
    ensures NormalizeProfessorName("Dr. John Smith") == NormalizeProfessorName("john smith")
  {
    DoctorTitle();
    PlainName();
  }

  // ----- "Javed Rahimov" and "javad rahimov"

  lemma JavedLowered()
    ensures NormalizeProfessorName("Javed Rahimov") == NormalizeLowered("javed rahimov")
  {
    Prepared("Javed Rahimov", "javed rahimov");
  }

  lemma JavedTitles()
    ensures RemoveTitles("javed rahimov", Titles) == "javed rahimov"
  {
    JavedFreeD();
    JavedFreeP();
    JavedFreeM();
    NoTitles("javed rahimov");
  }

  lemma JavedSplit()
    ensures "javed rahimov" == "javed" + " " + "rahimov"
  {
  }

  lemma JavedKey()
    ensures "javad rahimov" == Alias("javed") + " " + Alias("rahimov")
  {
  }

  lemma JavedWords()
    ensures '(' !in "javed rahimov" && Word("javed") && Word("rahimov")
    ensures NameCharsFrom("javed", 0) && NameCharsFrom("rahimov", 0)
  {
  }

  lemma JavedAfter()
    ensures NormalizeLowered("javed rahimov") == "javad rahimov"
  {
    JavedTitles();
    JavedSplit();
    JavedKey();
    JavedWords();
    AfterTitlesJoined("javed rahimov", "javed rahimov", "javed", "rahimov", "javad rahimov");
  }

  lemma JavedSpelling()
    ensures NormalizeProfessorName("Javed Rahimov") == "javad rahimov"
  {
    JavedLowered();
    JavedAfter();
  }

  lemma JavadLowered()
    ensures NormalizeProfessorName("javad rahimov") == NormalizeLowered("javad rahimov")
  {
    Prepared("javad rahimov", "javad rahimov");
  }

  lemma JavadTitles()
    ensures RemoveTitles("javad rahimov", Titles) == "javad rahimov"
  {
    JavadFreeD();
    JavadFreeP();
    JavadFreeM();
    NoTitles("javad rahimov");
  }

  lemma JavadSplit()
    ensures "javad rahimov" == "javad" + " " + "rahimov"
  {
  }

  lemma JavadKey()
    ensures "javad rahimov" == Alias("javad") + " " + Alias("rahimov")
  {
  }

  lemma JavadWords()
    ensures '(' !in "javad rahimov" && Word("javad") && Word("rahimov")
    ensures NameCharsFrom("javad", 0) && NameCharsFrom("rahimov", 0)
  {
  }

  lemma JavadAfter()
    ensures NormalizeLowered("javad rahimov") == "javad rahimov"
  {
    JavadTitles();
    JavadSplit();
    JavadKey();
    JavadWords();
    AfterTitlesJoined("javad rahimov", "javad rahimov", "javad", "rahimov", "javad rahimov");
  }

  lemma JavadSpelling()
    ensures NormalizeProfessorName("javad rahimov") == "javad rahimov"
  {
    JavadLowered();
    JavadAfter();
  }

  /** "Javed" is spelled "javad" in the key, so both spellings are one
    * professor. */
  lemma JavedAlias()
    ensures NormalizeProfessorName("Javed Rahimov") == NormalizeProfessorName("javad rahimov")
  {
    JavedSpelling();
    JavadSpelling();
  }

  // ----- "Smith, John"

  lemma CommaLowered()
    ensures NormalizeProfessorName("Smith, John") == NormalizeLowered("smith, john")
  {
    Prepared("Smith, John", "smith, john");
  }

  lemma CommaTitles()
    ensures RemoveTitles("smith, john", Titles) == "smith, john"
  {
    CommaFreeD();
    CommaFreeP();
    CommaFreeM();
    NoTitles("smith, john");
  }

  lemma CommaMark()
    ensures !IsNameChar(',')
  {
  }

  lemma CommaSplit()
    ensures "smith, john" == "smith" + [','] + " " + "john"
  {
  }

  lemma CommaKey()
    ensures "smith john" == Alias("smith") + " " + Alias("john")
  {
  }

  lemma CommaWords()
    ensures '(' !in "smith, john" && Word("smith") && Word("john")
    ensures NameCharsFrom("smith", 0) && NameCharsFrom("john", 0)
  {
  }

  lemma CommaAfter()
    ensures NormalizeLowered("smith, john") == "smith john"
  {
    CommaTitles();
    CommaMark();
    CommaSplit();
    CommaKey();
    CommaWords();
    AfterTitlesDropped("smith, john", "smith, john", "smith", ',', "john", "smith john");
  }

  /** "Smith, John": the comma is filtered out with the other punctuation
    * before the "Last, First" swap looks for it, so the order stays. */
  lemma CommaOrderKept()
    ensures NormalizeProfessorName("Smith, John") == "smith john"
  {
    CommaLowered();
    CommaAfter();
  }
}
