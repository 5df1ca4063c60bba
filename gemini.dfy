// services/gemini_service.py: what the service does with the language
// model's replies. The model itself is an oracle: a call either fails, or
// returns text that the JSON parser could not read, or returns a parsed JSON
// value (Reply). Normalisation of an extraction, the two batch cleaners,
// the truncated-JSON repair, code-fence stripping and model-name matching
// are modelled on top of it.
module Gemini {
  import opened Wrappers
  import opened Strings
  import opened JsonValues
  import opened TextProcessing

  // =====================================================================
  // The extraction record

  /** The fifteen keys of an extraction result. */
  datatype Field =
    | IsFeedback | ProfessorName | ProfessorNameNormalized | CourseCode
    | CourseName | Semester | ExplicitRating | InferredRating | Sentiment
    | Aspects | Strengths | Weaknesses | Confidence | Language | IsAppropriate

  /** The keys in the order of _empty_extraction_result. */
  const Fields: seq<Field> := [
    IsFeedback, ProfessorName, ProfessorNameNormalized, CourseCode,
    CourseName, Semester, ExplicitRating, InferredRating, Sentiment,
    Aspects, Strengths, Weaknesses, Confidence, Language, IsAppropriate]

  function FieldIndex(f: Field): nat
  {
    match f
    case IsFeedback => 0 case ProfessorName => 1 case ProfessorNameNormalized => 2
    case CourseCode => 3 case CourseName => 4 case Semester => 5
    case ExplicitRating => 6 case InferredRating => 7 case Sentiment => 8
    case Aspects => 9 case Strengths => 10 case Weaknesses => 11
    case Confidence => 12 case Language => 13 case IsAppropriate => 14
  }

  lemma FieldsIndexed()
    ensures |Fields| == 15
    ensures forall i :: 0 <= i < 15 ==> FieldIndex(Fields[i]) == i
    ensures forall f :: FieldIndex(f) < 15 && Fields[FieldIndex(f)] == f
    ensures forall f :: f in Fields
  {
    forall f ensures f in Fields {
      assert Fields[FieldIndex(f)] == f;
    }
  }

  /** The dictionary key of a field. */
  function FieldName(f: Field): string
  {
    match f
    case IsFeedback => "is_feedback"
    case ProfessorName => "professor_name"
    case ProfessorNameNormalized => "professor_name_normalized"
    case CourseCode => "course_code"
    case CourseName => "course_name"
    case Semester => "semester"
    case ExplicitRating => "explicit_rating"
    case InferredRating => "inferred_rating"
    case Sentiment => "sentiment"
    case Aspects => "aspects"
    case Strengths => "strengths"
    case Weaknesses => "weaknesses"
    case Confidence => "confidence"
    case Language => "language"
    case IsAppropriate => "is_appropriate"
  }

  /** Distinct fields have distinct keys. */
  lemma FieldNameInjective(f: Field, g: Field)
    requires FieldName(f) == FieldName(g)
    ensures f == g
  {
  }

  /** The value of each field in _empty_extraction_result. */
  function Default(f: Field): Json
  {
    match f
    case IsFeedback => JBool(false)
    case Aspects => JObj(map[])
    case Strengths => JArr([])
    case Weaknesses => JArr([])
    case Confidence => JReal(0.0)
    case IsAppropriate => JBool(true)
    case _ => JNull
  }

  /** An extraction result: the dictionary with exactly the fifteen keys of
    * _empty_extraction_result, one component per key. */
  datatype Extraction = Extraction(
    isFeedback: Json, professorName: Json, professorNameNormalized: Json,
    courseCode: Json, courseName: Json, semester: Json, explicitRating: Json,
    inferredRating: Json, sentiment: Json, aspects: Json, strengths: Json,
    weaknesses: Json, confidence: Json, language: Json, isAppropriate: Json)

  /** e[key] */
  function At(e: Extraction, f: Field): Json
  {
    match f
    case IsFeedback => e.isFeedback
    case ProfessorName => e.professorName
    case ProfessorNameNormalized => e.professorNameNormalized
    case CourseCode => e.courseCode
    case CourseName => e.courseName
    case Semester => e.semester
    case ExplicitRating => e.explicitRating
    case InferredRating => e.inferredRating
    case Sentiment => e.sentiment
    case Aspects => e.aspects
    case Strengths => e.strengths
    case Weaknesses => e.weaknesses
    case Confidence => e.confidence
    case Language => e.language
    case IsAppropriate => e.isAppropriate
  }

  /** e[key] = v */
  function With(e: Extraction, f: Field, v: Json): Extraction
  {
    match f
    case IsFeedback => e.(isFeedback := v)
    case ProfessorName => e.(professorName := v)
    case ProfessorNameNormalized => e.(professorNameNormalized := v)
    case CourseCode => e.(courseCode := v)
    case CourseName => e.(courseName := v)
    case Semester => e.(semester := v)
    case ExplicitRating => e.(explicitRating := v)
    case InferredRating => e.(inferredRating := v)
    case Sentiment => e.(sentiment := v)
    case Aspects => e.(aspects := v)
    case Strengths => e.(strengths := v)
    case Weaknesses => e.(weaknesses := v)
    case Confidence => e.(confidence := v)
    case Language => e.(language := v)
    case IsAppropriate => e.(isAppropriate := v)
  }

  /** Setting a key changes that key and no other. */
  lemma WithAt(e: Extraction, f: Field, v: Json, g: Field)
    ensures At(With(e, f, v), g) == if g == f then v else At(e, g)
  {
    match f {
      case IsFeedback =>
      case ProfessorName =>
      case ProfessorNameNormalized =>
      case CourseCode =>
      case CourseName =>
      case Semester =>
      case ExplicitRating =>
      case InferredRating =>
      case Sentiment =>
      case Aspects =>
      case Strengths =>
      case Weaknesses =>
      case Confidence =>
      case Language =>
      case IsAppropriate =>
    }
  }

  /** Two extractions that agree on every key are equal. */
  lemma Extensional(a: Extraction, b: Extraction)
    requires forall f :: At(a, f) == At(b, f)
    ensures a == b
  {
    assert a.isFeedback == b.isFeedback by { assert At(a, IsFeedback) == At(b, IsFeedback); }
    assert a.professorName == b.professorName by { assert At(a, ProfessorName) == At(b, ProfessorName); }
    assert a.professorNameNormalized == b.professorNameNormalized by { assert At(a, ProfessorNameNormalized) == At(b, ProfessorNameNormalized); }
    assert a.courseCode == b.courseCode by { assert At(a, CourseCode) == At(b, CourseCode); }
    assert a.courseName == b.courseName by { assert At(a, CourseName) == At(b, CourseName); }
    assert a.semester == b.semester by { assert At(a, Semester) == At(b, Semester); }
    assert a.explicitRating == b.explicitRating by { assert At(a, ExplicitRating) == At(b, ExplicitRating); }
    assert a.inferredRating == b.inferredRating by { assert At(a, InferredRating) == At(b, InferredRating); }
    assert a.sentiment == b.sentiment by { assert At(a, Sentiment) == At(b, Sentiment); }
    assert a.aspects == b.aspects by { assert At(a, Aspects) == At(b, Aspects); }
    assert a.strengths == b.strengths by { assert At(a, Strengths) == At(b, Strengths); }
    assert a.weaknesses == b.weaknesses by { assert At(a, Weaknesses) == At(b, Weaknesses); }
    assert a.confidence == b.confidence by { assert At(a, Confidence) == At(b, Confidence); }
    assert a.language == b.language by { assert At(a, Language) == At(b, Language); }
    assert a.isAppropriate == b.isAppropriate by { assert At(a, IsAppropriate) == At(b, IsAppropriate); }
  }

  /** _empty_extraction_result. */
  function Empty(): (e: Extraction)
    ensures forall f :: At(e, f) == Default(f)
  {
    Extraction(JBool(false), JNull, JNull, JNull, JNull, JNull, JNull, JNull, JNull,
      JObj(map[]), JArr([]), JArr([]), JReal(0.0), JNull, JBool(true))
  }

  // =====================================================================
  // _normalize_extraction_result

  /** The merge step: the input's value when present and not None, else the default. */
  function Merged(result: map<string, Json>, f: Field): Json
  {
    var k := FieldName(f);
    if k in result && result[k] != JNull then result[k] else Default(f)
  }

  /** max(1.0, min(5.0, float(v))) for a rating that is not None; None when
    * float() raises. */
  function ClampRating(v: Json): Json
  {
    if v == JNull then JNull
    else
      match ToFloat(v)
      case None => JNull
      case Some(x) => JReal(Clamp(1.0, 5.0, x))
  }

  /** max(0.0, min(1.0, float(v))), or 0.0 when float() raises. */
  function ClampConfidence(v: Json): Json
  {
    match ToFloat(v)
    case None => JReal(0.0)
    case Some(x) => JReal(Clamp(0.0, 1.0, x))
  }

  /** A list stays, anything else becomes []. */
  function AsList(v: Json): Json
  {
    if v.JArr? then v else JArr([])
  }

  /** A dictionary stays, anything else becomes {}. */
  function AsDict(v: Json): Json
  {
    if v.JObj? then v else JObj(map[])
  }

  /** The clean-up step applied to one merged field. */
  function Tidy(f: Field, v: Json): Json
  {
    match f
    case ExplicitRating => ClampRating(v)
    case InferredRating => ClampRating(v)
    case Confidence => ClampConfidence(v)
    case Strengths => AsList(v)
    case Weaknesses => AsList(v)
    case Aspects => AsDict(v)
    case _ => v
  }

  /** The dictionary after the merge loop: every key holds the merged value. */
  function Merge(result: map<string, Json>): Extraction
  {
    Extraction(
      Merged(result, IsFeedback), Merged(result, ProfessorName),
      Merged(result, ProfessorNameNormalized), Merged(result, CourseCode),
      Merged(result, CourseName), Merged(result, Semester),
      Merged(result, ExplicitRating), Merged(result, InferredRating),
      Merged(result, Sentiment), Merged(result, Aspects),
      Merged(result, Strengths), Merged(result, Weaknesses),
      Merged(result, Confidence), Merged(result, Language),
      Merged(result, IsAppropriate))
  }

  /** The clean-up steps after the merge. */
  function Tidied(e: Extraction): Extraction
  {
    e.(explicitRating := ClampRating(e.explicitRating),
       inferredRating := ClampRating(e.inferredRating),
       confidence := ClampConfidence(e.confidence),
       strengths := AsList(e.strengths), weaknesses := AsList(e.weaknesses),
       aspects := AsDict(e.aspects))
  }

  /** The result of _normalize_extraction_result on a dictionary. */
  function Normalized(result: map<string, Json>): Extraction
  {
    Tidied(Merge(result))
  }

  /** Every key of the normalised result is the merged input value put
    * through that key's clean-up step. */
  lemma NormalizedAt(result: map<string, Json>, f: Field)
    ensures At(Normalized(result), f) == Tidy(f, Merged(result, f))
  {
  }

  /** One round of the merge loop. */
  function MergeStep(e: Extraction, result: map<string, Json>, f: Field): Extraction
  {
    var k := FieldName(f);
    if k in result && result[k] != JNull then With(e, f, result[k]) else e
  }

  /** The dictionary after the first n rounds of the merge loop. */
  function MergePrefix(result: map<string, Json>, n: nat): Extraction
    requires n <= |Fields|
  {
    if n == 0 then Empty() else MergeStep(MergePrefix(result, n - 1), result, Fields[n - 1])
  }

  /** One merge round sets its own key to the merged value when the input
    * has one and leaves every other key alone. */
  lemma MergeStepAt(e: Extraction, result: map<string, Json>, f: Field, g: Field)
    requires g == f ==> At(e, f) == Default(f)
    ensures At(MergeStep(e, result, f), g) == if g == f then Merged(result, f) else At(e, g)
  {
    var k := FieldName(f);
    if k in result && result[k] != JNull {
      WithAt(e, f, result[k], g);
    }
  }

  lemma {:induction false} MergePrefixAt(result: map<string, Json>, n: nat, f: Field)
    requires n <= |Fields|
    ensures At(MergePrefix(result, n), f) == if FieldIndex(f) < n then Merged(result, f) else Default(f)
  {
    if n == 0 {
      assert MergePrefix(result, 0) == Empty();
    } else {
      var g := Fields[n - 1];
      assert FieldIndex(g) == n - 1 by { FieldsIndexed(); }
      MergePrefixAt(result, n - 1, f);
      MergePrefixAt(result, n - 1, g);
      MergeStepAt(MergePrefix(result, n - 1), result, g, f);
      if FieldIndex(f) == n - 1 {
        FieldIndexInjective(f, g);
      }
    }
  }

  lemma FieldIndexInjective(f: Field, g: Field)
    requires FieldIndex(f) == FieldIndex(g)
    ensures f == g
  {
  }

  lemma MergeAt(result: map<string, Json>, f: Field)
    ensures At(Merge(result), f) == Merged(result, f)
  {
  }

  /** After all fifteen rounds every key holds its merged value. */
  lemma MergeAll(result: map<string, Json>)
    ensures MergePrefix(result, |Fields|) == Merge(result)
  {
    FieldsIndexed();
    forall f ensures At(MergePrefix(result, |Fields|), f) == At(Merge(result), f) {
      MergePrefixAt(result, |Fields|, f);
      MergeAt(result, f);
    }
    Extensional(MergePrefix(result, |Fields|), Merge(result));
  }

  /** Writing back the value a key already holds changes nothing. */
  lemma WithSame(e: Extraction, f: Field)
    ensures With(e, f, At(e, f)) == e
  {
  }

  const RatingFields: seq<Field> := [ExplicitRating, InferredRating]
  const ListFields: seq<Field> := [Strengths, Weaknesses]

  /** One round of the rating loop: a rating that is not None is clamped. */
  function RatingStep(e: Extraction, k: Field): Extraction
  {
    if At(e, k) != JNull then With(e, k, ClampRating(At(e, k))) else e
  }

  /** One round of the list loop: a value that is not a list becomes []. */
  function ListStep(e: Extraction, k: Field): Extraction
  {
    if !At(e, k).JArr? then With(e, k, JArr([])) else e
  }

  /** The first n rounds of a loop running `step` over the keys ks. */
  function Rounds(e: Extraction, ks: seq<Field>, n: nat, step: (Extraction, Field) -> Extraction): Extraction
    requires n <= |ks|
  {
    if n == 0 then e else step(Rounds(e, ks, n - 1, step), ks[n - 1])
  }

  /** Both rating rounds clamp both ratings. */
  lemma RatingRounds(e: Extraction)
    ensures Rounds(e, RatingFields, 2, RatingStep)
         == e.(explicitRating := ClampRating(e.explicitRating), inferredRating := ClampRating(e.inferredRating))
  {
    assert Rounds(e, RatingFields, 0, RatingStep) == e;
    var e1 := Rounds(e, RatingFields, 1, RatingStep);
    assert e1 == RatingStep(e, ExplicitRating);
    assert e1 == e.(explicitRating := ClampRating(e.explicitRating)) by {
      RatingStepClamps(e, ExplicitRating);
    }
    assert Rounds(e, RatingFields, 2, RatingStep) == RatingStep(e1, InferredRating);
    RatingStepClamps(e1, InferredRating);
  }

  /** A rating round clamps its key (None stays None). */
  lemma RatingStepClamps(e: Extraction, k: Field)
    ensures RatingStep(e, k) == With(e, k, ClampRating(At(e, k)))
  {
    if At(e, k) == JNull {
      WithSame(e, k);
    }
  }

  /** Both list rounds coerce both lists. */
  lemma ListRounds(e: Extraction)
    ensures Rounds(e, ListFields, 2, ListStep)
         == e.(strengths := AsList(e.strengths), weaknesses := AsList(e.weaknesses))
  {
    assert Rounds(e, ListFields, 0, ListStep) == e;
    var e1 := Rounds(e, ListFields, 1, ListStep);
    assert e1 == ListStep(e, ListFields[0]);
    assert e1 == e.(strengths := AsList(e.strengths));
  }

  /** _normalize_extraction_result: start from the empty result, overwrite it
    * with every present, non-None input value, then clamp the ratings and
    * the confidence and coerce the lists and the aspects. */
  method NormalizeExtractionResult(result: map<string, Json>) returns (base: Extraction)
    ensures base == Normalized(result)
  {
    base := Empty();
    for i := 0 to |Fields|
      invariant base == MergePrefix(result, i)
    {
      var f := Fields[i];
      var name := FieldName(f);
      if name in result && result[name] != JNull {
        base := With(base, f, result[name]);
      }
    }
    MergeAll(result);
    ghost var merged := base;
    for i := 0 to |RatingFields|
      invariant base == Rounds(merged, RatingFields, i, RatingStep)
    {
      var k := RatingFields[i];
      if At(base, k) != JNull {
        match ToFloat(At(base, k)) {
          case Some(x) =>
            base := With(base, k, JReal(Clamp(1.0, 5.0, x)));
          case None =>
            base := With(base, k, JNull);
        }
      }
    }
    RatingRounds(merged);
    match ToFloat(base.confidence) {
      case Some(x) =>
        base := base.(confidence := JReal(Clamp(0.0, 1.0, x)));
      case None =>
        base := base.(confidence := JReal(0.0));
    }
    ghost var clamped := base;
    for i := 0 to |ListFields|
      invariant base == Rounds(clamped, ListFields, i, ListStep)
    {
      var k := ListFields[i];
      if !At(base, k).JArr? {
        base := With(base, k, JArr([]));
      }
    }
    ListRounds(clamped);
    if !base.aspects.JObj? {
      base := base.(aspects := JObj(map[]));
    }
    assert base == Tidied(merged);
  }

  // ----- properties of normalisation

  predicate RatingInRange(v: Json)
  {
    v == JNull || (v.JReal? && 1.0 <= v.r <= 5.0)
  }

  /** The shape every normalised extraction has. */
  predicate NormalForm(e: Extraction)
  {
    (forall f :: At(e, f) == JNull ==> Default(f) == JNull)
    && RatingInRange(e.explicitRating) && RatingInRange(e.inferredRating)
    && e.confidence.JReal? && 0.0 <= e.confidence.r <= 1.0
    && e.strengths.JArr? && e.weaknesses.JArr? && e.aspects.JObj?
  }

  /** Every normalised result has ratings within [1, 5] or None, a
    * confidence within [0, 1], lists and a dictionary where those are
    * expected, and None only where the default is None. */
  lemma NormalizedIsNormal(result: map<string, Json>)
    ensures NormalForm(Normalized(result))
  {
    var e := Normalized(result);
    forall f ensures At(e, f) == JNull ==> Default(f) == JNull {
      NormalizedAt(result, f);
    }
  }

  /** A key missing from the input, or None there, keeps its default; a
    * present value is kept for every field normalisation does not clean up,
    * and extra input keys play no part. */
  lemma NormalizedMerge(result: map<string, Json>, f: Field)
    ensures (FieldName(f) !in result || result[FieldName(f)] == JNull) ==> At(Normalized(result), f) == Default(f)
    ensures var k := FieldName(f);
            k in result && result[k] != JNull && Tidy(f, result[k]) == result[k] ==> At(Normalized(result), f) == result[k]
  {
    NormalizedAt(result, f);
  }

  /** A numeric rating is clamped into [1, 5]; a present rating float()
    * cannot convert becomes None. */
  lemma NormalizedRating(result: map<string, Json>, f: Field)
    requires f == ExplicitRating || f == InferredRating
    requires FieldName(f) in result && result[FieldName(f)] != JNull
    ensures ToFloat(result[FieldName(f)]).None? ==> At(Normalized(result), f) == JNull
    ensures ToFloat(result[FieldName(f)]).Some? ==>
      At(Normalized(result), f) == JReal(Clamp(1.0, 5.0, ToFloat(result[FieldName(f)]).value))
  {
    NormalizedAt(result, f);
  }

  /** The dictionary an extraction is (what a later normalisation reads). */
  function AsObject(e: Extraction): map<string, Json>
  {
    map[
      "is_feedback" := e.isFeedback, "professor_name" := e.professorName,
      "professor_name_normalized" := e.professorNameNormalized,
      "course_code" := e.courseCode, "course_name" := e.courseName,
      "semester" := e.semester, "explicit_rating" := e.explicitRating,
      "inferred_rating" := e.inferredRating, "sentiment" := e.sentiment,
      "aspects" := e.aspects, "strengths" := e.strengths,
      "weaknesses" := e.weaknesses, "confidence" := e.confidence,
      "language" := e.language, "is_appropriate" := e.isAppropriate]
  }

  /** The dictionary holds every key of the extraction with its value. */
  lemma AsObjectAt(e: Extraction, f: Field)
    ensures FieldName(f) in AsObject(e) && AsObject(e)[FieldName(f)] == At(e, f)
  {
    match f {
      case IsFeedback =>
      case ProfessorName =>
      case ProfessorNameNormalized =>
      case CourseCode =>
      case CourseName =>
      case Semester =>
      case ExplicitRating =>
      case InferredRating =>
      case Sentiment =>
      case Aspects =>
      case Strengths =>
      case Weaknesses =>
      case Confidence =>
      case Language =>
      case IsAppropriate =>
    }
  }

  /** A normal-form extraction is a fixed point of normalisation. */
  lemma NormalFormFixed(e: Extraction)
    requires NormalForm(e)
    ensures Normalized(AsObject(e)) == e
  {
    forall f ensures At(Normalized(AsObject(e)), f) == At(e, f) {
      NormalizedAt(AsObject(e), f);
      TidyFixed(e, f);
    }
    Extensional(Normalized(AsObject(e)), e);
  }

  lemma TidyFixed(e: Extraction, f: Field)
    requires NormalForm(e)
    ensures Tidy(f, Merged(AsObject(e), f)) == At(e, f)
  {
    AsObjectAt(e, f);
    assert Merged(AsObject(e), f) == At(e, f);
  }

  /** Normalising twice is normalising once. */
  lemma NormalizeIdempotent(result: map<string, Json>)
    ensures Normalized(AsObject(Normalized(result))) == Normalized(result)
  {
    NormalizedIsNormal(result);
    NormalFormFixed(Normalized(result));
  }

  /** The empty result is in normal form. */
  lemma EmptyIsNormal()
    ensures NormalForm(Empty())
  {
    var e := Empty();
    assert e.confidence == JReal(0.0);
  }

  // =====================================================================
  // extract_feedback: the fail-closed wrapper around the model

  /** What one model call produced: the call failed, or its text could not
    * be parsed as JSON, or it parsed to a value. */
  datatype Reply = GenerationFailed | Unparseable | Parsed(value: Json)

  /** A parsed reply put through normalisation: a dictionary is normalised;
    * any other value makes the normalisation find no key (or raise), which
    * ends in the empty result. */
  function FromParsed(v: Json): Extraction
  {
    if v.JObj? then Normalized(v.fields) else Empty()
  }

  /** extract_feedback on a message text, given the reply to the full prompt
    * and the reply the compact retry prompt would get. */
  function ExtractFeedback(text: string, first: Reply, mini: Reply): Extraction
  {
    if |Strip(text)| < 10 then Empty()
    else
      match first
      case GenerationFailed => Empty()
      case Parsed(v) => FromParsed(v)
      case Unparseable =>
        match mini
        case Parsed(v) => FromParsed(v)
        case _ => Empty()
  }

  /** Whatever the model does, extract_feedback returns a result in normal
    * form; a short text, a failed call or two unreadable replies give the
    * empty result. */
  lemma ExtractFeedbackFailClosed(text: string, first: Reply, mini: Reply)
    ensures NormalForm(ExtractFeedback(text, first, mini))
    ensures |Strip(text)| < 10 ==> ExtractFeedback(text, first, mini) == Empty()
    ensures first.GenerationFailed? ==> ExtractFeedback(text, first, mini) == Empty()
    ensures first.Unparseable? && !mini.Parsed? ==> ExtractFeedback(text, first, mini) == Empty()
    ensures |Strip(text)| >= 10 && first.Parsed? && first.value.JObj? ==>
              ExtractFeedback(text, first, mini) == Normalized(first.value.fields)
  {
    EmptyIsNormal();
    match first
    case Parsed(v) =>
      if v.JObj? {
        NormalizedIsNormal(v.fields);
      }
    case Unparseable =>
      if mini.Parsed? && mini.value.JObj? {
        NormalizedIsNormal(mini.value.fields);
      }
    case GenerationFailed =>
  }

  // =====================================================================
  // Cleaning of the batch replies

  /** A message sent in a batch prompt. */
  datatype PayloadItem = PayloadItem(id: int, text: string)

  /** The first of results/items/data found in a dictionary replaces it; a
    * dictionary with an "id" then stands for a one-item list; anything but
    * a list is rejected. */
  function Unwrap(v: Json): (r: Option<seq<Json>>)
    ensures v.JArr? ==> r == Some(v.items)
    ensures !v.JArr? && !v.JObj? ==> r.None?
    ensures v.JObj? && "results" !in v.fields && "items" !in v.fields && "data" !in v.fields ==>
              r == (if "id" in v.fields then Some([v]) else None)
  {
    var inner :=
      if v.JObj? then
        if "results" in v.fields then v.fields["results"]
        else if "items" in v.fields then v.fields["items"]
        else if "data" in v.fields then v.fields["data"]
        else v
      else v;
    var listed := if inner.JObj? && "id" in inner.fields then JArr([inner]) else inner;
    if listed.JArr? then Some(listed.items) else None
  }

  /** The dictionaries among the items, in order (non-dictionaries are skipped). */
  function Objects(items: seq<Json>): (objs: seq<map<string, Json>>)
    ensures |objs| <= |items|
  {
    if items == [] then []
    else if items[|items| - 1].JObj? then Objects(items[..|items| - 1]) + [items[|items| - 1].fields]
    else Objects(items[..|items| - 1])
  }

  /** Every dictionary kept by Objects comes from the items, in order, and
    * when every item is a dictionary nothing is dropped. */
  lemma {:induction false} ObjectsFromItems(items: seq<Json>)
    ensures forall j :: 0 <= j < |Objects(items)| ==> JObj(Objects(items)[j]) in items
    ensures (forall i :: 0 <= i < |items| ==> items[i].JObj?) ==> |Objects(items)| == |items|
  {
    if items != [] {
      var init := items[..|items| - 1];
      ObjectsFromItems(init);
      assert forall x :: x in init ==> x in items;
    }
  }

  lemma ObjectsSnoc(items: seq<Json>, i: nat)
    requires i < |items|
    ensures Objects(items[..i + 1]) ==
      if items[i].JObj? then Objects(items[..i]) + [items[i].fields] else Objects(items[..i])
  {
    assert items[..i + 1][..i] == items[..i];
  }

  /** One cleaned quick-check item. */
  datatype QuickResult = QuickResult(
    id: Json, isFeedback: bool, professorName: Json,
    professorNameNormalized: Json, sentiment: Json)

  /** The cleaned form of one dictionary of the quick-check reply. */
  function QuickOf(m: map<string, Json>): (q: QuickResult)
    ensures q.isFeedback <==> "is_feedback" in m && Truthy(m["is_feedback"])
    ensures q.id == (if "id" in m then m["id"] else JNull)
  {
    QuickResult(
      Get(m, "id", JNull),
      Truthy(Get(m, "is_feedback", JBool(false))),
      Get(m, "professor_name", JNull),
      Get(m, "professor_name_normalized", JNull),
      Get(m, "sentiment", JNull))
  }

  /** The items quick_check_feedback_batch returns for a reply, as a value. */
  function QuickItems(payload: seq<PayloadItem>, reply: Reply): seq<QuickResult>
  {
    if payload == [] || !reply.Parsed? || Unwrap(reply.value).None? then []
    else
      var objs := Objects(Unwrap(reply.value).value);
      seq(|objs|, j requires 0 <= j < |objs| => QuickOf(objs[j]))
  }

  /** quick_check_feedback_batch given the model's reply: an empty batch
    * makes no call and gives []; a failed call, an unreadable reply or a
    * reply that is not (or does not wrap) a list gives []; otherwise every
    * dictionary in the list is cleaned, in order. */
  method QuickCheckFeedbackBatch(payload: seq<PayloadItem>, reply: Reply) returns (cleaned: seq<QuickResult>)
    ensures payload == [] || !reply.Parsed? || Unwrap(reply.value).None? ==> cleaned == []
    ensures payload != [] && reply.Parsed? && Unwrap(reply.value).Some? ==>
              var objs := Objects(Unwrap(reply.value).value);
              |cleaned| == |objs| && forall j :: 0 <= j < |objs| ==> cleaned[j] == QuickOf(objs[j])
    ensures cleaned == QuickItems(payload, reply)
  {
    cleaned := [];
    if payload == [] {
      return;
    }
    if !reply.Parsed? {
      return;
    }
    var result := Unwrap(reply.value);
    if result.None? {
      return;
    }
    var items := result.value;
    for i := 0 to |items|
      invariant |cleaned| == |Objects(items[..i])|
      invariant forall j :: 0 <= j < |cleaned| ==> cleaned[j] == QuickOf(Objects(items[..i])[j])
    {
      assert items[..i + 1][..i] == items[..i];
      if items[i].JObj? {
        cleaned := cleaned + [QuickOf(items[i].fields)];
      }
    }
    assert items[..|items|] == items;
  }

  /** One entry of the batch extraction reply: the normalised extraction,
    * with the item's "id" attached when the item had one. */
  datatype BatchResult = BatchResult(id: Option<Json>, extraction: Extraction)

  function BatchOf(m: map<string, Json>): BatchResult
  {
    BatchResult(if "id" in m then Some(m["id"]) else None, Normalized(m))
  }

  /** extract_feedback_batch given the model's reply: like the quick check,
    * but each dictionary is normalised and keeps its id. */
  method ExtractFeedbackBatch(payload: seq<PayloadItem>, reply: Reply) returns (results: seq<BatchResult>)
    ensures payload == [] || !reply.Parsed? || Unwrap(reply.value).None? ==> results == []
    ensures payload != [] && reply.Parsed? && Unwrap(reply.value).Some? ==>
              var objs := Objects(Unwrap(reply.value).value);
              |results| == |objs| && forall j :: 0 <= j < |objs| ==> results[j] == BatchOf(objs[j])
    ensures forall j :: 0 <= j < |results| ==> NormalForm(results[j].extraction)
  {
    results := [];
    if payload == [] || !reply.Parsed? {
      return;
    }
    var result := Unwrap(reply.value);
    if result.None? {
      return;
    }
    var items := result.value;
    ghost var objs: seq<map<string, Json>> := [];
    for i := 0 to |items|
      invariant objs == Objects(items[..i])
      invariant |results| == |objs|
      invariant forall j :: 0 <= j < |results| ==> results[j] == BatchOf(objs[j])
    {
      ObjectsSnoc(items, i);
      if items[i].JObj? {
        var item := items[i].fields;
        var normalized := NormalizeExtractionResult(item);
        var id := if "id" in item then Some(item["id"]) else None;
        results := results + [BatchResult(id, normalized)];
        objs := objs + [item];
      }
    }
    assert items[..|items|] == items;
    forall j | 0 <= j < |results| ensures NormalForm(results[j].extraction) {
      NormalizedIsNormal(objs[j]);
    }
  }

  // =====================================================================
  // _attempt_repair_json

  /** The first index at or after i where sub occurs in s, or |s|. */
  function FindFrom(s: string, sub: string, i: nat): (k: nat)
    requires sub != []
    ensures k <= |s| && (i <= |s| ==> i <= k)
    ensures k < |s| ==> OccursAt(s, sub, k)
    ensures forall j :: i <= j < k ==> !OccursAt(s, sub, j)
    ensures k == |s| ==> forall j :: i <= j ==> !OccursAt(s, sub, j)
    decreases |s| - i
  {
    if i >= |s| then |s|
    else if OccursAt(s, sub, i) then i
    else FindFrom(s, sub, i + 1)
  }

  /** c repeated n times. */
  function Repeat(c: char, n: nat): (r: string)
    ensures |r| == n && forall i :: 0 <= i < n ==> r[i] == c
  {
    if n == 0 then [] else [c] + Repeat(c, n - 1)
  }

  const Fence: string := "```"

  /** candidate.split("```", 1)[0]: the text before its first code fence. */
  function DropFence(c: string): (r: string)
    ensures |r| <= |c| && r == c[..|r|] && !Contains(r, Fence)
    ensures forall j :: 0 <= j < |r| ==> !OccursAt(c, Fence, j)
    ensures |r| < |c| ==> OccursAt(c, Fence, |r|)
  {
    var q := FindFrom(c, Fence, 0);
    NoFenceBetween(c, 0, q);
    assert c[0..q] == c[..q];
    c[..q]
  }

  /** candidate[:candidate.rfind("}") + 1] when the candidate has a '}'. */
  function CutAfterLastBrace(c: string): (r: string)
    ensures |r| <= |c| && r == c[..|r|]
    ensures '}' in c ==> r != [] && r[|r| - 1] == '}'
    ensures '}' !in c ==> r == c
    ensures '}' !in c[|r|..]
  {
    if '}' in c then
      var k := RFind(c, '}');
      c[..k + 1]
    else c
  }

  /** The candidate before closing braces are added: from the first '{',
    * cut at the first fence and after the last '}'. */
  function RepairCut(text: string): string
    requires '{' in text
  {
    CutAfterLastBrace(DropFence(text[IndexOf(text, '{')..]))
  }

  /** _attempt_repair_json. */
  function AttemptRepairJson(text: string): Option<string>
  {
    if '{' !in text then None
    else
      var c3 := CloseBraces(RepairCut(text));
      if c3 != [] then Some(Strip(c3)) else None
  }

  /** The cut text followed by one '}' for every '{' left unclosed. */
  function CloseBraces(c2: string): string
  {
    var opens := CountChar(c2, '{');
    var closes := CountChar(c2, '}');
    if opens > closes then c2 + Repeat('}', opens - closes) else c2
  }

  lemma CountRepeat(c: char, d: char, n: nat)
    ensures CountChar(Repeat(c, n), d) == if c == d then n else 0
  {
    if n > 0 {
      assert Repeat(c, n)[1..] == Repeat(c, n - 1);
    }
  }

  lemma SliceOfSlice(c: string, a: nat, b: nat, i: nat, j: nat)
    requires a <= b <= |c| && i <= j <= b - a
    ensures c[a..b][i..j] == c[a + i..a + j]
  {
    forall m | 0 <= m < j - i ensures c[a..b][i..j][m] == c[a + i..a + j][m] {
      assert c[a..b][i..j][m] == c[a..b][i + m] == c[a + i + m];
    }
  }

  /** A piece of s holding none of the fences that start inside it has no fence. */
  lemma NoFenceBetween(s: string, k: nat, q: nat)
    requires k <= q <= |s| && forall j :: k <= j < q ==> !OccursAt(s, Fence, j)
    ensures !Contains(s[k..q], Fence)
  {
    forall i | 0 <= i <= (q - k) - |Fence| ensures !OccursAt(s[k..q], Fence, i) {
      SliceOfSlice(s, k, q, i, i + |Fence|);
      assert !OccursAt(s, Fence, k + i);
    }
  }

  /** A piece of a string without a fence has no fence. */
  lemma NoFenceSlice(c: string, a: nat, b: nat)
    requires a <= b <= |c| && !Contains(c, Fence)
    ensures !Contains(c[a..b], Fence)
  {
    NoFenceBetween(c, a, b);
  }

  /** Closing braces appended to a fence-free string add no fence. */
  lemma NoFenceBraces(c: string, n: nat)
    requires !Contains(c, Fence)
    ensures !Contains(c + Repeat('}', n), Fence)
  {
    var r := c + Repeat('}', n);
    forall i | 0 <= i <= |r| - |Fence| ensures !OccursAt(r, Fence, i) {
      if i + 3 <= |c| {
        assert r[i..i + 3] == c[i..i + 3];
        assert !OccursAt(c, Fence, i);
      } else {
        assert r[i + 2] == '}';
        assert Fence[2] == '`';
      }
    }
  }

  /** The cut candidate is a piece of the text starting at its first '{',
    * has no fence, and either ends with '}' or holds an unmatched '{'. */
  lemma RepairCutShape(text: string) returns (j: nat)
    requires '{' in text
    ensures IndexOf(text, '{') < j <= |text| && RepairCut(text) == text[IndexOf(text, '{')..j]
    ensures !Contains(RepairCut(text), Fence)
    ensures '}' in RepairCut(text) ==> RepairCut(text)[|RepairCut(text)| - 1] == '}'
    ensures '}' !in RepairCut(text) ==> CountChar(RepairCut(text), '{') >= 1
  {
    var start := IndexOf(text, '{');
    var c0 := text[start..];
    var c1 := DropFence(c0);
    DropFenceHead(c0);
    var c2 := CutAfterLastBrace(c1);
    assert RepairCut(text) == c2;
    CutBraceShape(c1);
    j := start + |c2|;
    PrefixSlice(text, start, c1, c2);
  }

  /** Where the cut candidate ends, in the text: q is the first fence at or
    * after the first '{' (or the end of the text), and the candidate ends
    * just after the last '}' before q, or at q itself when there is none. */
  lemma RepairCutEnds(text: string) returns (q: nat)
    requires '{' in text
    ensures IndexOf(text, '{') + |RepairCut(text)| <= q <= |text|
    ensures forall i :: IndexOf(text, '{') <= i < q ==> !OccursAt(text, Fence, i)
    ensures q < |text| ==> OccursAt(text, Fence, q)
    ensures text[IndexOf(text, '{')..q] == DropFence(text[IndexOf(text, '{')..])
    ensures '}' !in text[IndexOf(text, '{') + |RepairCut(text)|..q]
    ensures '}' in text[IndexOf(text, '{')..q] ==> text[IndexOf(text, '{') + |RepairCut(text)| - 1] == '}'
    ensures '}' !in text[IndexOf(text, '{')..q] ==> IndexOf(text, '{') + |RepairCut(text)| == q
  {
    var start := IndexOf(text, '{');
    q := FenceCutAt(text, start);
    BraceCutIn(text, start, q);
  }

  /** Cutting text[start..] at its first fence ends at q in the text: no
    * fence starts in [start, q), and one starts at q unless q is the end. */
  lemma FenceCutAt(text: string, start: nat) returns (q: nat)
    requires start <= |text|
    ensures q == start + |DropFence(text[start..])| <= |text|
    ensures forall i :: start <= i < q ==> !OccursAt(text, Fence, i)
    ensures q < |text| ==> OccursAt(text, Fence, q)
    ensures text[start..q] == DropFence(text[start..])
  {
    var c0 := text[start..];
    var c1 := DropFence(c0);
    q := start + |c1|;
    PrefixSlice(text, start, c0, c1);
    FenceShift(text, start, |c1|);
    forall i | start <= i < q ensures !OccursAt(text, Fence, i) {
      assert !OccursAt(c0, Fence, i - start);
    }
  }

  /** Cutting text[start..q] after its last '}' ends, in the text, just
    * after the last '}' before q, or at q when there is none. */
  lemma BraceCutIn(text: string, start: nat, q: nat)
    requires start <= q <= |text|
    ensures var j := start + |CutAfterLastBrace(text[start..q])|;
      j <= q && '}' !in text[j..q]
      && ('}' in text[start..q] ==> start < j && text[j - 1] == '}')
      && ('}' !in text[start..q] ==> j == q)
  {
    var c1 := text[start..q];
    var c2 := CutAfterLastBrace(c1);
    var j := start + |c2|;
    SliceOfSlice(text, start, q, |c2|, |c1|);
    assert c1[|c2|..] == text[j..q];
    if '}' in c1 {
      assert text[j - 1] == c1[|c2| - 1] == c2[|c2| - 1];
    }
  }

  /** Where text[start..] holds a fence, text holds one start places later. */
  lemma FenceShift(text: string, start: nat, n: nat)
    requires start + n <= |text|
    ensures forall i :: 0 <= i < n ==> (OccursAt(text[start..], Fence, i) <==> OccursAt(text, Fence, start + i))
    ensures start + n < |text| ==> (OccursAt(text[start..], Fence, n) <==> OccursAt(text, Fence, start + n))
  {
    forall i | 0 <= i <= n && start + i < |text|
      ensures OccursAt(text[start..], Fence, i) <==> OccursAt(text, Fence, start + i)
    {
      if start + i + 3 <= |text| {
        SliceOfSlice(text, start, |text|, i, i + 3);
      }
    }
  }

  /** A prefix of a prefix of text[start..] is a slice of text. */
  lemma PrefixSlice(text: string, start: nat, c1: string, c2: string)
    requires start <= |text| && |c1| <= |text| - start && c1 == text[start..][..|c1|]
    requires |c2| <= |c1| && c2 == c1[..|c2|]
    ensures c2 == text[start..start + |c2|]
  {
    SliceOfSlice(text, start, |text|, 0, |c2|);
  }

  /** A text starting with '{' keeps it when cut at its first fence. */
  lemma DropFenceHead(c0: string)
    requires c0 != [] && c0[0] == '{'
    ensures DropFence(c0) != [] && DropFence(c0)[0] == '{'
  {
    assert !OccursAt(c0, Fence, 0);
  }

  /** Cutting after the last '}' keeps the leading '{' and adds no fence. */
  lemma CutBraceShape(c1: string)
    requires c1 != [] && c1[0] == '{' && !Contains(c1, Fence)
    ensures var c2 := CutAfterLastBrace(c1);
      c2 != [] && c2[0] == '{' && !Contains(c2, Fence)
      && ('}' in c2 ==> c2[|c2| - 1] == '}')
      && ('}' !in c2 ==> CountChar(c2, '{') >= 1)
  {
    var c2 := CutAfterLastBrace(c1);
    NoFenceSlice(c1, 0, |c2|);
    assert c1[0..|c2|] == c2;
    assert '}' in c2 ==> '}' in c1;
    if '}' !in c2 {
      assert c2 == [c2[0]] + c2[1..];
      CountCharAppend([c2[0]], c2[1..], '{');
    }
  }

  /** _attempt_repair_json gives None exactly when the text has no '{'.
    * Otherwise it gives the text from its first '{', cut at the first fence
    * and after the last '}', followed by as many '}' as it takes for the
    * closing braces to be at least as many as the opening ones: the result
    * starts with '{', ends with '}' and has no fence. */
  lemma RepairJsonShape(text: string) returns (j: nat, q: nat, k: nat)
    ensures AttemptRepairJson(text).None? <==> '{' !in text
    ensures AttemptRepairJson(text).Some? ==>
              IndexOf(text, '{') < j <= q <= |text|
              && (forall i :: IndexOf(text, '{') <= i < q ==> !OccursAt(text, Fence, i))
              && (q < |text| ==> OccursAt(text, Fence, q))
              && '}' !in text[j..q]
              && ('}' in text[IndexOf(text, '{')..q] ==> text[j - 1] == '}')
              && ('}' !in text[IndexOf(text, '{')..q] ==> j == q)
    ensures AttemptRepairJson(text).Some? ==>
              var r := AttemptRepairJson(text).value;
              IndexOf(text, '{') < j <= |text| && r == text[IndexOf(text, '{')..j] + Repeat('}', k)
              && r[0] == '{' && r[|r| - 1] == '}'
              && !Contains(r, Fence)
              && CountChar(r, '}') >= CountChar(r, '{')
  {
    if '{' in text {
      j := RepairCutShape(text);
      q := RepairCutEnds(text);
      k := CloseBracesShape(RepairCut(text));
    } else {
      j, q, k := 0, 0, 0;
    }
  }

  /** Closing the braces of a cut text that starts with '{' gives a text
    * that starts with '{', ends with '}', has no fence and is already
    * stripped. */
  lemma CloseBracesShape(c2: string) returns (k: nat)
    requires c2 != [] && c2[0] == '{' && !Contains(c2, Fence)
    requires '}' in c2 ==> c2[|c2| - 1] == '}'
    requires '}' !in c2 ==> CountChar(c2, '{') >= 1
    ensures var c3 := CloseBraces(c2);
      c3 == c2 + Repeat('}', k) && c3[0] == '{' && c3[|c3| - 1] == '}'
      && !Contains(c3, Fence) && CountChar(c3, '}') >= CountChar(c3, '{')
      && Strip(c3) == c3
  {
    var opens := CountChar(c2, '{');
    var closes := CountChar(c2, '}');
    k := if opens > closes then opens - closes else 0;
    var c3 := c2 + Repeat('}', k);
    assert CloseBraces(c2) == c3;
    BracesBalanced(c2, k);
    NoFenceBraces(c2, k);
    assert c3[0] == '{';
    assert c3[|c3| - 1] == '}' by {
      if k == 0 {
        if opens >= 1 {
          CountPositive(c2, '}');
        }
        assert '}' in c2;
        assert c3 == c2;
      }
    }
    StripIdempotent(c3);
  }

  lemma {:induction false} CountPositive(c: string, ch: char)
    requires CountChar(c, ch) > 0
    ensures ch in c
  {
    if c[0] != ch {
      CountPositive(c[1..], ch);
      assert c[1..][IndexOf(c[1..], ch)] in c;
    }
  }

  /** The counts of the braces once k closing ones are added. */
  lemma BracesBalanced(c: string, k: nat)
    ensures CountChar(c + Repeat('}', k), '{') == CountChar(c, '{')
    ensures CountChar(c + Repeat('}', k), '}') == CountChar(c, '}') + k
  {
    CountCharAppend(c, Repeat('}', k), '{');
    CountCharAppend(c, Repeat('}', k), '}');
    CountRepeat('}', '{', k);
    CountRepeat('}', '}', k);
  }

  // =====================================================================
  // Code-fence removal in _parse_json_response / _parse_json_array_response

  /** The reply text with a leading code fence removed: the text between
    * "```" (or "```json") and the next "```", or, when the closing fence is
    * missing, everything after the opening one; stripped either way. */
  function StripFence(response: string): string
  {
    var t := Strip(response);
    if StartsWith(t, Fence) then
      var k := if |t| >= 7 && t[3..7] == "json" then 7 else 3;
      var q := FindFrom(t, Fence, k);
      if q < |t| then Strip(t[k..q]) else Strip(t[k..])
    else t
  }

  /** A fenced reply loses all its fences; an unfenced reply is only stripped. */
  lemma StripFenceNoFence(response: string)
    ensures StartsWith(Strip(response), Fence) ==> !Contains(StripFence(response), Fence)
    ensures !StartsWith(Strip(response), Fence) ==> StripFence(response) == Strip(response)
  {
    var t := Strip(response);
    if StartsWith(t, Fence) {
      var k := if |t| >= 7 && t[3..7] == "json" then 7 else 3;
      var q := FindFrom(t, Fence, k);
      var body := t[k..q];
      assert q == |t| ==> t[k..] == body;
      NoFenceBetween(t, k, q);
      var a, b := StripSpec(body);
      NoFenceSlice(body, a, b);
    }
  }

  // =====================================================================
  // _model_name_matches

  /** Whether a listed model name is the preferred one, with or without the
    * "models/" prefix. */
  function ModelNameMatches(preferred: string, candidate: string): bool
  {
    preferred == candidate
    || (StartsWith(preferred, "models/") && preferred == candidate)
    || (StartsWith(candidate, "models/") && EndsWith(candidate, "/" + preferred))
  }

  /** A name matches itself and its "models/" form; every match ends with
    * the preferred name; the second test of the source adds nothing to the
    * first. */
  lemma ModelNameMatchesSpec(preferred: string, candidate: string)
    ensures ModelNameMatches(preferred, preferred)
    ensures ModelNameMatches(preferred, "models/" + preferred)
    ensures ModelNameMatches(preferred, candidate) ==> EndsWith(candidate, preferred)
    ensures ModelNameMatches(preferred, candidate) <==>
              preferred == candidate || (StartsWith(candidate, "models/") && EndsWith(candidate, "/" + preferred))
  {
    var c := "models/" + preferred;
    assert c[..7] == "models/";
    assert c[|c| - |"/" + preferred|..] == "/" + preferred;
    if ModelNameMatches(preferred, candidate) && preferred != candidate {
      var n := |candidate|;
      assert candidate[n - |preferred|..] == candidate[n - |preferred| - 1..][1..];
    }
  }
}
