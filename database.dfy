// services/database_service.py: the store the ingestion engine writes. Each
// table is a field of the Store class: the professors, feedbacks and
// bulk-import logs as sequences in id order (an id is one more than the
// row's position, the feedback ids being drawn from a sequence), the
// ledger of processed messages as a sequence of rows with a unique
// message id, and the Telegram users as a map keyed by their unique id. Every store call is one atomic transaction: a call
// that raises leaves every table as it was.
module Database {
  import opened Wrappers
  import opened Strings
  import opened JsonValues
  import opened TextProcessing
  import opened Models
  import Gemini

  // =====================================================================
  // Table invariants (the schema's keys and uniqueness constraints)

  predicate NoDuplicates(xs: seq<string>)
  {
    forall i, j :: 0 <= i < j < |xs| ==> xs[i] != xs[j]
  }

  /** Professor ids are 1, 2, ... in table order; names are unique; no
    * course is listed twice. */
  predicate ProfessorsValid(ps: seq<Professor>)
  {
    (forall i :: 0 <= i < |ps| ==> ps[i].id == i + 1)
    && (forall i :: 0 <= i < |ps| ==> NoDuplicates(ps[i].courses))
    && (forall i, j :: 0 <= i < j < |ps| ==> ps[i].name != ps[j].name)
  }

  /** The id sequence starts at 1; feedback ids increase in table order and
    * stay below the next value of the sequence; every row points at a professor; at most one row per
    * Telegram message. */
  predicate FeedbacksValid(fs: seq<Feedback>, nextId: nat, professorCount: nat)
  {
    1 <= nextId
    && (forall i :: 0 <= i < |fs| ==> 1 <= fs[i].id < nextId && 1 <= fs[i].professorId <= professorCount)
    && (forall i, j :: 0 <= i < j < |fs| ==> fs[i].id < fs[j].id)
    && (forall i, j :: 0 <= i < j < |fs| ==> fs[i].telegramMessageId != fs[j].telegramMessageId)
  }

  /** The function that files a professor under a key
    * (normalize_professor_name). */
  type NameKey = string -> string

  /** Every row's name_normalized is the key of its name. */
  predicate Keyed(ps: seq<Professor>, nameKey: NameKey)
  {
    forall i :: 0 <= i < |ps| ==> ps[i].nameNormalized == nameKey(ps[i].name)
  }

  /** The one property of the key the store relies on: blanks around a
    * name do not change its key. */
  ghost predicate KeyIgnoresOuterBlanks(nameKey: NameKey)
  {
    forall n {:trigger nameKey(Strip(n))} :: nameKey(Strip(n)) == nameKey(n)
  }

  /** normalize_professor_name has that property. */
  lemma NormalizerIgnoresOuterBlanks()
    ensures KeyIgnoresOuterBlanks(NormalizeProfessorName)
  {
    forall n ensures NormalizeProfessorName(Strip(n)) == NormalizeProfessorName(n) {
      NormalizeIgnoresOuterBlanks(n);
    }
  }

  /** Replacing a row by one with the same name and key keeps the table
    * keyed. */
  lemma KeyedUpdate(ps: seq<Professor>, k: nat, p: Professor, nameKey: NameKey)
    requires Keyed(ps, nameKey) && k < |ps|
    requires p.name == ps[k].name && p.nameNormalized == ps[k].nameNormalized
    ensures Keyed(ps[k := p], nameKey)
  {
  }

  /** No two ledger rows are for the same message. */
  predicate LedgerValid(ledger: seq<ProcessedMessage>)
  {
    forall i, j :: 0 <= i < j < |ledger| ==> ledger[i].telegramMessageId != ledger[j].telegramMessageId
  }

  /** The position of the ledger row for a message, if any. */
  function EntryOf(ledger: seq<ProcessedMessage>, telegramMessageId: int): (k: Option<nat>)
    ensures k.Some? ==> k.value < |ledger| && ledger[k.value].telegramMessageId == telegramMessageId
    ensures k.None? ==> forall i :: 0 <= i < |ledger| ==> ledger[i].telegramMessageId != telegramMessageId
  {
    if ledger == [] then None
    else if ledger[|ledger| - 1].telegramMessageId == telegramMessageId then Some(|ledger| - 1)
    else EntryOf(ledger[..|ledger| - 1], telegramMessageId)
  }

  predicate UsersValid(users: map<int, TelegramUser>)
  {
    forall u :: u in users ==> users[u].telegramUserId == u
  }

  predicate LogsValid(logs: seq<BulkImportLog>)
  {
    forall i :: 0 <= i < |logs| ==> logs[i].id == i + 1
  }

  // =====================================================================
  // Professor lookup

  /** A fuzzy scorer of rapidfuzz: (query, choice) to a score. */
  type Scorer = (string, string) -> real

  /** The score a search gives a professor row: the scorer applied to the
    * query key and the normalised name of the row, which the table keeps in
    * name_normalized. */
  function Score(scorer: Scorer, key: string, p: Professor): real
  {
    scorer(key, p.nameNormalized)
  }

  /** Position i holds the first maximum of the scores over ps. */
  predicate FirstMax(ps: seq<Professor>, scorer: Scorer, key: string, i: nat)
  {
    i < |ps|
    && (forall j :: 0 <= j < |ps| ==> Score(scorer, key, ps[j]) <= Score(scorer, key, ps[i]))
    && (forall j :: 0 <= j < i ==> Score(scorer, key, ps[j]) < Score(scorer, key, ps[i]))
  }

  /** There is only one first maximum. */
  lemma FirstMaxUnique(ps: seq<Professor>, scorer: Scorer, key: string, i: nat, j: nat)
    requires FirstMax(ps, scorer, key, i) && FirstMax(ps, scorer, key, j)
    ensures i == j
  {
    FirstMaxBeats(ps, scorer, key, i, j);
    FirstMaxBeats(ps, scorer, key, j, i);
  }

  /** What a first maximum at j says about the row at i. */
  lemma FirstMaxBeats(ps: seq<Professor>, scorer: Scorer, key: string, i: nat, j: nat)
    requires FirstMax(ps, scorer, key, j) && i < |ps|
    ensures Score(scorer, key, ps[i]) <= Score(scorer, key, ps[j])
    ensures i < j ==> Score(scorer, key, ps[i]) < Score(scorer, key, ps[j])
  {
  }

  /** The position of the first row whose name_normalized is key. */
  function ExactMatch(ps: seq<Professor>, key: string): (k: Option<nat>)
    ensures k.Some? ==> k.value < |ps| && ps[k.value].nameNormalized == key
    ensures k.Some? ==> forall j :: 0 <= j < k.value ==> ps[j].nameNormalized != key
    ensures k.None? ==> forall j :: 0 <= j < |ps| ==> ps[j].nameNormalized != key
  {
    if ps == [] then None
    else if ps[0].nameNormalized == key then Some(0)
    else
      match ExactMatch(ps[1..], key)
      case None => None
      case Some(k) => Some(k + 1)
  }

  /** process.extractOne's pick: the first row with the highest score. */
  function BestIndex(ps: seq<Professor>, scorer: Scorer, key: string): (i: nat)
    requires ps != []
    ensures FirstMax(ps, scorer, key, i)
  {
    if |ps| == 1 then 0
    else
      var b := BestIndex(ps[..|ps| - 1], scorer, key);
      if Score(scorer, key, ps[|ps| - 1]) > Score(scorer, key, ps[b]) then |ps| - 1 else b
  }

  /** search_professor_fuzzy's pick: the best-scoring row when its score
    * reaches the threshold; nothing for an empty table, and nothing only
    * when every row scores below the threshold. */
  function FuzzyMatch(ps: seq<Professor>, scorer: Scorer, key: string, threshold: real): (k: Option<nat>)
    ensures ps == [] ==> k.None?
    ensures k.Some? ==> FirstMax(ps, scorer, key, k.value) && Score(scorer, key, ps[k.value]) >= threshold
    ensures k.None? ==> forall j :: 0 <= j < |ps| ==> Score(scorer, key, ps[j]) < threshold
  {
    if ps == [] then None
    else
      var b := BestIndex(ps, scorer, key);
      if Score(scorer, key, ps[b]) >= threshold then Some(b) else None
  }

  // =====================================================================
  // Courses

  /** The course list after add_course_to_professor with a non-empty code. */
  function CourseAdded(courses: seq<string>, code: string): seq<string>
  {
    if code in courses then courses else courses + [code]
  }

  /** Attaching a course lists it, keeps the old list as a prefix, adds no
    * duplicate, and attaching it again changes nothing. */
  lemma CourseAddedSpec(courses: seq<string>, code: string)
    requires NoDuplicates(courses)
    ensures var r := CourseAdded(courses, code);
      code in r && r[..|courses|] == courses && |r| <= |courses| + 1
      && NoDuplicates(r) && CourseAdded(r, code) == r
      && (forall c :: c in r <==> c in courses || c == code)
  {
    var r := CourseAdded(courses, code);
    assert r[..|courses|] == courses;
    if code !in courses {
      forall i, j | 0 <= i < j < |r| ensures r[i] != r[j] {
        if j == |courses| {
          assert r[i] in courses;
        }
      }
    }
  }

  // =====================================================================
  // update_professor_statistics

  /** The professor's feedback rows, in table order. */
  function OfProfessor(fs: seq<Feedback>, pid: nat): (r: seq<Feedback>)
    ensures |r| <= |fs|
  {
    if fs == [] then []
    else OfProfessor(fs[..|fs| - 1], pid) + (if fs[|fs| - 1].professorId == pid then [fs[|fs| - 1]] else [])
  }

  lemma {:induction false} OfProfessorMembers(fs: seq<Feedback>, pid: nat)
    ensures forall f :: f in OfProfessor(fs, pid) <==> f in fs && f.professorId == pid
  {
    if fs != [] {
      OfProfessorMembers(fs[..|fs| - 1], pid);
      assert fs == fs[..|fs| - 1] + [fs[|fs| - 1]];
    }
  }

  /** How many rows carry one of the sentiment labels. */
  function CountSentiment(fs: seq<Feedback>, labels: set<string>): (n: nat)
    ensures n <= |fs|
  {
    if fs == [] then 0
    else
      CountSentiment(fs[..|fs| - 1], labels)
      + (if exists l :: l in labels && fs[|fs| - 1].sentiment == JStr(l) then 1 else 0)
  }

  /** Counts for disjoint label sets add up to at most the number of rows. */
  lemma {:induction false} SentimentCountsBound(fs: seq<Feedback>, a: set<string>, b: set<string>, c: set<string>)
    requires a !! b && a !! c && b !! c
    ensures CountSentiment(fs, a) + CountSentiment(fs, b) + CountSentiment(fs, c) <= |fs|
  {
    if fs != [] {
      SentimentCountsBound(fs[..|fs| - 1], a, b, c);
      var s := fs[|fs| - 1].sentiment;
      if s.JStr? {
        assert forall l :: l in a && s == JStr(l) ==> l == s.s;
        assert forall l :: l in b && s == JStr(l) ==> l == s.s;
        assert forall l :: l in c && s == JStr(l) ==> l == s.s;
      }
    }
  }

  /** The final ratings that are not NULL, in row order. */
  function Ratings(fs: seq<Feedback>): (rs: seq<real>)
    ensures |rs| <= |fs|
  {
    if fs == [] then []
    else Ratings(fs[..|fs| - 1]) + (if fs[|fs| - 1].finalRating.Some? then [fs[|fs| - 1].finalRating.value] else [])
  }

  function Sum(xs: seq<real>): real
  {
    if xs == [] then 0.0 else Sum(xs[..|xs| - 1]) + xs[|xs| - 1]
  }

  /** sum(xs) / len(xs) */
  function Mean(xs: seq<real>): real
    requires xs != []
  {
    Sum(xs) / |xs| as real
  }

  lemma {:induction false} SumBounds(xs: seq<real>, lo: real, hi: real)
    requires forall i :: 0 <= i < |xs| ==> lo <= xs[i] <= hi
    ensures |xs| as real * lo <= Sum(xs) <= |xs| as real * hi
  {
    if xs != [] {
      SumBounds(xs[..|xs| - 1], lo, hi);
    }
  }

  /** A mean lies between any bounds of its values. */
  lemma MeanBounds(xs: seq<real>, lo: real, hi: real)
    requires xs != []
    requires forall i :: 0 <= i < |xs| ==> lo <= xs[i] <= hi
    ensures lo <= Mean(xs) <= hi
  {
    SumBounds(xs, lo, hi);
    var n := |xs| as real;
    assert n * lo <= Sum(xs) <= n * hi;
    assert lo == (n * lo) / n && hi == (n * hi) / n;
  }

  /** The score one row gives an aspect: the "score" of the aspect's
    * dictionary in the row's aspects dictionary, when that is not None. */
  function AspectScore(f: Feedback, a: Aspect): Option<Json>
  {
    if f.aspects.JObj? && AspectName(a) in f.aspects.fields
       && f.aspects.fields[AspectName(a)].JObj?
       && Get(f.aspects.fields[AspectName(a)].fields, "score", JNull) != JNull
    then Some(f.aspects.fields[AspectName(a)].fields["score"])
    else None
  }

  /** aspect_sums[a]: the scores of aspect a, in row order. */
  function Scores(fs: seq<Feedback>, a: Aspect): (r: seq<Json>)
    ensures |r| <= |fs|
  {
    if fs == [] then []
    else
      var s := AspectScore(fs[|fs| - 1], a);
      Scores(fs[..|fs| - 1], a) + (if s.Some? then [s.value] else [])
  }

  /** A truthy aspects value that is not a dictionary has no .items(). */
  predicate AspectsRaise(f: Feedback)
  {
    Truthy(f.aspects) && !f.aspects.JObj?
  }

  predicate AllNumbers(xs: seq<Json>)
  {
    forall i :: 0 <= i < |xs| ==> IsNumber(xs[i])
  }

  function NumValues(xs: seq<Json>): (r: seq<real>)
    requires AllNumbers(xs)
    ensures |r| == |xs|
  {
    seq(|xs|, i requires 0 <= i < |xs| => NumValue(xs[i]))
  }

  /** The recomputation goes through: no row's aspects lack .items() and
    * sum() meets only numbers. */
  predicate StatsOk(fs: seq<Feedback>)
  {
    (forall i :: 0 <= i < |fs| ==> !AspectsRaise(fs[i]))
    && (forall a :: AllNumbers(Scores(fs, a)))
  }

  /** _safe_average: the mean of the values, None when there are none. */
  function SafeAverage(values: seq<Json>): (r: Option<real>)
    requires AllNumbers(values)
    ensures r.None? <==> values == []
  {
    if values == [] then None else Some(Mean(NumValues(values)))
  }

  /** The average times the number of values is their sum. */
  lemma SafeAverageMean(values: seq<Json>)
    requires AllNumbers(values) && values != []
    ensures SafeAverage(values).value * |values| as real == Sum(NumValues(values))
  {
    var xs := NumValues(values);
    DivTimes(Sum(xs), |xs| as real);
  }

  lemma DivTimes(a: real, n: real)
    requires n > 0.0
    ensures a / n * n == a
  {
  }

  /** The six aspect averages of the rows. */
  function ScoreAverages(fs: seq<Feedback>): Averages
    requires StatsOk(fs)
  {
    Averages(SafeAverage(Scores(fs, TeachingQuality)), SafeAverage(Scores(fs, GradingFairness)),
             SafeAverage(Scores(fs, Workload)), SafeAverage(Scores(fs, Communication)),
             SafeAverage(Scores(fs, Engagement)), SafeAverage(Scores(fs, ExamsDifficulty)))
  }

  /** The professor row after update_professor_statistics over its
    * feedback rows fs. */
  function Recomputed(p: Professor, fs: seq<Feedback>): Professor
    requires StatsOk(fs)
  {
    var rs := Ratings(fs);
    p.(totalFeedbacks := |fs|,
       positiveFeedbacks := CountSentiment(fs, {"positive"}),
       negativeFeedbacks := CountSentiment(fs, {"negative"}),
       neutralFeedbacks := CountSentiment(fs, {"neutral", "mixed"}),
       overallRating := if rs == [] then p.overallRating else Mean(rs),
       averages := ScoreAverages(fs))
  }

  /** The recomputed counters: the total is the number of rows and the
    * three sentiment counters together do not exceed it; the overall rating
    * is kept when no row is rated and otherwise is the mean of the ratings,
    * inside [lo, hi] when every rating is; each aspect's average is the
    * _safe_average of the scores rows give it, NULL when there are none. */
  lemma RecomputedSpec(p: Professor, fs: seq<Feedback>, lo: real, hi: real)
    requires StatsOk(fs)
    ensures var r := Recomputed(p, fs);
      r.id == p.id && r.name == p.name && r.courses == p.courses
      && r.totalFeedbacks == |fs|
      && r.positiveFeedbacks + r.negativeFeedbacks + r.neutralFeedbacks <= r.totalFeedbacks
      && (Ratings(fs) == [] ==> r.overallRating == p.overallRating)
      && (Ratings(fs) != [] && (forall i :: 0 <= i < |Ratings(fs)| ==> lo <= Ratings(fs)[i] <= hi) ==>
            lo <= r.overallRating <= hi)
      && (forall a :: AverageOf(r.averages, a) == SafeAverage(Scores(fs, a)))
  {
    SentimentCountsBound(fs, {"positive"}, {"negative"}, {"neutral", "mixed"});
    var rs := Ratings(fs);
    if rs != [] && (forall i :: 0 <= i < |rs| ==> lo <= rs[i] <= hi) {
      MeanBounds(rs, lo, hi);
    }
    ScoreAveragesColumns(fs);
  }

  /** Each column of ScoreAverages holds the average of its aspect. */
  lemma ScoreAveragesColumns(fs: seq<Feedback>)
    requires StatsOk(fs)
    ensures forall a :: AverageOf(ScoreAverages(fs), a) == SafeAverage(Scores(fs, a))
  {
    var av := ScoreAverages(fs);
    forall a ensures AverageOf(av, a) == SafeAverage(Scores(fs, a)) {
      match a
      case TeachingQuality =>
      case GradingFairness =>
      case Workload =>
      case Communication =>
      case Engagement =>
      case ExamsDifficulty =>
    }
  }

  lemma AspectsListed(a: Aspect)
    ensures a in Aspects
  {
    match a {
      case TeachingQuality => assert Aspects[0] == a;
      case GradingFairness => assert Aspects[1] == a;
      case Workload => assert Aspects[2] == a;
      case Communication => assert Aspects[3] == a;
      case Engagement => assert Aspects[4] == a;
      case ExamsDifficulty => assert Aspects[5] == a;
    }
  }

  /** Every final rating of a row written from a normalised extraction is
    * within [1, 5], so the overall rating stays within [1, 5] once any row
    * is rated. */
  predicate RatingsInRange(fs: seq<Feedback>)
  {
    forall i :: 0 <= i < |fs| ==> fs[i].finalRating.Some? ==> 1.0 <= fs[i].finalRating.value <= 5.0
  }

  lemma {:induction false} RatingsFromRows(fs: seq<Feedback>)
    requires RatingsInRange(fs)
    ensures forall i :: 0 <= i < |Ratings(fs)| ==> 1.0 <= Ratings(fs)[i] <= 5.0
  {
    if fs != [] {
      RatingsFromRows(fs[..|fs| - 1]);
    }
  }

  // =====================================================================
  // create_feedback

  /** A Float column: a number is stored as a real, NULL as None. */
  function FloatColumn(v: Json): Option<real>
  {
    if IsNumber(v) then Some(NumValue(v)) else None
  }

  /** explicit if explicit is not None else inferred */
  function FinalRating(e: Gemini.Extraction): Json
  {
    if e.explicitRating != JNull then e.explicitRating else e.inferredRating
  }

  /** The values create_feedback writes for one message. */
  function FeedbackRow(id: nat, professorId: nat, originalMessage: string, telegramMessageId: int,
                       telegramUserId: Option<int>, messageDate: Option<int>, e: Gemini.Extraction): Feedback
  {
    Feedback(id, professorId, originalMessage, telegramMessageId, telegramUserId, messageDate,
      e.courseCode, e.courseName, e.semester,
      FloatColumn(e.explicitRating), FloatColumn(e.inferredRating), FloatColumn(FinalRating(e)),
      e.sentiment, e.aspects, e.strengths, e.weaknesses, e.confidence, e.isAppropriate, e.language)
  }

  /** The final rating is the explicit one when the extraction has one and
    * the inferred one otherwise, and stays within [1, 5]. */
  lemma FinalRatingSpec(e: Gemini.Extraction)
    requires Gemini.RatingInRange(e.explicitRating) && Gemini.RatingInRange(e.inferredRating)
    ensures var f := FloatColumn(FinalRating(e));
      (e.explicitRating != JNull ==> f == Some(e.explicitRating.r))
      && (e.explicitRating == JNull && e.inferredRating != JNull ==> f == Some(e.inferredRating.r))
      && (e.explicitRating == JNull && e.inferredRating == JNull ==> f.None?)
      && (f.Some? ==> 1.0 <= f.value <= 5.0)
  {
  }

  /** The position of the row for a Telegram message, if any. */
  function RowOf(fs: seq<Feedback>, telegramMessageId: int): (k: Option<nat>)
    ensures k.Some? ==> k.value < |fs| && fs[k.value].telegramMessageId == telegramMessageId
    ensures k.None? ==> forall i :: 0 <= i < |fs| ==> fs[i].telegramMessageId != telegramMessageId
  {
    if fs == [] then None
    else if fs[|fs| - 1].telegramMessageId == telegramMessageId then Some(|fs| - 1)
    else RowOf(fs[..|fs| - 1], telegramMessageId)
  }

  // =====================================================================
  // Column updates that keep old values

  /** `new or old` for a nullable text column. */
  function KeepUnlessGiven(given: Option<string>, old_: Option<string>): (r: Option<string>)
  {
    if given.Some? && given.value != [] then given else old_
  }

  /** The stored value changes only to a non-empty given value. */
  lemma KeepUnlessGivenSpec(given: Option<string>, old_: Option<string>)
    ensures (given.None? || given == Some([])) ==> KeepUnlessGiven(given, old_) == old_
    ensures given.Some? && given.value != [] ==> KeepUnlessGiven(given, old_) == given
    ensures KeepUnlessGiven(given, KeepUnlessGiven(given, old_)) == KeepUnlessGiven(given, old_)
  {
  }

  /** An update that sets a counter only when a value is passed. */
  function SetIfGiven(given: Option<int>, old_: int): int
  {
    if given.Some? then given.value else old_
  }

  // =====================================================================
  // The tables as one value, and each store call as a function of it

  datatype Tables = Tables(
    professors: seq<Professor>,
    feedbacks: seq<Feedback>,
    nextFeedbackId: nat,
    ledger: seq<ProcessedMessage>,
    users: map<int, TelegramUser>,
    logs: seq<BulkImportLog>)

  predicate TablesValid(t: Tables)
  {
    ProfessorsValid(t.professors)
    && FeedbacksValid(t.feedbacks, t.nextFeedbackId, |t.professors|)
    && LedgerValid(t.ledger) && UsersValid(t.users) && LogsValid(t.logs)
  }

  /** A fresh database: empty tables, sequences at 1. */
  function EmptyTables(): (t: Tables)
    ensures TablesValid(t)
    ensures t.professors == [] && t.feedbacks == [] && t.ledger == [] && t.users == map[] && t.logs == []
  {
    Tables([], [], 1, [], map[], [])
  }

  /** find_or_create_professor: the exact match on the normalised name, else
    * a fuzzy match scoring at least 85, else a new row. */
  function FoundOrCreated(t: Tables, scorer: Scorer, nameKey: NameKey, name: string, department: Option<string>): (Tables, Professor, bool)
  {
    var key := nameKey(name);
    match ExactMatch(t.professors, key)
    case Some(i) => (t, t.professors[i], false)
    case None =>
      match FuzzyMatch(t.professors, scorer, key, 85.0)
      case Some(i) => (t, t.professors[i], false)
      case None =>
        var p := NewProfessor(|t.professors| + 1, Strip(name), key, department);
        (t.(professors := t.professors + [p]), p, true)
  }

  /** The professor returned is a row of the table after the call; a row is
    * created only when no row has the same normalised name and none scores
    * 85 or more, and then it has the stripped name, the normalised name and
    * the defaults of a new row; names stay unique; and asking again for the
    * same name finds that professor without creating another. */
  lemma FoundOrCreatedSpec(t: Tables, scorer: Scorer, nameKey: NameKey, name: string, department: Option<string>)
    requires TablesValid(t) && Keyed(t.professors, nameKey) && KeyIgnoresOuterBlanks(nameKey)
    ensures var (t', p, created) := FoundOrCreated(t, scorer, nameKey, name, department);
      var key := nameKey(name);
      TablesValid(t') && Keyed(t'.professors, nameKey)
      && 1 <= p.id <= |t'.professors| && t'.professors[p.id - 1] == p
      && (ExactMatch(t.professors, key).Some? ==> !created && p.nameNormalized == key)
      && (!created ==> t' == t)
      && (created <==> ExactMatch(t.professors, key).None? && FuzzyMatch(t.professors, scorer, key, 85.0).None?)
      && (created ==> t' == t.(professors := t.professors + [p])
                      && p == NewProfessor(|t.professors| + 1, Strip(name), key, department))
      && FoundOrCreated(t', scorer, nameKey, name, department) == (t', p, false)
  {
    var key := nameKey(name);
    var (t', p, created) := FoundOrCreated(t, scorer, nameKey, name, department);
    if created {
      CreatedRowValid(t.professors, nameKey, name, department);
      ExactMatchAppend(t.professors, p, key);
    }
  }

  /** Adding professor rows keeps the other tables valid. */
  lemma RowAppendedValid(t: Tables, r: Tables)
    requires TablesValid(t) && ProfessorsValid(r.professors)
    requires r == t.(professors := r.professors) && |t.professors| <= |r.professors|
    ensures TablesValid(r)
  {
  }

  /** A row created for a name no row has under its key keeps the
    * professor table valid and keyed. */
  lemma CreatedRowValid(ps: seq<Professor>, nameKey: NameKey, name: string, department: Option<string>)
    requires ProfessorsValid(ps) && Keyed(ps, nameKey) && KeyIgnoresOuterBlanks(nameKey)
    requires forall j :: 0 <= j < |ps| ==> ps[j].nameNormalized != nameKey(name)
    ensures var p := NewProfessor(|ps| + 1, Strip(name), nameKey(name), department);
      ProfessorsValid(ps + [p]) && Keyed(ps + [p], nameKey)
  {
    var key := nameKey(name);
    var p := NewProfessor(|ps| + 1, Strip(name), key, department);
    assert nameKey(Strip(name)) == key;
    forall i | 0 <= i < |ps| ensures ps[i].name != p.name {
      assert nameKey(ps[i].name) == ps[i].nameNormalized != key;
    }
    ProfessorsAppendValid(ps, p);
    KeyedAppend(ps, p, nameKey);
  }

  /** Appending a row with the next id, no courses and a name no row
    * has keeps the professor table valid. */
  lemma ProfessorsAppendValid(ps: seq<Professor>, p: Professor)
    requires ProfessorsValid(ps) && p.id == |ps| + 1 && p.courses == []
    requires forall i :: 0 <= i < |ps| ==> ps[i].name != p.name
    ensures ProfessorsValid(ps + [p])
  {
    var ps' := ps + [p];
    assert forall i :: 0 <= i < |ps| ==> ps'[i] == ps[i];
    assert ps'[|ps|] == p;
  }

  /** Appending a row filed under the key of its name keeps the table
    * keyed. */
  lemma KeyedAppend(ps: seq<Professor>, p: Professor, nameKey: NameKey)
    requires Keyed(ps, nameKey) && p.nameNormalized == nameKey(p.name)
    ensures Keyed(ps + [p], nameKey)
  {
    var ps' := ps + [p];
    assert forall i :: 0 <= i < |ps| ==> ps'[i] == ps[i];
  }

  /** The first row under a key, once a row under it is appended to a
    * table that had none. */
  lemma ExactMatchAppend(ps: seq<Professor>, p: Professor, key: string)
    requires ExactMatch(ps, key).None? && p.nameNormalized == key
    ensures ExactMatch(ps + [p], key) == Some(|ps|)
  {
    var k := ExactMatch(ps + [p], key);
    assert (ps + [p])[|ps|].nameNormalized == key;
    assert forall j :: 0 <= j < |ps| ==> (ps + [p])[j] == ps[j];
  }

  /** add_course_to_professor: nothing for a missing professor or an empty
    * code, otherwise the code is listed once. */
  function CourseAttached(t: Tables, professorId: int, code: string): Tables
  {
    if 1 <= professorId <= |t.professors| && code != [] then
      var p := t.professors[professorId - 1];
      t.(professors := t.professors[professorId - 1 := p.(courses := CourseAdded(p.courses, code))])
    else t
  }

  /** Attaching a course touches only that professor's course list, keeps
    * its order, lists the code without duplicates, and is idempotent. */
  lemma CourseAttachedSpec(t: Tables, professorId: int, code: string)
    requires TablesValid(t)
    ensures var r := CourseAttached(t, professorId, code);
      TablesValid(r) && CourseAttached(r, professorId, code) == r
      && (!(1 <= professorId <= |t.professors|) || code == [] ==> r == t)
      && (1 <= professorId <= |t.professors| && code != [] ==>
            var before := t.professors[professorId - 1];
            var after := r.professors[professorId - 1];
            r == t.(professors := t.professors[professorId - 1 := after])
            && after == before.(courses := after.courses)
            && code in after.courses && after.courses[..|before.courses|] == before.courses)
  {
    if 1 <= professorId <= |t.professors| && code != [] {
      var before := t.professors[professorId - 1];
      CourseAddedSpec(before.courses, code);
      var r := CourseAttached(t, professorId, code);
      var after := r.professors[professorId - 1];
      CourseAddedSpec(after.courses, code);
      assert r.professors[professorId - 1 := after.(courses := CourseAdded(after.courses, code))] == r.professors;
    }
  }

  /** update_professor_statistics as one transaction: None when it raises,
    * which leaves the tables as they were. */
  function StatsUpdated(t: Tables, professorId: int): Option<Tables>
  {
    if !(1 <= professorId <= |t.professors|) then Some(t)
    else
      var fs := OfProfessor(t.feedbacks, professorId);
      if fs == [] then Some(t)
      else if !StatsOk(fs) then None
      else Some(t.(professors := t.professors[professorId - 1 := Recomputed(t.professors[professorId - 1], fs)]))
  }

  /** The recomputation raises exactly when the professor has rows and
    * one of them cannot be summed. */
  lemma StatsUpdatedRaises(t: Tables, professorId: int)
    ensures StatsUpdated(t, professorId).None? <==>
              1 <= professorId <= |t.professors| && OfProfessor(t.feedbacks, professorId) != []
              && !StatsOk(OfProfessor(t.feedbacks, professorId))
  {
  }

  /** When it does not raise, the recomputation keeps the table invariants. */
  lemma StatsUpdatedSpec(t: Tables, professorId: int)
    requires TablesValid(t) && StatsUpdated(t, professorId).Some?
    ensures TablesValid(StatsUpdated(t, professorId).value)
  {
    StatsUpdatedShape(t, professorId);
    if 1 <= professorId <= |t.professors| {
      RowReplacedValid(t, professorId - 1, StatsUpdated(t, professorId).value);
    }
  }

  /** The shape of a successful recomputation: one row is replaced by a row
    * with the same identity, name and courses, and nothing else changes. */
  lemma StatsUpdatedShape(t: Tables, professorId: int)
    requires StatsUpdated(t, professorId).Some?
    ensures var r := StatsUpdated(t, professorId).value;
      r == t.(professors := r.professors) && |r.professors| == |t.professors|
      && (!(1 <= professorId <= |t.professors|) ==> r == t)
      && (forall i :: 0 <= i < |t.professors| && i != professorId - 1 ==> r.professors[i] == t.professors[i])
      && (1 <= professorId <= |t.professors| ==>
            r.professors == t.professors[professorId - 1 := r.professors[professorId - 1]]
            && r.professors[professorId - 1].id == t.professors[professorId - 1].id
            && r.professors[professorId - 1].name == t.professors[professorId - 1].name
            && r.professors[professorId - 1].nameNormalized == t.professors[professorId - 1].nameNormalized
            && r.professors[professorId - 1].courses == t.professors[professorId - 1].courses
            && r.professors[professorId - 1].department == t.professors[professorId - 1].department)
  {
    if 1 <= professorId <= |t.professors| && OfProfessor(t.feedbacks, professorId) != [] {
      RecomputedKeeps(t.professors[professorId - 1], OfProfessor(t.feedbacks, professorId));
    }
  }

  /** Replacing one professor row by one with the same identity, name, key
    * and courses keeps the tables valid and touches nothing else. */
  lemma RowReplacedValid(t: Tables, k: nat, r: Tables)
    requires TablesValid(t) && k < |t.professors|
    requires r == t.(professors := r.professors) && |r.professors| == |t.professors| && r.professors == t.professors[k := r.professors[k]]
    requires r.professors[k].id == t.professors[k].id && r.professors[k].name == t.professors[k].name
    requires r.professors[k].courses == t.professors[k].courses
    ensures TablesValid(r)
    ensures forall i :: 0 <= i < |t.professors| && i != k ==> r.professors[i] == t.professors[i]
  {
    ProfessorsUpdateValid(t.professors, k, r.professors[k]);
  }


  /** Running the recomputation again gives the same tables: the statistics
    * are a function of the professor's feedback rows alone. */
  lemma StatsUpdatedIdempotent(t: Tables, professorId: int)
    requires StatsUpdated(t, professorId).Some?
    ensures StatsUpdated(StatsUpdated(t, professorId).value, professorId) == StatsUpdated(t, professorId)
  {
    if 1 <= professorId <= |t.professors| && OfProfessor(t.feedbacks, professorId) != [] {
      var fs := OfProfessor(t.feedbacks, professorId);
      var q := Recomputed(t.professors[professorId - 1], fs);
      RecomputedIdempotent(t.professors[professorId - 1], fs);
      var ps' := t.professors[professorId - 1 := q];
      assert ps'[professorId - 1 := Recomputed(ps'[professorId - 1], fs)] == ps';
    }
  }

  /** The recomputed row keeps the identity, name, key and courses of the
    * row, and recomputing it again changes nothing. */
  lemma RecomputedKeeps(p: Professor, fs: seq<Feedback>)
    requires StatsOk(fs)
    ensures var q := Recomputed(p, fs);
      q.id == p.id && q.name == p.name && q.nameNormalized == p.nameNormalized && q.courses == p.courses
      && q.department == p.department
  {
  }

  /** Recomputing a recomputed row changes nothing. */
  lemma RecomputedIdempotent(p: Professor, fs: seq<Feedback>)
    requires StatsOk(fs)
    ensures Recomputed(Recomputed(p, fs), fs) == Recomputed(p, fs)
  {
  }

  /** Replacing a row by one with the same id, name and courses keeps the
    * professor table valid. */
  lemma ProfessorsUpdateValid(ps: seq<Professor>, k: nat, q: Professor)
    requires ProfessorsValid(ps) && k < |ps|
    requires q.id == ps[k].id && q.name == ps[k].name && q.courses == ps[k].courses
    ensures ProfessorsValid(ps[k := q])
  {
    var ps' := ps[k := q];
    assert forall i :: 0 <= i < |ps| ==> ps'[i].id == ps[i].id && ps'[i].name == ps[i].name && ps'[i].courses == ps[i].courses;
  }

  /** The aspect loop of update_professor_statistics: every row's aspects
    * dictionary adds the score of each known aspect it rates to that
    * aspect's list (unknown names and non-dictionary values are skipped); a
    * truthy aspects value that is not a dictionary raises. */
  method AspectSums(fs: seq<Feedback>) returns (sums: map<Aspect, seq<Json>>, raised: bool)
    ensures raised <==> exists i :: 0 <= i < |fs| && AspectsRaise(fs[i])
    ensures !raised ==> forall a :: a in Aspects ==> a in sums && sums[a] == Scores(fs, a)
  {
    sums := map a | a in Aspects :: [];
    var i := 0;
    while i < |fs|
      invariant 0 <= i <= |fs|
      invariant forall j :: 0 <= j < i ==> !AspectsRaise(fs[j])
      invariant forall a :: a in Aspects ==> a in sums && sums[a] == Scores(fs[..i], a)
    {
      if AspectsRaise(fs[i]) {
        return sums, true;
      }
      assert fs[..i + 1][..i] == fs[..i];
      if Truthy(fs[i].aspects) {
        sums := map a | a in Aspects :: sums[a] + (if AspectScore(fs[i], a).Some? then [AspectScore(fs[i], a).value] else []);
      } else {
        forall a ensures AspectScore(fs[i], a).None? {
        }
      }
      i := i + 1;
    }
    assert fs[..i] == fs;
    raised := false;
  }

  /** The body of update_professor_statistics once the professor and its
    * rows are found: the recomputed row, or None when the recomputation
    * raises. */
  method RecomputedRow(old_: Professor, fs: seq<Feedback>) returns (r: Option<Professor>)
    ensures r.None? <==> !StatsOk(fs)
    ensures r.Some? ==> StatsOk(fs) && r.value == Recomputed(old_, fs)
  {
    var sums, raised := AspectSums(fs);
    if raised || !(forall k | 0 <= k < |Aspects| :: AllNumbers(sums[Aspects[k]])) {
      assert !StatsOk(fs) by {
        if !raised {
          var k :| 0 <= k < |Aspects| && !AllNumbers(sums[Aspects[k]]);
          assert !AllNumbers(Scores(fs, Aspects[k]));
        }
      }
      return None;
    }
    assert StatsOk(fs) by {
      forall a ensures AllNumbers(Scores(fs, a)) {
        AspectsListed(a);
        var k :| 0 <= k < |Aspects| && Aspects[k] == a;
      }
    }
    var rs := Ratings(fs);
    var averages := Averages(SafeAverage(sums[TeachingQuality]), SafeAverage(sums[GradingFairness]),
                             SafeAverage(sums[Workload]), SafeAverage(sums[Communication]),
                             SafeAverage(sums[Engagement]), SafeAverage(sums[ExamsDifficulty]));
    r := Some(old_.(totalFeedbacks := |fs|,
                    positiveFeedbacks := CountSentiment(fs, {"positive"}),
                    negativeFeedbacks := CountSentiment(fs, {"negative"}),
                    neutralFeedbacks := CountSentiment(fs, {"neutral", "mixed"}),
                    overallRating := if rs == [] then old_.overallRating else Mean(rs),
                    averages := averages));
  }

  /** With every stored final rating within [1, 5], a recomputed overall
    * rating is within [1, 5] once any of the professor's rows is rated. */
  lemma StatsRatingInRange(t: Tables, professorId: int)
    requires TablesValid(t) && RatingsInRange(t.feedbacks)
    requires 1 <= professorId <= |t.professors|
    requires StatsUpdated(t, professorId).Some?
    requires Ratings(OfProfessor(t.feedbacks, professorId)) != []
    ensures 1.0 <= StatsUpdated(t, professorId).value.professors[professorId - 1].overallRating <= 5.0
  {
    var fs := OfProfessor(t.feedbacks, professorId);
    OfProfessorRatings(t.feedbacks, professorId);
    RatingsFromRows(fs);
    RecomputedSpec(t.professors[professorId - 1], fs, 1.0, 5.0);
  }

  lemma {:induction false} OfProfessorRatings(fs: seq<Feedback>, pid: nat)
    requires RatingsInRange(fs)
    ensures RatingsInRange(OfProfessor(fs, pid))
  {
    if fs != [] {
      OfProfessorRatings(fs[..|fs| - 1], pid);
    }
  }

  /** create_feedback as an upsert on the Telegram message id: the message's
    * row is overwritten in place and keeps its id, or a new row takes the
    * next id; the id sequence advances either way. */
  function FeedbackUpserted(t: Tables, professorId: nat, originalMessage: string, telegramMessageId: int,
                            telegramUserId: Option<int>, messageDate: Option<int>, e: Gemini.Extraction): (Tables, Feedback)
  {
    match RowOf(t.feedbacks, telegramMessageId)
    case Some(k) =>
      var row := FeedbackRow(t.feedbacks[k].id, professorId, originalMessage, telegramMessageId, telegramUserId, messageDate, e);
      (t.(feedbacks := t.feedbacks[k := row], nextFeedbackId := t.nextFeedbackId + 1), row)
    case None =>
      var row := FeedbackRow(t.nextFeedbackId, professorId, originalMessage, telegramMessageId, telegramUserId, messageDate, e);
      (t.(feedbacks := t.feedbacks + [row], nextFeedbackId := t.nextFeedbackId + 1), row)
  }

  /** After the upsert the message has exactly one row, the one returned;
    * every other row is kept; the table invariants hold; and running the
    * same upsert again leaves the rows as they are. */
  lemma FeedbackUpsertedSpec(t: Tables, professorId: nat, originalMessage: string, telegramMessageId: int,
                             telegramUserId: Option<int>, messageDate: Option<int>, e: Gemini.Extraction)
    requires TablesValid(t) && 1 <= professorId <= |t.professors|
    ensures var (r, f) := FeedbackUpserted(t, professorId, originalMessage, telegramMessageId, telegramUserId, messageDate, e);
      TablesValid(r)
      && r == t.(feedbacks := r.feedbacks, nextFeedbackId := t.nextFeedbackId + 1)
      && f.professorId == professorId && f.telegramMessageId == telegramMessageId
      && f.originalMessage == originalMessage && f.finalRating == FloatColumn(FinalRating(e))
      && RowOf(r.feedbacks, telegramMessageId).Some? && r.feedbacks[RowOf(r.feedbacks, telegramMessageId).value] == f
      && |r.feedbacks| == |t.feedbacks| + (if RowOf(t.feedbacks, telegramMessageId).None? then 1 else 0)
      && (forall i :: 0 <= i < |t.feedbacks| && t.feedbacks[i].telegramMessageId != telegramMessageId ==>
            r.feedbacks[i] == t.feedbacks[i])
      && FeedbackUpserted(r, professorId, originalMessage, telegramMessageId, telegramUserId, messageDate, e).0.feedbacks == r.feedbacks
  {
    var (r, f) := FeedbackUpserted(t, professorId, originalMessage, telegramMessageId, telegramUserId, messageDate, e);
    match RowOf(t.feedbacks, telegramMessageId)
    case Some(k) =>
      FeedbacksOverwriteValid(t.feedbacks, k, f, t.nextFeedbackId, |t.professors|);
      RowOfOnly(r.feedbacks, telegramMessageId, k);
      assert r.feedbacks[k := f] == r.feedbacks;
    case None =>
      FeedbacksAppendValid(t.feedbacks, f, t.nextFeedbackId, |t.professors|);
      RowOfOnly(r.feedbacks, telegramMessageId, |t.feedbacks|);
      assert r.feedbacks[|t.feedbacks| := f] == r.feedbacks;
  }

  /** Overwriting a row with one of the same id and message keeps the
    * feedback table valid under the next sequence value. */
  lemma FeedbacksOverwriteValid(fs: seq<Feedback>, k: nat, f: Feedback, nextId: nat, professorCount: nat)
    requires FeedbacksValid(fs, nextId, professorCount) && k < |fs|
    requires f.id == fs[k].id && f.telegramMessageId == fs[k].telegramMessageId && 1 <= f.professorId <= professorCount
    ensures FeedbacksValid(fs[k := f], nextId + 1, professorCount)
    ensures forall i :: 0 <= i < |fs| && i != k ==> fs[k := f][i] == fs[i]
    ensures forall i :: 0 <= i < |fs| && i != k ==> fs[i].telegramMessageId != f.telegramMessageId
  {
  }

  /** Appending a row for a new message under the next id keeps the
    * feedback table valid. */
  lemma FeedbacksAppendValid(fs: seq<Feedback>, f: Feedback, nextId: nat, professorCount: nat)
    requires FeedbacksValid(fs, nextId, professorCount)
    requires f.id == nextId && 1 <= f.professorId <= professorCount
    requires forall i :: 0 <= i < |fs| ==> fs[i].telegramMessageId != f.telegramMessageId
    ensures FeedbacksValid(fs + [f], nextId + 1, professorCount)
    ensures forall i :: 0 <= i < |fs| ==> (fs + [f])[i] == fs[i]
  {
    var fs' := fs + [f];
    assert forall i :: 0 <= i < |fs| ==> fs'[i] == fs[i];
    assert fs'[|fs|] == f;
    forall i | 0 <= i < |fs| ensures fs'[i].id < fs'[|fs|].id {
      assert fs[i].id < nextId;
    }
  }

  /** The row of a message that only one row carries. */
  lemma RowOfOnly(fs: seq<Feedback>, telegramMessageId: int, k: nat)
    requires k < |fs| && fs[k].telegramMessageId == telegramMessageId
    requires forall i :: 0 <= i < |fs| && i != k ==> fs[i].telegramMessageId != telegramMessageId
    ensures RowOf(fs, telegramMessageId) == Some(k)
  {
  }

  /** mark_message_processed as an upsert on the Telegram message id: the
    * row of the message is overwritten, or a row is appended. */
  function Marked(t: Tables, telegramMessageId: int, isFeedback: bool, feedbackId: Option<nat>, error: Option<string>): Tables
  {
    var row := ProcessedMessage(telegramMessageId, isFeedback, feedbackId, error);
    match EntryOf(t.ledger, telegramMessageId)
    case Some(k) => t.(ledger := t.ledger[k := row])
    case None => t.(ledger := t.ledger + [row])
  }

  /** After marking, the message has exactly one row, holding the values
    * given; the rows of other messages stay where they were; and a later
    * mark of the same message replaces the earlier one entirely. */
  lemma MarkedSpec(t: Tables, telegramMessageId: int, isFeedback: bool, feedbackId: Option<nat>, error: Option<string>,
                   isFeedback2: bool, feedbackId2: Option<nat>, error2: Option<string>)
    requires TablesValid(t)
    ensures var r := Marked(t, telegramMessageId, isFeedback, feedbackId, error);
      var row := ProcessedMessage(telegramMessageId, isFeedback, feedbackId, error);
      TablesValid(r) && r == t.(ledger := r.ledger)
      && EntryOf(r.ledger, telegramMessageId).Some?
      && r.ledger[EntryOf(r.ledger, telegramMessageId).value] == row
      && |t.ledger| <= |r.ledger| <= |t.ledger| + 1
      && (forall i :: 0 <= i < |t.ledger| && t.ledger[i].telegramMessageId != telegramMessageId ==> r.ledger[i] == t.ledger[i])
      && Marked(r, telegramMessageId, isFeedback2, feedbackId2, error2)
         == Marked(t, telegramMessageId, isFeedback2, feedbackId2, error2)
  {
    var r := Marked(t, telegramMessageId, isFeedback, feedbackId, error);
    var row := ProcessedMessage(telegramMessageId, isFeedback, feedbackId, error);
    var row2 := ProcessedMessage(telegramMessageId, isFeedback2, feedbackId2, error2);
    match EntryOf(t.ledger, telegramMessageId)
    case Some(k) =>
      EntryOnly(r.ledger, telegramMessageId, k);
      assert r.ledger[k := row2] == t.ledger[k := row2];
    case None =>
      var n := |t.ledger|;
      assert forall i :: 0 <= i < n ==> r.ledger[i] == t.ledger[i];
      EntryOnly(r.ledger, telegramMessageId, n);
      assert r.ledger[n := row2] == t.ledger + [row2];
  }

  /** The row of a message that only one ledger row carries. */
  lemma EntryOnly(ledger: seq<ProcessedMessage>, telegramMessageId: int, k: nat)
    requires k < |ledger| && ledger[k].telegramMessageId == telegramMessageId
    requires forall i :: 0 <= i < |ledger| && i != k ==> ledger[i].telegramMessageId != telegramMessageId
    ensures EntryOf(ledger, telegramMessageId) == Some(k)
  {
  }

  /** upsert_telegram_user: an existing user keeps every old value that is
    * not replaced by a non-empty new one; a new user is inserted as given. */
  function UserUpserted(t: Tables, telegramUserId: int, username: Option<string>, displayName: Option<string>,
                        firstName: Option<string>, lastName: Option<string>): (Tables, TelegramUser)
  {
    var u :=
      if telegramUserId in t.users then
        var old_ := t.users[telegramUserId];
        old_.(username := KeepUnlessGiven(username, old_.username),
              displayName := KeepUnlessGiven(displayName, old_.displayName),
              firstName := KeepUnlessGiven(firstName, old_.firstName),
              lastName := KeepUnlessGiven(lastName, old_.lastName))
      else TelegramUser(telegramUserId, username, displayName, firstName, lastName);
    (t.(users := t.users[telegramUserId := u]), u)
  }

  /** The user is stored under its id; an old value survives an empty or
    * missing new one; no other user changes; and repeating the upsert
    * changes nothing more. */
  lemma UserUpsertedSpec(t: Tables, telegramUserId: int, username: Option<string>, displayName: Option<string>,
                         firstName: Option<string>, lastName: Option<string>)
    requires TablesValid(t)
    ensures var (r, u) := UserUpserted(t, telegramUserId, username, displayName, firstName, lastName);
      TablesValid(r) && r == t.(users := r.users)
      && r.users.Keys == t.users.Keys + {telegramUserId} && r.users[telegramUserId] == u
      && (forall v :: v in t.users && v != telegramUserId ==> r.users[v] == t.users[v])
      && (telegramUserId in t.users && (username.None? || username == Some([])) ==>
            u.username == t.users[telegramUserId].username)
      && (telegramUserId !in t.users ==> u == TelegramUser(telegramUserId, username, displayName, firstName, lastName))
      && UserUpserted(r, telegramUserId, username, displayName, firstName, lastName) == (r, u)
  {
    var (r, u) := UserUpserted(t, telegramUserId, username, displayName, firstName, lastName);
    KeepUnlessGivenSpec(username, u.username);
    KeepUnlessGivenSpec(displayName, u.displayName);
    KeepUnlessGivenSpec(firstName, u.firstName);
    KeepUnlessGivenSpec(lastName, u.lastName);
    if telegramUserId in t.users {
      var o := t.users[telegramUserId];
      KeepUnlessGivenSpec(username, o.username);
      KeepUnlessGivenSpec(displayName, o.displayName);
      KeepUnlessGivenSpec(firstName, o.firstName);
      KeepUnlessGivenSpec(lastName, o.lastName);
    }
    assert r.users[telegramUserId := u] == r.users;
  }

  /** create_bulk_import_log: a new running log with the next id. */
  function LogCreated(t: Tables, now: int): (Tables, BulkImportLog)
  {
    var log := NewBulkImportLog(|t.logs| + 1, now);
    (t.(logs := t.logs + [log]), log)
  }

  /** update_bulk_import_progress: only the values passed are written; an
    * unknown log id changes nothing. */
  function ProgressUpdated(t: Tables, logId: int, processed: Option<int>, feedbacksCreated: Option<int>,
                           professorsCreated: Option<int>, errors: Option<int>, lastMessageId: Option<int>): Tables
  {
    if 1 <= logId <= |t.logs| then
      var l := t.logs[logId - 1];
      t.(logs := t.logs[logId - 1 := l.(
        processedMessages := SetIfGiven(processed, l.processedMessages),
        feedbacksCreated := SetIfGiven(feedbacksCreated, l.feedbacksCreated),
        professorsCreated := SetIfGiven(professorsCreated, l.professorsCreated),
        errorsCount := SetIfGiven(errors, l.errorsCount),
        lastProcessedMessageId := if lastMessageId.Some? then lastMessageId else l.lastProcessedMessageId)])
    else t
  }

  /** complete_bulk_import: the status and the completion time are set, the
    * total only when passed, the error message only when non-empty. */
  function Completed(t: Tables, logId: int, status: string, total: Option<int>, errorMessage: Option<string>, now: int): Tables
  {
    if 1 <= logId <= |t.logs| then
      var l := t.logs[logId - 1];
      t.(logs := t.logs[logId - 1 := l.(
        status := status, completedAt := Some(now),
        totalMessages := SetIfGiven(total, l.totalMessages),
        errorMessage := KeepUnlessGiven(errorMessage, l.errorMessage))])
    else t
  }

  /** The log operations keep the other tables and the other logs; a created
    * log is found at its id; a progress update leaves every counter not
    * passed as it was; a completed log has its status, a completion time
    * and, once started, a duration. */
  lemma LogOpsSpec(t: Tables, now: int, logId: int, processed: Option<int>, feedbacksCreated: Option<int>,
                   professorsCreated: Option<int>, errors: Option<int>, lastMessageId: Option<int>,
                   status: string, total: Option<int>, errorMessage: Option<string>)
    requires TablesValid(t)
    ensures var (c, log) := LogCreated(t, now);
      TablesValid(c) && c == t.(logs := c.logs) && c.logs[log.id - 1] == log && log.status == "running"
    ensures var u := ProgressUpdated(t, logId, processed, feedbacksCreated, professorsCreated, errors, lastMessageId);
      TablesValid(u) && u == t.(logs := u.logs) && |u.logs| == |t.logs|
      && (forall i :: 0 <= i < |t.logs| && i != logId - 1 ==> u.logs[i] == t.logs[i])
      && (1 <= logId <= |t.logs| ==>
            var l, l' := t.logs[logId - 1], u.logs[logId - 1];
            l' == l.(processedMessages := l'.processedMessages, feedbacksCreated := l'.feedbacksCreated,
                     professorsCreated := l'.professorsCreated, errorsCount := l'.errorsCount,
                     lastProcessedMessageId := l'.lastProcessedMessageId)
            && (processed.None? ==> l'.processedMessages == l.processedMessages)
            && (processed.Some? ==> l'.processedMessages == processed.value)
            && (feedbacksCreated.None? ==> l'.feedbacksCreated == l.feedbacksCreated)
            && (errors.None? ==> l'.errorsCount == l.errorsCount)
            && (lastMessageId.None? ==> l'.lastProcessedMessageId == l.lastProcessedMessageId))
    ensures var d := Completed(t, logId, status, total, errorMessage, now);
      TablesValid(d) && d == t.(logs := d.logs) && |d.logs| == |t.logs|
      && (forall i :: 0 <= i < |t.logs| && i != logId - 1 ==> d.logs[i] == t.logs[i])
      && (1 <= logId <= |t.logs| ==>
            var l, l' := t.logs[logId - 1], d.logs[logId - 1];
            l'.status == status && l'.completedAt == Some(now)
            && l'.processedMessages == l.processedMessages && l'.feedbacksCreated == l.feedbacksCreated
            && (total.None? ==> l'.totalMessages == l.totalMessages)
            && (errorMessage.None? || errorMessage == Some([]) ==> l'.errorMessage == l.errorMessage)
            && (l.startedAt.Some? ==> DurationMinutes(l').Some?))
  {
    if 1 <= logId <= |t.logs| {
      KeepUnlessGivenSpec(errorMessage, t.logs[logId - 1].errorMessage);
    }
  }

  // =====================================================================
  // The store

  /** The database service over its tables. Each method is one transaction
    * and is specified by the function of the tables above that it
    * computes. */
  class Store {
    var professors: seq<Professor>
    var feedbacks: seq<Feedback>
    var nextFeedbackId: nat
    var ledger: seq<ProcessedMessage>
    var users: map<int, TelegramUser>
    var logs: seq<BulkImportLog>
    /** rapidfuzz's fuzz.token_sort_ratio */
    const tokenSortRatio: Scorer
    /** normalize_professor_name, set by the constructor */
    const nameKey: NameKey

    ghost function Snapshot(): Tables
      reads this
    {
      Tables(professors, feedbacks, nextFeedbackId, ledger, users, logs)
    }

    ghost predicate Valid()
      reads this
    {
      TablesValid(Snapshot()) && Keyed(professors, nameKey) && KeyIgnoresOuterBlanks(nameKey)
    }

    constructor(tokenSortRatio: Scorer)
      ensures Snapshot() == EmptyTables() && Valid()
      ensures this.tokenSortRatio == tokenSortRatio && nameKey == NormalizeProfessorName
    {
      professors, feedbacks, nextFeedbackId := [], [], 1;
      ledger, users, logs := [], map[], [];
      this.tokenSortRatio := tokenSortRatio;
      nameKey := NormalizeProfessorName;
      NormalizerIgnoresOuterBlanks();
    }

    /** find_professor_by_name: the first row whose name_normalized is the
      * normalised name, or None when no row has it. */
    method FindProfessorByName(name: string) returns (p: Option<Professor>)
      ensures var k := ExactMatch(professors, nameKey(name));
        (p.Some? <==> k.Some?) && (p.Some? ==> p.value == professors[k.value])
    {
      var key := nameKey(name);
      var i := 0;
      while i < |professors|
        invariant i <= |professors|
        invariant forall j :: 0 <= j < i ==> professors[j].nameNormalized != key
      {
        if professors[i].nameNormalized == key {
          return Some(professors[i]);
        }
        i := i + 1;
      }
      return None;
    }

    /** search_professor_fuzzy: the first row with the best token-sort score
      * against the normalised name, if that score reaches the threshold. */
    method SearchProfessorFuzzy(name: string, threshold: real) returns (p: Option<Professor>)
      ensures var k := FuzzyMatch(professors, tokenSortRatio, nameKey(name), threshold);
        (p.Some? <==> k.Some?) && (p.Some? ==> p.value == professors[k.value])
    {
      if professors == [] {
        return None;
      }
      var key := nameKey(name);
      // process.extractOne over the normalised names (kept in name_normalized)
      var best := 0;
      var bestScore := tokenSortRatio(key, professors[0].nameNormalized);
      var i := 1;
      while i < |professors|
        invariant 1 <= i <= |professors|
        invariant best == BestIndex(professors[..i], tokenSortRatio, key)
        invariant bestScore == Score(tokenSortRatio, key, professors[best])
      {
        assert professors[..i + 1][..i] == professors[..i];
        var score := tokenSortRatio(key, professors[i].nameNormalized);
        if score > bestScore {
          best, bestScore := i, score;
        }
        i := i + 1;
      }
      assert professors[..i] == professors;
      if bestScore < threshold {
        return None;
      }
      // the first row whose normalised name is the winning choice
      var matched := professors[best].nameNormalized;
      var k := 0;
      while professors[k].nameNormalized != matched
        invariant k <= best
        decreases best - k
      {
        k := k + 1;
      }
      assert Score(tokenSortRatio, key, professors[k]) == bestScore;
      return Some(professors[k]);
    }

    /** find_or_create_professor, as FoundOrCreated describes it. */
    method FindOrCreateProfessor(name: string, department: Option<string>) returns (p: Professor, created: bool)
      requires Valid()
      modifies this
      ensures (Snapshot(), p, created) == FoundOrCreated(old(Snapshot()), tokenSortRatio, nameKey, name, department)
      ensures Valid()
    {
      var exact := FindProfessorByName(name);
      if exact.Some? {
        p, created := exact.value, false;
      } else {
        var fuzzy := SearchProfessorFuzzy(name, 85.0);
        if fuzzy.Some? {
          p, created := fuzzy.value, false;
        } else {
          p := CreateProfessor(name, department);
          created := true;
        }
      }
    }

    /** The INSERT of find_or_create_professor: a new row with the next id,
      * the stripped name, its key and the defaults of a new row. */
    method CreateProfessor(name: string, department: Option<string>) returns (p: Professor)
      requires Valid() && forall j :: 0 <= j < |professors| ==> professors[j].nameNormalized != nameKey(name)
      modifies this
      ensures p == NewProfessor(|old(professors)| + 1, Strip(name), nameKey(name), department)
      ensures Snapshot() == old(Snapshot()).(professors := old(professors) + [p])
      ensures Valid()
    {
      CreatedRowValid(professors, nameKey, name, department);
      p := NewProfessor(|professors| + 1, Strip(name), nameKey(name), department);
      ghost var t' := Snapshot().(professors := professors + [p]);
      RowAppendedValid(Snapshot(), t');
      professors := professors + [p];
      assert Snapshot() == t';
    }

    /** add_course_to_professor, as CourseAttached describes it. */
    method AddCourseToProfessor(professorId: int, code: string)
      requires Valid()
      modifies this
      ensures Snapshot() == CourseAttached(old(Snapshot()), professorId, code)
      ensures Valid()
    {
      CourseAttachedSpec(Snapshot(), professorId, code);
      if 1 <= professorId <= |professors| && code != [] {
        var p := professors[professorId - 1];
        if code !in p.courses {
          professors := professors[professorId - 1 := p.(courses := p.courses + [code])];
        }
      }
    }

    /** update_professor_statistics, as StatsUpdated describes it; false
      * when it raises, which leaves every table as it was. */
    method UpdateProfessorStatistics(professorId: int) returns (ok: bool)
      requires Valid()
      modifies this
      ensures ok <==> StatsUpdated(old(Snapshot()), professorId).Some?
      ensures Snapshot() == StatsUpdated(old(Snapshot()), professorId).GetOr(old(Snapshot()))
      ensures Valid()
    {
      ghost var t := Snapshot();
      if !(1 <= professorId <= |professors|) {
        return true;
      }
      var fs := OfProfessor(feedbacks, professorId);
      if fs == [] {
        return true;
      }
      var row := RecomputedRow(professors[professorId - 1], fs);
      if row.None? {
        return false;
      }
      RecomputedKeeps(professors[professorId - 1], fs);
      ReplaceProfessorRow(professorId - 1, row.value);
      ok := true;
    }

    /** Writes back one professor row whose identity, name, key and courses
      * are those of the row it replaces. */
    method ReplaceProfessorRow(k: nat, p: Professor)
      requires Valid() && k < |professors|
      requires p.id == professors[k].id && p.name == professors[k].name
      requires p.nameNormalized == professors[k].nameNormalized && p.courses == professors[k].courses
      modifies this
      ensures Snapshot() == old(Snapshot()).(professors := old(professors)[k := p])
      ensures Valid()
    {
      ghost var t := Snapshot();
      RowReplacedValid(t, k, t.(professors := professors[k := p]));
      KeyedUpdate(professors, k, p, nameKey);
      professors := professors[k := p];
    }

    /** create_feedback, as FeedbackUpserted describes it. */
    method CreateFeedback(professorId: nat, originalMessage: string, telegramMessageId: int, e: Gemini.Extraction,
                          telegramUserId: Option<int>, messageDate: Option<int>) returns (f: Feedback)
      requires Valid() && 1 <= professorId <= |professors|
      modifies this
      ensures (Snapshot(), f) == FeedbackUpserted(old(Snapshot()), professorId, originalMessage, telegramMessageId,
                                                  telegramUserId, messageDate, e)
      ensures Valid()
    {
      FeedbackUpsertedSpec(Snapshot(), professorId, originalMessage, telegramMessageId, telegramUserId, messageDate, e);
      var k := RowOf(feedbacks, telegramMessageId);
      if k.Some? {
        f := FeedbackRow(feedbacks[k.value].id, professorId, originalMessage, telegramMessageId, telegramUserId, messageDate, e);
        feedbacks := feedbacks[k.value := f];
      } else {
        f := FeedbackRow(nextFeedbackId, professorId, originalMessage, telegramMessageId, telegramUserId, messageDate, e);
        feedbacks := feedbacks + [f];
      }
      nextFeedbackId := nextFeedbackId + 1;
    }

    /** is_message_processed: whether the ledger has a row for the
      * message. */
    method IsMessageProcessed(telegramMessageId: int) returns (b: bool)
      ensures b <==> exists i :: 0 <= i < |ledger| && ledger[i].telegramMessageId == telegramMessageId
    {
      b := EntryOf(ledger, telegramMessageId).Some?;
    }

    /** mark_message_processed, as Marked describes it; returns the row. */
    method MarkMessageProcessed(telegramMessageId: int, isFeedback: bool, feedbackId: Option<nat>, error: Option<string>)
      returns (row: ProcessedMessage)
      requires Valid()
      modifies this
      ensures Snapshot() == Marked(old(Snapshot()), telegramMessageId, isFeedback, feedbackId, error)
      ensures row == ProcessedMessage(telegramMessageId, isFeedback, feedbackId, error)
      ensures Valid()
    {
      MarkedSpec(Snapshot(), telegramMessageId, isFeedback, feedbackId, error, isFeedback, feedbackId, error);
      row := ProcessedMessage(telegramMessageId, isFeedback, feedbackId, error);
      match EntryOf(ledger, telegramMessageId)
      case Some(k) => ledger := ledger[k := row];
      case None => ledger := ledger + [row];
    }

    /** get_last_processed_message_id: the largest message id in the ledger,
      * None when it is empty. */
    method GetLastProcessedMessageId() returns (r: Option<int>)
      ensures r.None? <==> ledger == []
      ensures r.Some? ==> EntryOf(ledger, r.value).Some?
      ensures r.Some? ==> forall i :: 0 <= i < |ledger| ==> ledger[i].telegramMessageId <= r.value
    {
      r := None;
      var i := 0;
      while i < |ledger|
        invariant 0 <= i <= |ledger|
        invariant r.None? <==> i == 0
        invariant r.Some? ==> exists j :: 0 <= j < i && ledger[j].telegramMessageId == r.value
        invariant r.Some? ==> forall j :: 0 <= j < i ==> ledger[j].telegramMessageId <= r.value
      {
        if r.None? || ledger[i].telegramMessageId > r.value {
          r := Some(ledger[i].telegramMessageId);
        }
        i := i + 1;
      }
    }

    /** upsert_telegram_user, as UserUpserted describes it. */
    method UpsertTelegramUser(telegramUserId: int, username: Option<string>, displayName: Option<string>,
                              firstName: Option<string>, lastName: Option<string>) returns (u: TelegramUser)
      requires Valid()
      modifies this
      ensures (Snapshot(), u) == UserUpserted(old(Snapshot()), telegramUserId, username, displayName, firstName, lastName)
      ensures Valid()
    {
      UserUpsertedSpec(Snapshot(), telegramUserId, username, displayName, firstName, lastName);
      if telegramUserId in users {
        var old_ := users[telegramUserId];
        u := old_.(username := KeepUnlessGiven(username, old_.username),
                   displayName := KeepUnlessGiven(displayName, old_.displayName),
                   firstName := KeepUnlessGiven(firstName, old_.firstName),
                   lastName := KeepUnlessGiven(lastName, old_.lastName));
      } else {
        u := TelegramUser(telegramUserId, username, displayName, firstName, lastName);
      }
      users := users[telegramUserId := u];
    }

    /** create_bulk_import_log, as LogCreated describes it. */
    method CreateBulkImportLog(now: int) returns (log: BulkImportLog)
      requires Valid()
      modifies this
      ensures (Snapshot(), log) == LogCreated(old(Snapshot()), now)
      ensures Valid()
    {
      LogOpsSpec(Snapshot(), now, 0, None, None, None, None, None, "", None, None);
      log := NewBulkImportLog(|logs| + 1, now);
      logs := logs + [log];
    }

    /** update_bulk_import_progress, as ProgressUpdated describes it. */
    method UpdateBulkImportProgress(logId: int, processed: Option<int>, feedbacksCreated: Option<int>,
                                    professorsCreated: Option<int>, errors: Option<int>, lastMessageId: Option<int>)
      requires Valid()
      modifies this
      ensures Snapshot() == ProgressUpdated(old(Snapshot()), logId, processed, feedbacksCreated, professorsCreated, errors, lastMessageId)
      ensures Valid()
    {
      LogOpsSpec(Snapshot(), 0, logId, processed, feedbacksCreated, professorsCreated, errors, lastMessageId, "", None, None);
      if 1 <= logId <= |logs| {
        var l := logs[logId - 1];
        if processed.Some? {
          l := l.(processedMessages := processed.value);
        }
        if feedbacksCreated.Some? {
          l := l.(feedbacksCreated := feedbacksCreated.value);
        }
        if professorsCreated.Some? {
          l := l.(professorsCreated := professorsCreated.value);
        }
        if errors.Some? {
          l := l.(errorsCount := errors.value);
        }
        if lastMessageId.Some? {
          l := l.(lastProcessedMessageId := lastMessageId);
        }
        logs := logs[logId - 1 := l];
      }
    }

    /** complete_bulk_import, as Completed describes it. */
    method CompleteBulkImport(logId: int, status: string, total: Option<int>, errorMessage: Option<string>, now: int)
      requires Valid()
      modifies this
      ensures Snapshot() == Completed(old(Snapshot()), logId, status, total, errorMessage, now)
      ensures Valid()
    {
      LogOpsSpec(Snapshot(), now, logId, None, None, None, None, None, status, total, errorMessage);
      if 1 <= logId <= |logs| {
        var l := logs[logId - 1];
        l := l.(status := status, completedAt := Some(now));
        if total.Some? {
          l := l.(totalMessages := total.value);
        }
        if errorMessage.Some? && errorMessage.value != [] {
          l := l.(errorMessage := errorMessage);
        }
        logs := logs[logId - 1 := l];
      }
    }
  }
}
