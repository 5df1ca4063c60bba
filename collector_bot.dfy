// bots/collector_bot.py: the collector bot. Each message of the feedback
// group goes through a gate-by-gate pipeline that ends in the store; the
// processed-message ledger is written LAST, so a message whose processing
// raises is not recorded and is looked at again later. A bulk import and a
// periodic check run the pipeline over a stream of messages, and two admin
// commands flip the monitoring flag.
//
// The model's replacements for what is outside it: the language model is an
// oracle (the replies it gives, or an exception); the Telegram client is the
// stream of items it yields; the embedding store, whose failures the
// pipeline swallows, is left out; clocks are parameters.
module Collector {
  import opened Wrappers
  import opened JsonValues
  import opened TextProcessing
  import opened Models
  import opened Database
  import Gemini
  import TelegramHistory
  import Configuration

  /** What extract_feedback does for one text: it gets the model's replies,
    * or an exception escapes it. */
  datatype Extractor = Replies(first: Gemini.Reply, mini: Gemini.Reply) | Raises(error: string)

  /** The dictionary process_message returns. */
  datatype Outcome = Outcome(isFeedback: bool, feedbackCreated: bool, professorCreated: bool, feedbackId: Option<nat>)

  /** process_message returns its dictionary, or an exception escapes it. */
  datatype Finish = Returned(result: Outcome) | Raised

  /** The dictionary as it is first built: nothing found, nothing created. */
  const Untouched := Outcome(false, false, false, None)

  /** A message recognised as feedback that is not stored. */
  const Flagged := Outcome(true, false, false, None)

  /** name_for_matching: the normalized name when it is truthy, else the raw one. */
  function NameForMatching(e: Gemini.Extraction): Json
  {
    if Truthy(e.professorNameNormalized) then e.professorNameNormalized else e.professorName
  }

  /** The course code attached to the professor: a non-empty string. */
  predicate HasCourse(e: Gemini.Extraction)
  {
    e.courseCode.JStr? && e.courseCode.s != []
  }

  /** process_message on the tables t, for the message m and the extractor
    * x: the tables afterwards and how the call ends. */
  function Processed(t: Tables, scorer: Scorer, nameKey: NameKey, minConfidence: real,
                     m: TelegramHistory.Message, x: Extractor): (Tables, Finish)
  {
    if EntryOf(t.ledger, m.id).Some? then (t, Returned(Untouched))
    else
      var text := CleanFeedbackText(m.text);
      if |text| < 20 then (Marked(t, m.id, false, None, None), Returned(Untouched))
      else
        match x
        case Raises(error) => (Marked(t, m.id, false, None, Some(error)), Returned(Untouched))
        case Replies(first, mini) =>
          Gemini.ExtractFeedbackFailClosed(text, first, mini);
          Gated(t, scorer, nameKey, minConfidence, m, text, Gemini.ExtractFeedback(text, first, mini))
  }

  /** The gates after extraction: feedback with enough confidence, fit for
    * publication, naming a professor. A name that is not a string makes
    * normalize_professor_name raise. */
  function Gated(t: Tables, scorer: Scorer, nameKey: NameKey, minConfidence: real,
                 m: TelegramHistory.Message, text: string, e: Gemini.Extraction): (Tables, Finish)
    requires Gemini.NormalForm(e)
  {
    if !Truthy(e.isFeedback) || e.confidence.r < minConfidence then
      (Marked(t, m.id, false, None, None), Returned(Untouched))
    else if !Truthy(e.isAppropriate) then (Marked(t, m.id, false, None, None), Returned(Flagged))
    else
      var name := NameForMatching(e);
      if !Truthy(name) then (Marked(t, m.id, false, None, None), Returned(Flagged))
      else if !name.JStr? then (t, Raised)
      else Stored(t, scorer, nameKey, m, text, e, name.s)
  }

  /** The store writes of an accepted message, in order: find or create the
    * professor, attach the course, upsert the feedback, recompute the
    * statistics (which may raise), and last the ledger. */
  function Stored(t: Tables, scorer: Scorer, nameKey: NameKey, m: TelegramHistory.Message, text: string,
                  e: Gemini.Extraction, name: string): (Tables, Finish)
  {
    var (t1, p, created) := FoundOrCreated(t, scorer, nameKey, name, None);
    var t2 := if HasCourse(e) then CourseAttached(t1, p.id, e.courseCode.s) else t1;
    var (t3, f) := FeedbackUpserted(t2, p.id, text, m.id, m.userId, Some(m.date), e);
    match StatsUpdated(t3, p.id)
    case None => (t3, Raised)
    case Some(t4) => (Marked(t4, m.id, true, Some(f.id), None), Returned(Outcome(true, true, created, Some(f.id))))
  }

  /** A message already in the ledger is skipped: nothing is written and the
    * extractor plays no part. */
  lemma ProcessedDuplicate(t: Tables, scorer: Scorer, nameKey: NameKey, minConfidence: real,
                           m: TelegramHistory.Message, x: Extractor)
    requires EntryOf(t.ledger, m.id).Some?
    ensures Processed(t, scorer, nameKey, minConfidence, m, x) == (t, Returned(Untouched))
  {
  }

  /** A new message whose cleaned text is shorter than 20 characters gets a
    * non-feedback ledger row, whatever the extractor would have said. */
  lemma ProcessedTooShort(t: Tables, scorer: Scorer, nameKey: NameKey, minConfidence: real,
                          m: TelegramHistory.Message, x: Extractor)
    requires EntryOf(t.ledger, m.id).None? && |CleanFeedbackText(m.text)| < 20
    ensures Processed(t, scorer, nameKey, minConfidence, m, x)
              == (t.(ledger := t.ledger + [ProcessedMessage(m.id, false, None, None)]), Returned(Untouched))
  {
  }

  /** An exception from the extractor is recorded in the ledger with its
    * text; no professor or feedback is touched. */
  lemma ProcessedExtractorRaised(t: Tables, scorer: Scorer, nameKey: NameKey, minConfidence: real,
                                 m: TelegramHistory.Message, error: string)
    requires EntryOf(t.ledger, m.id).None? && |CleanFeedbackText(m.text)| >= 20
    ensures Processed(t, scorer, nameKey, minConfidence, m, Raises(error))
              == (t.(ledger := t.ledger + [ProcessedMessage(m.id, false, None, Some(error))]), Returned(Untouched))
  {
  }

  /** The gates: an extraction that is not feedback or not confident enough
    * is recorded as non-feedback; one that is inappropriate or names nobody
    * is recorded as non-feedback too, but the result reports it as
    * feedback. None of them touches a professor or a feedback row. */
  lemma GatedRejects(t: Tables, scorer: Scorer, nameKey: NameKey, minConfidence: real,
                     m: TelegramHistory.Message, text: string, e: Gemini.Extraction)
    requires Gemini.NormalForm(e) && EntryOf(t.ledger, m.id).None?
    ensures var nonFeedback := t.(ledger := t.ledger + [ProcessedMessage(m.id, false, None, None)]);
      var r := Gated(t, scorer, nameKey, minConfidence, m, text, e);
      (!Truthy(e.isFeedback) || e.confidence.r < minConfidence ==> r == (nonFeedback, Returned(Untouched)))
      && (Truthy(e.isFeedback) && e.confidence.r >= minConfidence && !Truthy(e.isAppropriate) ==>
            r == (nonFeedback, Returned(Flagged)))
      && (Truthy(e.isFeedback) && e.confidence.r >= minConfidence && !Truthy(NameForMatching(e)) ==>
            r == (nonFeedback, Returned(Flagged)))
  {
  }

  /** The accepted path. The professor is found or created, the feedback row
    * for the message is the one reported, and the ledger row, written last,
    * records it as feedback with that id; or the recomputation raises and
    * the ledger is left without the message, so it will be processed again,
    * while the feedback row stays (a rerun overwrites it). */
  lemma StoredSpec(t: Tables, scorer: Scorer, nameKey: NameKey, m: TelegramHistory.Message, text: string,
                   e: Gemini.Extraction, name: string)
    requires TablesValid(t) && Keyed(t.professors, nameKey) && KeyIgnoresOuterBlanks(nameKey)
    requires EntryOf(t.ledger, m.id).None?
    ensures var (r, fin) := Stored(t, scorer, nameKey, m, text, e, name);
      TablesValid(r) && Keyed(r.professors, nameKey)
      && RowOf(r.feedbacks, m.id).Some?
      && r.feedbacks[RowOf(r.feedbacks, m.id).value].originalMessage == text
      && (fin.Raised? ==> r.ledger == t.ledger)
      && (fin.Returned? ==>
            fin.result.isFeedback && fin.result.feedbackCreated && fin.result.feedbackId.Some?
            && r.ledger == t.ledger + [ProcessedMessage(m.id, true, fin.result.feedbackId, None)]
            && r.feedbacks[RowOf(r.feedbacks, m.id).value].id == fin.result.feedbackId.value)
  {
    var (t1, p, created) := FoundOrCreated(t, scorer, nameKey, name, None);
    FoundOrCreatedSpec(t, scorer, nameKey, name, None);
    var t2 := if HasCourse(e) then CourseAttached(t1, p.id, e.courseCode.s) else t1;
    if HasCourse(e) {
      CourseAttachedSpec(t1, p.id, e.courseCode.s);
      assert Keyed(t2.professors, nameKey) by { CourseKeepsKeys(t1, p.id, e.courseCode.s, nameKey); }
    }
    assert |t2.professors| == |t1.professors| && t2.ledger == t.ledger;
    var (t3, f) := FeedbackUpserted(t2, p.id, text, m.id, m.userId, Some(m.date), e);
    FeedbackUpsertedSpec(t2, p.id, text, m.id, m.userId, Some(m.date), e);
    StatsUpdatedRaises(t3, p.id);
    if StatsUpdated(t3, p.id).Some? {
      var t4 := StatsUpdated(t3, p.id).value;
      StatsUpdatedSpec(t3, p.id);
      StatsUpdatedShape(t3, p.id);
      assert Keyed(t4.professors, nameKey) by { StatsKeepKeys(t3, p.id, nameKey); }
      MarkedSpec(t4, m.id, true, Some(f.id), None, true, Some(f.id), None);
    }
  }

  /** The course attach keeps every professor's key. */
  lemma CourseKeepsKeys(t: Tables, professorId: int, code: string, nameKey: NameKey)
    requires TablesValid(t) && Keyed(t.professors, nameKey)
    ensures Keyed(CourseAttached(t, professorId, code).professors, nameKey)
  {
    var r := CourseAttached(t, professorId, code);
    if 1 <= professorId <= |t.professors| && code != [] {
      assert forall i :: 0 <= i < |t.professors| ==>
        r.professors[i].name == t.professors[i].name && r.professors[i].nameNormalized == t.professors[i].nameNormalized;
    }
  }

  /** The recomputation keeps every professor's key. */
  lemma StatsKeepKeys(t: Tables, professorId: int, nameKey: NameKey)
    requires Keyed(t.professors, nameKey) && StatsUpdated(t, professorId).Some?
    ensures Keyed(StatsUpdated(t, professorId).value.professors, nameKey)
  {
    StatsUpdatedShape(t, professorId);
    if 1 <= professorId <= |t.professors| {
      KeyedUpdate(t.professors, professorId - 1, StatsUpdated(t, professorId).value.professors[professorId - 1], nameKey);
    }
  }

  /** Every call that gets past the dedup check and returns adds exactly one
    * ledger row, the message's, at the end; a call that raises adds none.
    * When no feedback row is created, no professor or feedback row is
    * touched. The table invariants hold throughout. */
  lemma ProcessedLedgerOnce(t: Tables, scorer: Scorer, nameKey: NameKey, minConfidence: real,
                            m: TelegramHistory.Message, x: Extractor)
    requires TablesValid(t) && Keyed(t.professors, nameKey) && KeyIgnoresOuterBlanks(nameKey)
    requires EntryOf(t.ledger, m.id).None?
    ensures var (r, fin) := Processed(t, scorer, nameKey, minConfidence, m, x);
      TablesValid(r)
      && (fin.Raised? ==> r.ledger == t.ledger)
      && (fin.Returned? ==> |r.ledger| == |t.ledger| + 1 && r.ledger[..|t.ledger|] == t.ledger
                            && r.ledger[|t.ledger|].telegramMessageId == m.id)
      && (fin.Returned? && !fin.result.feedbackCreated ==> r.professors == t.professors && r.feedbacks == t.feedbacks)
  {
    var text := CleanFeedbackText(m.text);
    var nonFeedback := ProcessedMessage(m.id, false, None, None);
    MarkedSpec(t, m.id, false, None, None, false, None, None);
    if |text| >= 20 && x.Replies? {
      var e := Gemini.ExtractFeedback(text, x.first, x.mini);
      Gemini.ExtractFeedbackFailClosed(text, x.first, x.mini);
      var name := NameForMatching(e);
      if Truthy(e.isFeedback) && e.confidence.r >= minConfidence && Truthy(e.isAppropriate)
         && Truthy(name) && name.JStr? {
        StoredSpec(t, scorer, nameKey, m, text, e, name.s);
      } else {
        GatedRejects(t, scorer, nameKey, minConfidence, m, text, e);
      }
    } else if |text| >= 20 {
      MarkedSpec(t, m.id, false, None, Some(x.error), false, None, Some(x.error));
    }
  }

  /** The results of the pipeline over a stream of messages, in order, with
    * the tables it leaves. */
  function Imported(t: Tables, scorer: Scorer, nameKey: NameKey, minConfidence: real,
                    ms: seq<TelegramHistory.Message>, oracle: TelegramHistory.Message -> Extractor): (res: (Tables, seq<Finish>))
    ensures |res.1| == |ms|
  {
    if ms == [] then (t, [])
    else
      var (t', fs) := Imported(t, scorer, nameKey, minConfidence, ms[..|ms| - 1], oracle);
      var (t'', f) := Processed(t', scorer, nameKey, minConfidence, ms[|ms| - 1], oracle(ms[|ms| - 1]));
      (t'', fs + [f])
  }

  /** The pipeline never touches the import logs or the users. */
  lemma {:induction false} ImportedKeepsLogs(t: Tables, scorer: Scorer, nameKey: NameKey, minConfidence: real,
                                             ms: seq<TelegramHistory.Message>, oracle: TelegramHistory.Message -> Extractor)
    ensures var (r, fs) := Imported(t, scorer, nameKey, minConfidence, ms, oracle);
      r.logs == t.logs && r.users == t.users && |fs| == |ms|
  {
    if ms != [] {
      var (t', fs) := Imported(t, scorer, nameKey, minConfidence, ms[..|ms| - 1], oracle);
      ImportedKeepsLogs(t, scorer, nameKey, minConfidence, ms[..|ms| - 1], oracle);
      ProcessedFrame(t', t'.logs, scorer, nameKey, minConfidence, ms[|ms| - 1], oracle(ms[|ms| - 1]));
    }
  }

  /** process_message reads and writes neither the import logs nor the
    * users: it leaves them as they are, and runs alike whatever the logs
    * hold. */
  lemma ProcessedFrame(t: Tables, logs: seq<BulkImportLog>, scorer: Scorer, nameKey: NameKey, minConfidence: real,
                       m: TelegramHistory.Message, x: Extractor)
    ensures var (r, fin) := Processed(t, scorer, nameKey, minConfidence, m, x);
      r.logs == t.logs && r.users == t.users
      && Processed(t.(logs := logs), scorer, nameKey, minConfidence, m, x) == (r.(logs := logs), fin)
  {
    var text := CleanFeedbackText(m.text);
    if EntryOf(t.ledger, m.id).None? && |text| >= 20 && x.Replies? {
      var e := Gemini.ExtractFeedback(text, x.first, x.mini);
      Gemini.ExtractFeedbackFailClosed(text, x.first, x.mini);
      var name := NameForMatching(e);
      if Truthy(e.isFeedback) && e.confidence.r >= minConfidence && Truthy(e.isAppropriate)
         && Truthy(name) && name.JStr? {
        StoredFrame(t, logs, scorer, nameKey, m, text, e, name.s);
      }
    }
  }

  lemma StoredFrame(t: Tables, logs: seq<BulkImportLog>, scorer: Scorer, nameKey: NameKey, m: TelegramHistory.Message,
                    text: string, e: Gemini.Extraction, name: string)
    ensures var (r, fin) := Stored(t, scorer, nameKey, m, text, e, name);
      r.logs == t.logs && r.users == t.users
      && Stored(t.(logs := logs), scorer, nameKey, m, text, e, name) == (r.(logs := logs), fin)
  {
    var (t1, p, created) := FoundOrCreated(t, scorer, nameKey, name, None);
    FoundOrCreatedFrame(t, logs, scorer, nameKey, name);
    var t2 := if HasCourse(e) then CourseAttached(t1, p.id, e.courseCode.s) else t1;
    if HasCourse(e) {
      CourseAttachedFrame(t1, logs, p.id, e.courseCode.s);
    }
    var (t3, f) := FeedbackUpserted(t2, p.id, text, m.id, m.userId, Some(m.date), e);
    FeedbackUpsertedFrame(t2, logs, p.id, text, m.id, m.userId, Some(m.date), e);
    StatsUpdatedFrame(t3, logs, p.id);
    if StatsUpdated(t3, p.id).Some? {
      MarkedFrame(StatsUpdated(t3, p.id).value, logs, m.id, true, Some(f.id), None);
    }
  }

  lemma FoundOrCreatedFrame(t: Tables, logs: seq<BulkImportLog>, scorer: Scorer, nameKey: NameKey, name: string)
    ensures var (r, p, created) := FoundOrCreated(t, scorer, nameKey, name, None);
      r.logs == t.logs && r.users == t.users
      && FoundOrCreated(t.(logs := logs), scorer, nameKey, name, None) == (r.(logs := logs), p, created)
  {
  }

  lemma CourseAttachedFrame(t: Tables, logs: seq<BulkImportLog>, professorId: int, code: string)
    ensures var r := CourseAttached(t, professorId, code);
      r.logs == t.logs && r.users == t.users && CourseAttached(t.(logs := logs), professorId, code) == r.(logs := logs)
  {
  }

  lemma FeedbackUpsertedFrame(t: Tables, logs: seq<BulkImportLog>, professorId: nat, originalMessage: string,
                              telegramMessageId: int, telegramUserId: Option<int>, messageDate: Option<int>, e: Gemini.Extraction)
    ensures var (r, f) := FeedbackUpserted(t, professorId, originalMessage, telegramMessageId, telegramUserId, messageDate, e);
      r.logs == t.logs && r.users == t.users
      && FeedbackUpserted(t.(logs := logs), professorId, originalMessage, telegramMessageId, telegramUserId, messageDate, e)
         == (r.(logs := logs), f)
  {
  }

  lemma StatsUpdatedFrame(t: Tables, logs: seq<BulkImportLog>, professorId: int)
    ensures var r := StatsUpdated(t, professorId);
      (r.Some? ==> r.value.logs == t.logs && r.value.users == t.users)
      && StatsUpdated(t.(logs := logs), professorId) == (if r.Some? then Some(r.value.(logs := logs)) else None)
  {
  }

  lemma MarkedFrame(t: Tables, logs: seq<BulkImportLog>, telegramMessageId: int, isFeedback: bool,
                    feedbackId: Option<nat>, error: Option<string>)
    ensures var r := Marked(t, telegramMessageId, isFeedback, feedbackId, error);
      r.logs == t.logs && r.users == t.users
      && Marked(t.(logs := logs), telegramMessageId, isFeedback, feedbackId, error) == r.(logs := logs)
  {
  }

  /** The pipeline keeps the table invariants over a whole stream. */
  lemma {:induction false} ImportedValid(t: Tables, scorer: Scorer, nameKey: NameKey, minConfidence: real,
                                         ms: seq<TelegramHistory.Message>, oracle: TelegramHistory.Message -> Extractor)
    requires TablesValid(t) && Keyed(t.professors, nameKey) && KeyIgnoresOuterBlanks(nameKey)
    ensures TablesValid(Imported(t, scorer, nameKey, minConfidence, ms, oracle).0)
    ensures Keyed(Imported(t, scorer, nameKey, minConfidence, ms, oracle).0.professors, nameKey)
  {
    if ms != [] {
      var (t', fs) := Imported(t, scorer, nameKey, minConfidence, ms[..|ms| - 1], oracle);
      ImportedValid(t, scorer, nameKey, minConfidence, ms[..|ms| - 1], oracle);
      ProcessedValid(t', scorer, nameKey, minConfidence, ms[|ms| - 1], oracle(ms[|ms| - 1]));
    }
  }

  lemma ProcessedValid(t: Tables, scorer: Scorer, nameKey: NameKey, minConfidence: real,
                       m: TelegramHistory.Message, x: Extractor)
    requires TablesValid(t) && Keyed(t.professors, nameKey) && KeyIgnoresOuterBlanks(nameKey)
    ensures TablesValid(Processed(t, scorer, nameKey, minConfidence, m, x).0)
    ensures Keyed(Processed(t, scorer, nameKey, minConfidence, m, x).0.professors, nameKey)
  {
    if EntryOf(t.ledger, m.id).None? {
      ProcessedLedgerOnce(t, scorer, nameKey, minConfidence, m, x);
      var text := CleanFeedbackText(m.text);
      if |text| >= 20 && x.Replies? {
        var e := Gemini.ExtractFeedback(text, x.first, x.mini);
        Gemini.ExtractFeedbackFailClosed(text, x.first, x.mini);
        var name := NameForMatching(e);
        if Truthy(e.isFeedback) && e.confidence.r >= minConfidence && Truthy(e.isAppropriate)
           && Truthy(name) && name.JStr? {
          StoredSpec(t, scorer, nameKey, m, text, e, name.s);
        }
      }
    }
  }

  /** The counters run_bulk_import keeps. */
  datatype ImportStats = ImportStats(total: nat, processed: nat, feedbacks: nat, professors: nat, errors: nat)

  /** The counters after one more result: a returned call counts as
    * processed (and by what it created), a raised one as an error. */
  function Count(s: ImportStats, fin: Finish): ImportStats
  {
    match fin
    case Raised => s.(total := s.total + 1, errors := s.errors + 1)
    case Returned(o) =>
      s.(total := s.total + 1, processed := s.processed + 1,
         feedbacks := s.feedbacks + (if o.feedbackCreated then 1 else 0),
         professors := s.professors + (if o.professorCreated then 1 else 0))
  }

  /** The counters after the given results. */
  function Tally(fs: seq<Finish>): ImportStats
  {
    if fs == [] then ImportStats(0, 0, 0, 0, 0) else Count(Tally(fs[..|fs| - 1]), fs[|fs| - 1])
  }

  /** Every message is either processed or an error; a message creates at
    * most one feedback and one professor, only when processed. */
  lemma {:induction false} TallySpec(fs: seq<Finish>)
    ensures var s := Tally(fs);
      s.total == |fs| && s.processed + s.errors == s.total
      && s.feedbacks <= s.processed && s.professors <= s.processed
  {
    if fs != [] {
      TallySpec(fs[..|fs| - 1]);
    }
  }

  /** The counters only increase as the stream goes on. */
  lemma {:induction false} TallyMonotone(fs: seq<Finish>, k: nat)
    requires k <= |fs|
    ensures var a := Tally(fs[..k]); var b := Tally(fs);
      a.total <= b.total && a.processed <= b.processed && a.feedbacks <= b.feedbacks
      && a.professors <= b.professors && a.errors <= b.errors
    decreases |fs|
  {
    if k < |fs| {
      assert fs[..|fs| - 1][..k] == fs[..k];
      TallyMonotone(fs[..|fs| - 1], k);
    } else {
      assert fs[..k] == fs;
    }
  }

  /** The import log as run_bulk_import leaves it while running: the
    * counters of the last multiple of 100 messages, with the id of the
    * message that reached it. */
  function Checkpointed(l: BulkImportLog, ms: seq<TelegramHistory.Message>, fs: seq<Finish>, n: nat): BulkImportLog
    requires n <= |ms| && n <= |fs|
  {
    var k := n / 100 * 100;
    if k == 0 then l
    else
      var s := Tally(fs[..k]);
      l.(processedMessages := s.processed, feedbacksCreated := s.feedbacks,
         professorsCreated := s.professors, errorsCount := s.errors,
         lastProcessedMessageId := Some(ms[k - 1].id))
  }

  /** One more message moves the checkpoint only when it completes a
    * hundred, and then to the counters after it. */
  lemma CheckpointedStep(l: BulkImportLog, ms: seq<TelegramHistory.Message>, fs: seq<Finish>, fin: Finish, i: nat)
    requires i < |ms| && |fs| == i
    ensures var c := Checkpointed(l, ms, fs + [fin], i + 1);
      var s := Tally(fs + [fin]);
      ((i + 1) % 100 != 0 ==> c == Checkpointed(l, ms, fs, i))
      && ((i + 1) % 100 == 0 ==>
            c == Checkpointed(l, ms, fs, i).(processedMessages := s.processed, feedbacksCreated := s.feedbacks,
                                             professorsCreated := s.professors, errorsCount := s.errors,
                                             lastProcessedMessageId := Some(ms[i].id)))
  {
    var fs' := fs + [fin];
    if (i + 1) % 100 != 0 {
      assert (i + 1) / 100 * 100 == i / 100 * 100;
      var k := i / 100 * 100;
      assert fs'[..k] == fs[..k];
    } else {
      assert (i + 1) / 100 * 100 == i + 1;
      assert fs'[..i + 1] == fs';
    }
  }

  /** The progress write of a checkpoint replaces the running log, the last
    * one, by the log at the new checkpoint. */
  lemma ProgressCheckpoint(t: Tables, logs: seq<BulkImportLog>, l: BulkImportLog, ms: seq<TelegramHistory.Message>,
                           fs: seq<Finish>, fin: Finish, i: nat)
    requires i < |ms| && |fs| == i && (i + 1) % 100 == 0
    requires t.logs == logs + [Checkpointed(l, ms, fs, i)]
    ensures var s := Tally(fs + [fin]);
      ProgressUpdated(t, |logs| + 1, Some(s.processed), Some(s.feedbacks), Some(s.professors), Some(s.errors), Some(ms[i].id))
        == t.(logs := logs + [Checkpointed(l, ms, fs + [fin], i + 1)])
  {
    CheckpointedStep(l, ms, fs, fin, i);
    var s := Tally(fs + [fin]);
    var c := Checkpointed(l, ms, fs, i);
    var c' := c.(processedMessages := s.processed, feedbacksCreated := s.feedbacks, professorsCreated := s.professors,
                 errorsCount := s.errors, lastProcessedMessageId := Some(ms[i].id));
    assert t.logs[|logs| := c'] == logs + [c'];
  }

  /** One more message extends the pipeline's run by that message. */
  lemma ImportedStep(t: Tables, scorer: Scorer, nameKey: NameKey, minConfidence: real,
                     ms: seq<TelegramHistory.Message>, oracle: TelegramHistory.Message -> Extractor, i: nat)
    requires i < |ms|
    ensures var (a, fs) := Imported(t, scorer, nameKey, minConfidence, ms[..i], oracle);
      var (b, fin) := Processed(a, scorer, nameKey, minConfidence, ms[i], oracle(ms[i]));
      Imported(t, scorer, nameKey, minConfidence, ms[..i + 1], oracle) == (b, fs + [fin])
  {
    assert ms[..i + 1][..i] == ms[..i];
  }

  /** One more result adds its count. */
  lemma TallyStep(fs: seq<Finish>, fin: Finish)
    ensures Tally(fs + [fin]) == Count(Tally(fs), fin)
  {
    assert (fs + [fin])[..|fs|] == fs;
  }

  /** What run_bulk_import returns: the refusal while an import runs, or the
    * counters with the error that ended the stream, if any. */
  datatype ImportReport = AlreadyImporting | Report(stats: ImportStats, error: Option<string>)

  /** What check_new_messages returns. */
  datatype CheckReport = Skipped | NoNewMessages | Checked(newMessages: nat, feedbacks: nat)

  class CollectorBot {
    const db: Store
    const history: TelegramHistory.HistoryService
    const config: Configuration.Config
    /** MIN_EXTRACTION_CONFIDENCE */
    const minConfidence: real
    var isMonitoring: bool
    var isImporting: bool

    ghost predicate Valid()
      reads this, db
    {
      db.Valid()
    }

    constructor(db: Store, history: TelegramHistory.HistoryService, config: Configuration.Config, minConfidence: real)
      ensures this.db == db && this.history == history && this.config == config
      ensures this.minConfidence == minConfidence && !isMonitoring && !isImporting
    {
      this.db := db;
      this.history := history;
      this.config := config;
      this.minConfidence := minConfidence;
      isMonitoring := false;
      isImporting := false;
    }

    /** process_message, as Processed describes it. */
    method ProcessMessage(m: TelegramHistory.Message, x: Extractor) returns (fin: Finish)
      requires Valid()
      modifies db
      ensures Valid()
      ensures (db.Snapshot(), fin) == Processed(old(db.Snapshot()), db.tokenSortRatio, db.nameKey, minConfidence, m, x)
    {
      ghost var t := db.Snapshot();
      var seen := db.IsMessageProcessed(m.id);
      if seen {
        return Returned(Untouched);
      }
      var text := CleanFeedbackText(m.text);
      if |text| < 20 {
        var _ := db.MarkMessageProcessed(m.id, false, None, None);
        return Returned(Untouched);
      }
      if x.Raises? {
        var _ := db.MarkMessageProcessed(m.id, false, None, Some(x.error));
        return Returned(Untouched);
      }
      var e := Gemini.ExtractFeedback(text, x.first, x.mini);
      Gemini.ExtractFeedbackFailClosed(text, x.first, x.mini);
      if !Truthy(e.isFeedback) || e.confidence.r < minConfidence {
        var _ := db.MarkMessageProcessed(m.id, false, None, None);
        return Returned(Untouched);
      }
      if !Truthy(e.isAppropriate) {
        var _ := db.MarkMessageProcessed(m.id, false, None, None);
        return Returned(Flagged);
      }
      var name := NameForMatching(e);
      if !Truthy(name) {
        var _ := db.MarkMessageProcessed(m.id, false, None, None);
        return Returned(Flagged);
      }
      if !name.JStr? {
        return Raised;
      }
      fin := StoreFeedback(m, text, e, name.s);
    }

    /** The store writes of an accepted message, as Stored describes them. */
    method StoreFeedback(m: TelegramHistory.Message, text: string, e: Gemini.Extraction, name: string) returns (fin: Finish)
      requires Valid()
      modifies db
      ensures Valid()
      ensures (db.Snapshot(), fin) == Stored(old(db.Snapshot()), db.tokenSortRatio, db.nameKey, m, text, e, name)
    {
      ghost var t := db.Snapshot();
      var p, created := db.FindOrCreateProfessor(name, None);
      FoundOrCreatedSpec(t, db.tokenSortRatio, db.nameKey, name, None);
      if HasCourse(e) {
        ghost var t1 := db.Snapshot();
        db.AddCourseToProfessor(p.id, e.courseCode.s);
        CourseAttachedSpec(t1, p.id, e.courseCode.s);
      }
      var f := db.CreateFeedback(p.id, text, m.id, e, m.userId, Some(m.date));
      // The embedding is stored here; its failure is swallowed and it
      // writes nothing the model holds.
      var ok := db.UpdateProfessorStatistics(p.id);
      if !ok {
        return Raised;
      }
      var _ := db.MarkMessageProcessed(m.id, true, Some(f.id), None);
      fin := Returned(Outcome(true, true, created, Some(f.id)));
    }

    /** run_bulk_import over the items the client yields, with an error
      * when the stream raises after them. While an import runs it refuses
      * without touching the store; otherwise it creates one import log,
      * runs the pipeline over every fetched message, writes the counters to
      * the log at every 100th message, completes the log, and always clears
      * the flag. */
    method RunBulkImport(items: seq<TelegramHistory.Item>, streamError: Option<string>,
                         oracle: TelegramHistory.Message -> Extractor, started: int, finished: int)
      returns (report: ImportReport)
      requires Valid()
      modifies this, db, history
      ensures Valid()
      ensures old(isImporting) ==> report == AlreadyImporting && isImporting && db.Snapshot() == old(db.Snapshot())
      ensures !old(isImporting) ==>
        var ms := TelegramHistory.Kept(items);
        var (r, fs) := Imported(old(db.Snapshot()), db.tokenSortRatio, db.nameKey, minConfidence, ms, oracle);
        var n := |old(db.logs)|;
        var l := Checkpointed(NewBulkImportLog(n + 1, started), ms, fs, |ms|);
        !isImporting && report == Report(Tally(fs), streamError)
        && db.Snapshot() == r.(logs := db.logs)
        && db.logs == old(db.logs) + [if streamError.None?
                                        then l.(status := "completed", completedAt := Some(finished), totalMessages := |ms|)
                                        else l.(status := "failed", completedAt := Some(finished), errorMessage := KeepUnlessGiven(streamError, l.errorMessage))]
    {
      if isImporting {
        return AlreadyImporting;
      }
      isImporting := true;
      ghost var t0 := db.Snapshot();
      var log := db.CreateBulkImportLog(started);
      assert db.Snapshot().(logs := t0.logs) == t0;
      history.Connect();
      var ms := history.FetchMessages(items);
      var stats, fs := ImportAll(ms, oracle, log, t0.logs);
      TallySpec(fs);
      ghost var c := Checkpointed(log, ms, fs, |ms|);
      ghost var c' := if streamError.None?
                      then c.(status := "completed", completedAt := Some(finished), totalMessages := |ms|)
                      else c.(status := "failed", completedAt := Some(finished), errorMessage := KeepUnlessGiven(streamError, c.errorMessage));
      assert db.logs[|t0.logs| := c'] == t0.logs + [c'];
      if streamError.None? {
        db.CompleteBulkImport(log.id, "completed", Some(stats.total), None, finished);
      } else {
        db.CompleteBulkImport(log.id, "failed", None, streamError, finished);
      }
      report := Report(stats, streamError);
      isImporting := false;
      history.Disconnect();
    }

    /** The loop of run_bulk_import: every message goes through the
      * pipeline, an exception counts as an error, and the counters are
      * written to the running log, the last one, at every 100th message. */
    method ImportAll(ms: seq<TelegramHistory.Message>, oracle: TelegramHistory.Message -> Extractor,
                     log: BulkImportLog, ghost prefix: seq<BulkImportLog>)
      returns (stats: ImportStats, ghost fs: seq<Finish>)
      requires Valid() && db.logs == prefix + [log] && log.id == |prefix| + 1
      modifies db
      ensures Valid() && stats == Tally(fs) && |fs| == |ms|
      ensures db.logs == prefix + [Checkpointed(log, ms, fs, |ms|)]
      ensures (db.Snapshot().(logs := prefix), fs)
              == Imported(old(db.Snapshot()).(logs := prefix), db.tokenSortRatio, db.nameKey, minConfidence, ms, oracle)
    {
      ghost var t0 := db.Snapshot().(logs := prefix);
      fs := [];
      stats := ImportStats(0, 0, 0, 0, 0);
      var i := 0;
      while i < |ms|
        invariant 0 <= i <= |ms| && |fs| == i
        invariant db.Valid()
        invariant (db.Snapshot().(logs := prefix), fs) == Imported(t0, db.tokenSortRatio, db.nameKey, minConfidence, ms[..i], oracle)
        invariant db.logs == prefix + [Checkpointed(log, ms, fs, i)]
        invariant stats == Tally(fs)
      {
        ImportedStep(t0, db.tokenSortRatio, db.nameKey, minConfidence, ms, oracle, i);
        ghost var before := db.Snapshot();
        ghost var a := before.(logs := prefix);
        ghost var (r, fin0) := Processed(a, db.tokenSortRatio, db.nameKey, minConfidence, ms[i], oracle(ms[i]));
        assert Imported(t0, db.tokenSortRatio, db.nameKey, minConfidence, ms[..i + 1], oracle) == (r, fs + [fin0]);
        ProcessedFrame(a, before.logs, db.tokenSortRatio, db.nameKey, minConfidence, ms[i], oracle(ms[i]));
        assert a.(logs := before.logs) == before;
        var fin := ProcessMessage(ms[i], oracle(ms[i]));
        assert db.Snapshot() == r.(logs := before.logs) && fin == fin0;
        assert db.Snapshot().(logs := prefix) == r;
        TallyStep(fs, fin);
        TallySpec(fs + [fin]);
        CheckpointedStep(log, ms, fs, fin, i);
        stats := Count(stats, fin);
        if stats.total % 100 == 0 {
          ghost var mid := db.Snapshot();
          ProgressCheckpoint(mid, prefix, log, ms, fs, fin, i);
          db.UpdateBulkImportProgress(log.id, Some(stats.processed), Some(stats.feedbacks), Some(stats.professors),
                                      Some(stats.errors), Some(ms[i].id));
          LogOpsSpec(mid, 0, log.id, Some(stats.processed), Some(stats.feedbacks), Some(stats.professors),
                     Some(stats.errors), Some(ms[i].id), "", None, None);
          assert db.Snapshot().(logs := prefix) == r;
        }
        fs := fs + [fin];
        i := i + 1;
      }
      assert ms[..|ms|] == ms;
    }

    /** check_new_messages over the items the client yields after the last
      * processed message: skipped while an import runs; otherwise every
      * new message goes through the pipeline oldest first, exceptions are
      * swallowed, and the feedbacks created are counted. */
    method CheckNewMessages(items: seq<TelegramHistory.Item>, oracle: TelegramHistory.Message -> Extractor)
      returns (report: CheckReport)
      requires Valid()
      modifies db, history
      ensures Valid()
      ensures old(isImporting) ==> report == Skipped && db.Snapshot() == old(db.Snapshot())
      ensures !old(isImporting) ==>
        var ms := TelegramHistory.Reversed(TelegramHistory.Kept(items));
        var (r, fs) := Imported(old(db.Snapshot()), db.tokenSortRatio, db.nameKey, minConfidence, ms, oracle);
        db.Snapshot() == r
        && report == (if ms == [] then NoNewMessages else Checked(|ms|, Tally(fs).feedbacks))
    {
      if isImporting {
        return Skipped;
      }
      var lastId := db.GetLastProcessedMessageId();
      // The client is asked for the messages after lastId.GetOr(0); what it
      // yields for that request is `items`.
      history.Connect();
      var ms := history.FetchNewMessagesSince(items);
      ghost var t0 := db.Snapshot();
      if ms == [] {
        history.Disconnect();
        return NoNewMessages;
      }
      ghost var fs: seq<Finish> := [];
      var feedbacks := 0;
      var i := 0;
      while i < |ms|
        invariant 0 <= i <= |ms| && |fs| == i
        invariant db.Valid()
        invariant (db.Snapshot(), fs) == Imported(t0, db.tokenSortRatio, db.nameKey, minConfidence, ms[..i], oracle)
        invariant feedbacks == Tally(fs).feedbacks
      {
        ImportedStep(t0, db.tokenSortRatio, db.nameKey, minConfidence, ms, oracle, i);
        var fin := ProcessMessage(ms[i], oracle(ms[i]));
        TallyStep(fs, fin);
        fs := fs + [fin];
        if fin.Returned? && fin.result.feedbackCreated {
          feedbacks := feedbacks + 1;
        }
        i := i + 1;
      }
      assert ms[..|ms|] == ms;
      // The embeddings are persisted here when feedbacks > 0.
      report := Checked(|ms|, feedbacks);
      history.Disconnect();
    }

    /** cmd_pause: an admin stops the monitoring; anyone else changes
      * nothing. */
    method Pause(userId: int)
      modifies this
      ensures isMonitoring == (old(isMonitoring) && !config.IsAdmin(userId))
      ensures isImporting == old(isImporting)
    {
      if !config.IsAdmin(userId) {
        return;
      }
      if !isMonitoring {
        return;
      }
      isMonitoring := false;
    }

    /** cmd_resume: an admin starts the monitoring again; anyone else
      * changes nothing. */
    method Resume(userId: int)
      modifies this
      ensures isMonitoring == (old(isMonitoring) || config.IsAdmin(userId))
      ensures isImporting == old(isImporting)
    {
      if !config.IsAdmin(userId) {
        return;
      }
      if isMonitoring {
        return;
      }
      isMonitoring := true;
    }
  }
}
