// models/database_models.py: the rows of the five tables the ingestion
// engine writes, with the defaults a fresh row gets. The uniqueness
// constraints are kept by the store (see database.dfy): its tables are
// sequences of rows kept free of duplicates by its validity predicate,
// and only the users table is a map keyed by the Telegram user id.
module Models {
  import opened Wrappers
  import opened JsonValues

  /** The six aspects whose averages a professor row carries. */
  datatype Aspect =
    | TeachingQuality | GradingFairness | Workload
    | Communication | Engagement | ExamsDifficulty

  const Aspects: seq<Aspect> :=
    [TeachingQuality, GradingFairness, Workload, Communication, Engagement, ExamsDifficulty]

  /** The key an aspect has in a feedback's `aspects` JSON. */
  function AspectName(a: Aspect): string
  {
    match a
    case TeachingQuality => "teaching_quality"
    case GradingFairness => "grading_fairness"
    case Workload => "workload"
    case Communication => "communication"
    case Engagement => "engagement"
    case ExamsDifficulty => "exams_difficulty"
  }

  /** The six nullable columns avg_teaching_quality … avg_exams_difficulty. */
  datatype Averages = Averages(
    teachingQuality: Option<real>,
    gradingFairness: Option<real>,
    workload: Option<real>,
    communication: Option<real>,
    engagement: Option<real>,
    examsDifficulty: Option<real>)

  /** The column of an aspect. */
  function AverageOf(av: Averages, a: Aspect): Option<real>
  {
    match a
    case TeachingQuality => av.teachingQuality
    case GradingFairness => av.gradingFairness
    case Workload => av.workload
    case Communication => av.communication
    case Engagement => av.engagement
    case ExamsDifficulty => av.examsDifficulty
  }

  /** A professors row. `name` is unique in the table, `nameNormalized`
    * only indexed. */
  datatype Professor = Professor(
    id: nat,
    name: string,
    nameNormalized: string,
    department: Option<string>,
    courses: seq<string>,
    overallRating: real,
    totalFeedbacks: nat,
    positiveFeedbacks: nat,
    negativeFeedbacks: nat,
    neutralFeedbacks: nat,
    averages: Averages)

  /** A new professors row: rating 0.0, all counters 0, no courses and every
    * aspect average NULL. */
  function NewProfessor(id: nat, name: string, nameNormalized: string, department: Option<string>): (p: Professor)
    ensures p.id == id && p.name == name && p.nameNormalized == nameNormalized && p.department == department
    ensures p.courses == [] && p.overallRating == 0.0
    ensures p.totalFeedbacks == 0 && p.positiveFeedbacks == 0 && p.negativeFeedbacks == 0 && p.neutralFeedbacks == 0
    ensures forall a :: AverageOf(p.averages, a).None?
  {
    Professor(id, name, nameNormalized, department, [], 0.0, 0, 0, 0, 0, Averages(None, None, None, None, None, None))
  }

  /** A feedbacks row. `professorId` is a non-null foreign key and
    * `telegramMessageId` is non-null and unique. The columns copied from the
    * extraction keep the JSON value the extractor produced. */
  datatype Feedback = Feedback(
    id: nat,
    professorId: nat,
    originalMessage: string,
    telegramMessageId: int,
    telegramUserId: Option<int>,
    messageDate: Option<int>,
    courseCode: Json,
    courseName: Json,
    semester: Json,
    explicitRating: Option<real>,
    inferredRating: Option<real>,
    finalRating: Option<real>,
    sentiment: Json,
    aspects: Json,
    strengths: Json,
    weaknesses: Json,
    extractionConfidence: Json,
    isAppropriate: Json,
    detectedLanguage: Json)

  /** A processed_messages row: the ledger entry of one Telegram message.
    * `feedbackId` is nullable. */
  datatype ProcessedMessage = ProcessedMessage(
    telegramMessageId: int,
    isFeedback: bool,
    feedbackId: Option<nat>,
    processingError: Option<string>)

  /** A telegram_users row, unique on `telegramUserId`. */
  datatype TelegramUser = TelegramUser(
    telegramUserId: int,
    username: Option<string>,
    displayName: Option<string>,
    firstName: Option<string>,
    lastName: Option<string>)

  /** A bulk_import_logs row. Times are seconds on one clock. */
  datatype BulkImportLog = BulkImportLog(
    id: nat,
    startedAt: Option<int>,
    completedAt: Option<int>,
    totalMessages: int,
    processedMessages: int,
    feedbacksCreated: int,
    professorsCreated: int,
    errorsCount: int,
    status: string,
    errorMessage: Option<string>,
    lastProcessedMessageId: Option<int>)

  /** A new import log: status 'running', zero counters, nothing completed. */
  function NewBulkImportLog(id: nat, now: int): (log: BulkImportLog)
    ensures log.id == id && log.status == "running" && log.startedAt == Some(now)
    ensures log.completedAt.None? && log.errorMessage.None? && log.lastProcessedMessageId.None?
    ensures log.totalMessages == 0 && log.processedMessages == 0 && log.feedbacksCreated == 0
    ensures log.professorsCreated == 0 && log.errorsCount == 0
  {
    BulkImportLog(id, Some(now), None, 0, 0, 0, 0, 0, "running", None, None)
  }

  /** duration_minutes: known only once both ends of the run are. */
  function DurationMinutes(log: BulkImportLog): (d: Option<real>)
    ensures d.Some? <==> log.startedAt.Some? && log.completedAt.Some?
    ensures d.Some? ==> d.value * 60.0 == (log.completedAt.value - log.startedAt.value) as real
  {
    if log.completedAt.Some? && log.startedAt.Some? then
      Some((log.completedAt.value - log.startedAt.value) as real / 60.0)
    else None
  }
}
