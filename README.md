# Feedback ingestion engine — a Dafny model

The system collects student feedback about university professors from a
Telegram group. Each message of the group is cleaned and handed to a
language model, which returns a structured extraction: is it feedback,
about whom, for which course, with what rating, sentiment and aspects. The
extraction is normalised, gated (feedback? confident enough? appropriate?
names a professor?), matched to a professor row (exact name key, then a
fuzzy match, then a new row), stored as a feedback row keyed by the
Telegram message id, and the professor's statistics are recomputed. A
ledger of processed messages keeps a message from being processed twice.
Two collectors run this pipeline: a bot, which writes the ledger last, and
a userbot, which writes it first and quick-checks whole batches of history
before extracting the likely feedback one message at a time. A query bot
and an analytics service read the stored rows.

This project models that ingestion core in Dafny 4.11 and proves what it
promises. All files are verified together; each module follows one source
file.

| module | file | models |
|---|---|---|
| `Wrappers` | wrappers.dfy | `Option` and `Result` (a value or the error a Python call raises) |
| `JsonValues` | json_values.dfy | the Python values parsed JSON becomes, their truthiness, and `float()`/`int()` on text |
| `Strings` | strings.dfy | character classes and `strip`, `split`, `join`, `lower`, `upper` |
| `TextProcessing` | text_processing.dfy | utils/text_processing.py: the professor name key, the message cleaner, course-code and rating extraction, truncation, sentences, mention detection |
| `NameKeyExamples`, `RatingExamples` | name_examples.dfy, rating_examples.dfy | the name key and the rating extractor worked out on the concrete inputs their behaviour is known by |
| `Validators` | validators.dfy | utils/validators.py |
| `Configuration` | config.dfy | config.py: admin ids, per-mode validation, `is_admin` (class `Config`) |
| `Models` | models.dfy | models/database_models.py: the five row types and their defaults |
| `Gemini` | gemini.dfy | services/gemini_service.py: normalising an extraction, the fail-closed extractor, the two batch cleaners, JSON repair, fence stripping, model-name matching |
| `Database` | database.dfy | services/database_service.py: class `Store` holding the tables, each operation specified by a function on the table snapshot |
| `TelegramHistory` | telegram_history.dfy | services/telegram_history_service.py: class `HistoryService` with the connection flag, message filtering, batching and reversal |
| `Collector` | collector_bot.dfy | bots/collector_bot.py: class `CollectorBot`, its pipeline, bulk import, periodic check and pause/resume |
| `Userbot` | userbot_collector.dfy | bots/userbot_collector.py: class `UserbotCollector`, its pipeline, the bisecting batch processor and its bulk import |
| `Analytics` | analytics.dfy | services/analytics_service.py: percentages, top items, most-searched, top/bottom ranking, per-course rollup |
| `QueryBot` | query_bot.dfy | bots/query_bot.py: the fallback professor search, the /top limit and labels, the question length gate |

How the parts outside the model appear in it:

- The language model is an oracle. It is a parameter that fails, returns
  text no JSON parser reads, or returns a parsed JSON value.
  - The userbot's quick-check call also receives the depth of the bisection.
    It is 0 for a batch of the stream and one more for each halving.
    A payload sent again after a split can therefore get a different reply.
- The rapidfuzz scorers are function parameters into [0, 100].
- The Telegram clients are the sequences of items they yield.
- Clocks are integer parameters.
- The database is the `Store` class. Its tables are sequences and a map, and
  each store call is one atomic step.

Where the code and the written description of the system differ, the model
follows the code:

- The store's fuzzy merge scores with `token_sort_ratio`
  (services/database_service.py:142), not with `max(token_set_ratio,
  partial_ratio)`. That combined score is the query bot's
  (bots/query_bot.py:615-617).
- A professor's overall rating keeps its old value when no feedback row is
  rated (services/database_service.py:262-263); it is not unset.
- `find_or_create_professor` never updates the department of an existing
  professor.
- The userbot writes the ledger before its gates
  (bots/userbot_collector.py:385), so the "ledger last" guarantee holds for
  the bot only. `Userbot.LedgerFirstVersusLast` states the difference.
- The bot stores the embedding before it recomputes the statistics
  (bots/collector_bot.py:415-431).

## Model

| member | source | states |
|---|---|---|
| Strings.LowerChar | utils/text_processing.py:58 | lower() of a character leaves no ASCII capital and keeps letters, digits and whitespace what they were |
| Strings.UpperChar | utils/validators.py:111 | upper() of a character leaves no ASCII small letter and keeps digits and whitespace what they were |
| Strings.CyrillicCaseRoundTrip | utils/text_processing.py:58 | on Cyrillic (U+0400 to U+052F), upper() gives back every character that lower() changes |
| Strings.Lower | utils/text_processing.py:58 | lower() maps each character in place and keeps the length |
| Strings.Upper | utils/validators.py:111 | upper() maps each character in place and keeps the length |
| Strings.CountChar | services/gemini_service.py:702-703 | s.count(c) is at most the length of s |
| Strings.CountCharAppend | services/gemini_service.py:702-703 | counting a character distributes over concatenation |
| Strings.StripSpec | utils/text_processing.py:96 | strip() removes exactly the whitespace at both ends: the result is a slice of s with only whitespace cut off each side, and has none at its ends |
| Strings.StripIdempotent | utils/text_processing.py:96 | strip() leaves a text without outer whitespace unchanged |
| Strings.StripChars | utils/text_processing.py:96 | every character of strip(s) is a character of s |
| Strings.SplitOn | config.py:70 | s.split(c) gives at least one piece and no piece holds c |
| Strings.JoinSplitOn | config.py:70 | joining the pieces of s.split(c) with c gives s back |
| Strings.SplitOnJoin | config.py:70 | splitting c-free pieces joined by c gives those pieces back |
| Strings.SplitTokens | utils/text_processing.py:81 | every piece of split() is a non-empty run without whitespace |
| Strings.Collapse | utils/text_processing.py:81 | ' '.join(s.split()) has no outer whitespace and no whitespace except single blanks |
| Strings.SplitJoin | utils/text_processing.py:87-88 | splitting whitespace-free tokens joined by blanks gives the tokens back |
| Strings.JoinTokensCollapsed | utils/text_processing.py:88 | tokens joined by single blanks form a collapsed text, non-empty when there is a token |
| Strings.CollapseChars | utils/text_processing.py:81 | collapsing whitespace keeps only characters of s and single blanks |
| Strings.CollapseLength | utils/text_processing.py:81 | collapsing whitespace never lengthens a text |
| Strings.CollapseCollapsed | utils/text_processing.py:81 | a collapsed text is its own collapse |
| Strings.CollapseIdempotent | utils/text_processing.py:81 | collapsing twice is collapsing once |
| JsonValues.Get | services/gemini_service.py:252-256 | dict.get returns the stored value when the key is present and the default otherwise |
| JsonValues.Or | services/gemini_service.py:403 | `a or b` is a when a is truthy and b otherwise |
| JsonValues.ToFloat | services/gemini_service.py:355 | float() of a number is its value; None, lists and dicts raise (None) |
| JsonValues.ParseIntOfIntToString | config.py:70 | int() reads back the decimal text of every integer, negative ones included |
| JsonValues.ParseDecimalOfIntToString | services/gemini_service.py:355 | float() of an integer's decimal text is that integer |
| Models.NewProfessor | models/database_models.py:45-64 | a new professor row: overall rating 0.0, all four counters 0, no courses, every aspect average NULL |
| Models.NewBulkImportLog | models/database_models.py:186-204 | a new import log: status 'running', started now, every counter 0, nothing completed, no error, no last message id |
| Models.DurationMinutes | models/database_models.py:209-215 | a duration exists exactly when both timestamps are set, and then it is their difference in minutes |
| Configuration.ParseAdminIds | config.py:64-68 | an unset or empty ADMIN_USER_IDS gives no admin ids |
| Configuration.NonBlankPieces | config.py:70 | the pieces kept are the stripped non-blank ones, never more than were split |
| Configuration.ParseAll | config.py:69-72 | int() fails on some piece exactly when the whole parse fails; otherwise every id is int() of its piece, in order |
| Configuration.BadPieceEmpties | config.py:69-72 | a single piece int() rejects empties the whole admin list (the ValueError is caught around the whole comprehension) |
| Configuration.AdminIdsRoundTrip | config.py:64-72 | the comma-joined decimal texts of any non-empty id list parse back to exactly that list |
| Configuration.ProblemsForEmpty | config.py:91-117 | validate reports nothing exactly when every setting the mode needs is present |
| Configuration.CommonProblemsMembers | config.py:93-98 | the Gemini key and database URL are reported, in every mode, exactly when empty |
| Configuration.CollectorProblemsMembers | config.py:100-109 | API id, API hash and group id are reported exactly when missing and the mode is collector, userbot or both |
| Configuration.QueryProblemsMembers | config.py:111-114 | the query bot token is reported exactly when missing in query or both mode; at most six problems |
| Configuration.Config.constructor | config.py:53-54 | a fresh configuration holds the given settings and no admin ids yet |
| Configuration.Config.Load | config.py:74-77 | load replaces the admin ids by the parse of ADMIN_USER_IDS |
| Configuration.Config.Check | config.py:91-117 | the problems are collected in checking order, and ConfigError (with one "  - " line per problem) is raised exactly when the mode's settings are incomplete |
| Configuration.Config.Validate | config.py:80-117 | validate reloads the admin ids, then checks as Check does |
| Configuration.AdminsAfterLoad | config.py:119-122 | after a load, is_admin holds exactly for the ids listed in ADMIN_USER_IDS |
| Validators.CountAlpha | utils/validators.py:31 | the letter count is at most the length |
| Validators.ValidateProfessorName | utils/validators.py:11-35 | a name is accepted exactly when it has 2 to 100 characters, two or more of them letters; "is required" is the answer exactly for the empty name |
| Validators.RemoveBlanks | utils/validators.py:51 | replace(' ', '') leaves no blank and removes exactly the blanks counted in s |
| Validators.RemoveBlanksAppend | utils/validators.py:51 | removing blanks distributes over concatenation |
| Validators.CompactCodeMeaning | utils/validators.py:55 | the scan for `^[A-Z]{2,4}\d{3,4}$` accepts exactly the texts of 2 to 4 capitals then 3 to 4 digits (a final newline allowed) |
| Validators.ValidateCourseCode | utils/validators.py:38-58 | the empty code is "required"; otherwise a code is accepted exactly when, blanks removed and upper-cased, it has the course-code form |
| Validators.ExtractedCodeIsValid | utils/validators.py:38-58 | every course code extract_course_code finds passes validate_course_code |
| Validators.ValidateRating | utils/validators.py:61-80 | None is "required"; a rating is accepted exactly when it is an int, bool or float between 1 and 5 |
| Validators.MatchStarts | utils/validators.py:105 | every position re.split cuts at is a match of the separator, left to right without overlap |
| Validators.SplitPoint | utils/validators.py:104-106 | a split point exists only when the separator matches exactly once, so re.split gives two parts |
| Validators.CompareNames | utils/validators.py:108-118 | both names must pass validate_professor_name, and then they are returned as given |
| Validators.CompareWith | utils/validators.py:103-120 | whatever the separator loop accepts is two stripped, valid names |
| Validators.CompareWithFirst | utils/validators.py:103-118 | when the first separator splits the text in two, its stripped sides decide the answer and no later separator is tried |
| Validators.ValidateCompareArgs | utils/validators.py:83-120 | no arguments is the usage error; an accepted pair is two stripped, valid names |
| Validators.CompareRoundTrip | utils/validators.py:83-118 | two valid one-word names typed around " vs " come back unchanged |
| Validators.ValidateTelegramUserId | utils/validators.py:123-133 | accepted exactly for a Python int (bool included) above 0 |
| Validators.ValidateGroupId | utils/validators.py:136-147 | accepted exactly for a Python int (bool included) other than 0 |
| Validators.KeepPrintable | utils/validators.py:168 | the filter keeps only printable characters, newlines and tabs, and never lengthens; printable excludes control, format, private-use and separator characters other than the blank |
| Validators.SanitizeInput | utils/validators.py:150-173 | the result is empty for empty input, printable, collapsed to single blanks with none at the ends, and no longer than max_length (a collapsed printable text within max_length comes back unchanged: Validators.SanitizeClean) |
| Validators.CleanCut | utils/validators.py:168-173 | after the cut the text is printable and collapsed and no longer than the cut |
| Validators.SanitizeClean | utils/validators.py:150-173 | a printable, collapsed text no longer than max_length is its own sanitised form |
| Validators.SanitizeIdempotent | utils/validators.py:150-173 | sanitising a sanitised text changes nothing |
| Validators.IsValidSemester | utils/validators.py:176-205 | the empty text is rejected and an accepted one has at least 8 characters |
| Validators.YearAtShape | utils/validators.py:198 | the greedy blank run then four digits at the end is exactly "blanks, four digits, end (or a final newline)" |
| Validators.SeasonYearShape | utils/validators.py:198 | `^(fall|spring|summer|winter)\s*\d{4}$` matches exactly a season word, blanks and a year |
| Validators.YearRangeShape | utils/validators.py:202 | `^\d{4}\s*[-/]\s*\d{4}$` matches exactly a year, blanks, '-' or '/', blanks and a year |
| Validators.SemesterShape | utils/validators.py:176-205 | is_valid_semester accepts exactly the non-empty texts whose lower case is a season and a year, or a range of years |
| Validators.SeasonYearValid | utils/validators.py:198 | a season in any case, any blanks and four digits are accepted |
| Validators.YearRangeValid | utils/validators.py:202 | two four-digit years around '-' or '/', with blanks on either side, are accepted |
| Validators.FallSemester | utils/validators.py:176-205 | "Fall 2023" is accepted |
| TextProcessing.CyrillicLatinCovers | utils/text_processing.py:43-54 | the map has an entry exactly for the 33 basic Cyrillic letters of either case, and each maps to lower-case Latin (or to nothing) |
| TextProcessing.Transliterate | utils/text_processing.py:55 | after transliteration no basic Cyrillic letter is left |
| TextProcessing.TransliterateAppend | utils/text_processing.py:55 | transliteration works character by character, so it distributes over concatenation |
| TextProcessing.SpaceRun | utils/text_processing.py:62-69 | the greedy `\s*` takes the whole whitespace run and stops at the first other character |
| TextProcessing.TitleMatchEnd | utils/text_processing.py:62-72 | a title match covers at least the title's letters and ends inside the text |
| TextProcessing.RemoveTitle | utils/text_processing.py:71-72 | re.sub of one title never lengthens the text and keeps a lower-cased text lower-cased |
| TextProcessing.RemoveTitles | utils/text_processing.py:71-72 | the title loop keeps a lower-cased text lower-cased |
| TextProcessing.RemoveParenthetical | utils/text_processing.py:75 | removing parenthetical content keeps a lower-cased text lower-cased |
| TextProcessing.KeepNameChars | utils/text_processing.py:78 | on lower-cased text, `[^\w\s\-]` removal leaves only key characters and whitespace |
| TextProcessing.AliasAll | utils/text_processing.py:84-87 | every token is replaced by its alias (javed to javad) and no token is added or lost |
| TextProcessing.NormalizeShape | utils/text_processing.py:19-96 | every name key holds only lower-case word characters, single blanks and hyphens, with no blank at either end and no Cyrillic letter |
| TextProcessing.NoCommaInKey | utils/text_processing.py:78-94 | after the character filter no comma is left, so the "Last, First" swap never applies |
| TextProcessing.NormalizeIgnoresOuterBlanks | utils/text_processing.py:36-58 | blanks around a name do not change its key |
| TextProcessing.NormalizeLoweredEmpty | utils/text_processing.py:36-37 | an empty name has the empty key |
| TextProcessing.DropControls | utils/text_processing.py:121 | after the filter no control character other than newline and tab is left |
| TextProcessing.CollapseNewlines | utils/text_processing.py:124 | collapsing newline runs adds no control character |
| TextProcessing.CollapseBlanks | utils/text_processing.py:127 | collapsing blank runs leaves no two blanks in a row, adds no control character, and keeps emptiness and a leading blank |
| TextProcessing.SplitLines | utils/text_processing.py:130 | split('\n') gives at least one line and no line holds a newline |
| TextProcessing.SplitLinesParts | utils/text_processing.py:130 | each line is a slice of the text |
| TextProcessing.StripEach | utils/text_processing.py:130 | each line is stripped in place |
| TextProcessing.CleanFeedbackText | utils/text_processing.py:99-133 | the cleaned text is empty for empty input, has no control character but newline and tab, no two blanks in a row, and every line and the whole text stripped (a text already in cleaned form is its own cleaning: CleanFeedbackTextFixed) |
| TextProcessing.CleanFeedbackTextFixed | utils/text_processing.py:114-133 | a text with no control character but newline and tab, no two blanks in a row, no three newlines in a row, and every line and the whole text stripped is its own cleaning |
| TextProcessing.DropControlsKeeps | utils/text_processing.py:121 | the control-character filter leaves a text without stray control characters as it is |
| TextProcessing.CollapseNewlinesKeeps | utils/text_processing.py:124 | the `\n{3,}` replacement leaves a text without three newlines in a row as it is |
| TextProcessing.CollapseBlanksKeeps | utils/text_processing.py:127 | the ` {2,}` replacement leaves a text without two blanks in a row as it is |
| TextProcessing.StripLinesKeeps | utils/text_processing.py:130-131 | stripping every line and joining them back gives a text whose lines are already stripped back unchanged |
| TextProcessing.StripLinesCons | utils/text_processing.py:130-131 | the first line, when already stripped, comes back as it is, followed by a newline and the stripped lines of the rest |
| TextProcessing.CleanedLines | utils/text_processing.py:129-131 | stripping each line keeps the text free of controls and double blanks and leaves every line stripped |
| TextProcessing.JoinLines | utils/text_processing.py:131 | joining stripped, newline-free lines gives a text whose lines are stripped |
| TextProcessing.StripKeepsLines | utils/text_processing.py:133 | the final strip keeps every line stripped |
| TextProcessing.CapitalsRun | utils/text_processing.py:183 | `[A-Z]{2,4}` starts from the whole run of capitals |
| TextProcessing.DigitRun | utils/text_processing.py:183 | `\d{3,4}` starts from the whole run of digits |
| TextProcessing.SeparatorEnd | utils/text_processing.py:183 | the separator `\s*[-]?\s*` ends inside the text |
| TextProcessing.CodeAt | utils/text_processing.py:183-184 | a match at an index has 2 to 4 capitals and 3 to 4 digits |
| TextProcessing.SearchCode | utils/text_processing.py:188 | re.search finds only groups of 2 to 4 capitals and 3 to 4 digits |
| TextProcessing.FormatCode | utils/text_processing.py:192 | the groups joined by one blank have the course-code shape |
| TextProcessing.ExtractCourseCode | utils/text_processing.py:163-194 | nothing for empty text; a found code is 2 to 4 capitals, one blank and 3 to 4 digits (the leftmost code is the one found, and nothing is found only when no code occurs: ExtractCourseCodeLeftmost, ExtractCourseCodeNone) |
| TextProcessing.SearchCodeLeftmost | utils/text_processing.py:188 | re.search returns the match at the leftmost index where the pattern matches |
| TextProcessing.SearchCodeNone | utils/text_processing.py:188 | re.search finds nothing exactly when the pattern matches at no index |
| TextProcessing.ExtractCourseCodeLeftmost | utils/text_processing.py:182-192 | the code returned is the leftmost match of the separated pattern in the upper-cased text: its letters, one blank, its digits |
| TextProcessing.ExtractCourseCodeNone | utils/text_processing.py:163-194 | no code exactly when the separated pattern matches nowhere in the upper-cased text |
| TextProcessing.CodeAtExample | utils/text_processing.py:183 | the separated pattern matches "CS 101" at index 0 and captures "CS" and "101" |
| TextProcessing.ExtractCourseCodeExample | utils/text_processing.py:163-194 | "CS 101" gives "CS 101" |
| TextProcessing.CompactSubsumed | utils/text_processing.py:183-189 | the compact pattern matches only where the separated one already does, so the second search never answers |
| TextProcessing.CompactNotAt | utils/text_processing.py:183-184 | where the separated pattern fails at an index the compact one fails too |
| TextProcessing.PyPrefix | utils/text_processing.py:213 | s[:n] is a prefix of s, of length n when 0 <= n <= len(s), counting from the end for negative n |
| TextProcessing.RFind | utils/text_processing.py:214 | rfind gives the last index of the character, or -1 |
| TextProcessing.TruncateText | utils/text_processing.py:197-219 | a short or empty text is returned as is; a long one becomes a prefix of it plus the suffix, no longer than max_length when the suffix fits |
| TextProcessing.NumberEnd | utils/text_processing.py:246-250 | the number `\d+(?:\.\d+)?` is non-empty and ends inside the text |
| TextProcessing.Clamp | utils/text_processing.py:262 | max(1.0, min(5.0, v)) lies in [1, 5] and leaves a value already there unchanged |
| TextProcessing.RatingFromPatterns | utils/text_processing.py:253-267 | a rating found by the pattern loop lies in [1, 5] |
| TextProcessing.ExtractRatingFromText | utils/text_processing.py:222-267 | no rating for empty text; a found rating lies in [1, 5] (an "<n>/10" text gives n halved and clamped: RatingExamples.TenthsRatingOf) |
| TextProcessing.BreakAt | utils/text_processing.py:284 | a split point is a whitespace character right after '.', '!' or '?' |
| TextProcessing.SplitSentencePieces | utils/text_processing.py:284 | every piece of the split occurs in the text |
| TextProcessing.KeepSentences | utils/text_processing.py:287 | the sentences kept are exactly the stripped pieces longer than five characters: each kept one is such a piece, and every such piece is kept |
| TextProcessing.KeepSentencesAppend | utils/text_processing.py:287 | the filter works piece by piece: the sentences of two runs of pieces are those of the first followed by those of the second, so the order of the pieces is kept |
| TextProcessing.KeepSentencesOne | utils/text_processing.py:287 | one piece gives its stripped form exactly when that is longer than five characters |
| TextProcessing.SplitIntoSentences | utils/text_processing.py:270-289 | no sentence for empty text; every sentence is the stripped form of a piece of the text and longer than five characters; every piece of the re.split whose stripped form is longer than five characters gives a sentence |
| TextProcessing.MentionByKeywordOrDoctor | utils/text_processing.py:292-322 | a text mentions a professor exactly when it is non-empty and its lower case holds a keyword or a "dr" title before a letter; the "prof" title branch adds nothing |
| TextProcessing.ProfIsMention | utils/text_processing.py:308-316 | any text holding "prof" in any case is a mention |
| NameKeyExamples.AfterTitles | utils/text_processing.py:74-96 | a title-free text that filters to two words keys to their aliases joined by one blank |
| NameKeyExamples.ProfessorPrefix | utils/text_processing.py:61-72 | the `prof` title takes the head of "professor": "Professor X" keys to "essor x" |
| NameKeyExamples.MrsPrefix | utils/text_processing.py:61-72 | the `mr` title takes the head of "mrs": "Mrs. Smith" keys to "s smith" |
| NameKeyExamples.DoctorTitle | utils/text_processing.py:61-72 | "Dr. John Smith" keys to "john smith" |
| NameKeyExamples.PlainName | utils/text_processing.py:19-96 | "john smith" keys to itself |
| NameKeyExamples.TitleIgnored | utils/text_processing.py:61-72 | "Dr. John Smith" and "john smith" have the same key |
| NameKeyExamples.JavedSpelling | utils/text_processing.py:84-88 | "Javed Rahimov" keys to "javad rahimov" |
| NameKeyExamples.JavadSpelling | utils/text_processing.py:84-88 | "javad rahimov" keys to itself |
| NameKeyExamples.JavedAlias | utils/text_processing.py:84-88 | "Javed Rahimov" and "javad rahimov" have the same key |
| NameKeyExamples.CommaOrderKept | utils/text_processing.py:78-94 | the comma is filtered out before the swap check, so "Smith, John" keys to "smith john", not "john smith" |
| RatingExamples.EightTenths | utils/text_processing.py:245-263 | "8/10" is read by the "/10" pattern and halved to 4.0 |
| RatingExamples.TwelveTenths | utils/text_processing.py:245-263 | "12/10" is halved to 6.0 and clamped to 5.0 |
| RatingExamples.ThreeFiftieths | utils/text_processing.py:246-263 | the "/5" pattern, tried first and with no boundary after the 5, reads "3/50" as 3.0 |
| RatingExamples.TenthsRatingOf | utils/text_processing.py:242-263 | for every natural number n, "n/10" is read as n out of ten: n / 2 clamped to [1, 5] |
| RatingExamples.SearchRatingNone | utils/text_processing.py:254 | re.search finds nothing when the pattern matches at no index |
| RatingExamples.LowerTenths | utils/text_processing.py:242 | lower() leaves digits followed by "/10" as they are |
| RatingExamples.TenthsNotOverFive | utils/text_processing.py:246 | no index of digits followed by "/10" starts a match of the "/5" pattern |
| RatingExamples.TenthsOverTen | utils/text_processing.py:247 | the "/10" pattern captures the whole number of digits followed by "/10" |
| Gemini.FieldsIndexed | services/gemini_service.py:322-340 | the result has exactly fifteen keys, in a fixed order |
| Gemini.FieldNameInjective | services/gemini_service.py:322-340 | distinct fields have distinct keys |
| Gemini.WithAt | services/gemini_service.py:347-349 | setting a key changes that key and no other |
| Gemini.Extensional | services/gemini_service.py:322-340 | two results that agree on every key are equal |
| Gemini.Empty | services/gemini_service.py:322-340 | every key of the empty result holds its default |
| Gemini.MergeStepAt | services/gemini_service.py:347-349 | one merge round sets its own key to the input value when the input has a non-None one and leaves the other keys alone |
| Gemini.MergePrefixAt | services/gemini_service.py:347-349 | after n merge rounds the first n keys hold their merged values and the rest their defaults |
| Gemini.MergeAll | services/gemini_service.py:347-349 | after all fifteen rounds every key holds its merged value |
| Gemini.RatingStepClamps | services/gemini_service.py:352-358 | a rating round clamps its key into [1, 5], makes an unconvertible value None and leaves None alone |
| Gemini.RatingRounds | services/gemini_service.py:352-358 | the two rating rounds clamp both ratings and change nothing else |
| Gemini.ListRounds | services/gemini_service.py:367-369 | the two list rounds coerce both lists and change nothing else |
| Gemini.NormalizeExtractionResult | services/gemini_service.py:342-375 | the in-place merge, clamps and coercions compute the normalised result |
| Gemini.NormalizedAt | services/gemini_service.py:342-375 | every key of the normalised result is the merged input value put through that key's clean-up |
| Gemini.NormalizedIsNormal | services/gemini_service.py:342-375 | every normalised result has ratings in [1, 5] or None, a confidence in [0, 1], lists and a dict where expected, and None only where the default is None |
| Gemini.NormalizedMerge | services/gemini_service.py:347-349 | a missing or None input key keeps its default; a present value that needs no clean-up is kept; extra input keys play no part |
| Gemini.NormalizedRating | services/gemini_service.py:352-358 | a present rating float() converts is clamped into [1, 5]; one it cannot convert becomes None |
| Gemini.AsObjectAt | services/gemini_service.py:375 | the returned dictionary holds every key of the result with its value |
| Gemini.NormalFormFixed | services/gemini_service.py:342-375 | a result in normal form is a fixed point of normalisation |
| Gemini.NormalizeIdempotent | services/gemini_service.py:342-375 | normalising twice is normalising once |
| Gemini.EmptyIsNormal | services/gemini_service.py:322-340 | the empty result is in normal form |
| Gemini.ExtractFeedbackFailClosed | services/gemini_service.py:155-199 | whatever the model does the result is in normal form; a short text, a failed call or two unreadable replies give the empty result; a parsed dictionary is normalised |
| Gemini.Unwrap | services/gemini_service.py:235-245 | a list is used as is; a dict without results/items/data stands for itself when it has an "id" and is rejected otherwise; other values are rejected |
| Gemini.Objects | services/gemini_service.py:248-250 | the dictionaries kept are no more than the items |
| Gemini.ObjectsFromItems | services/gemini_service.py:248-250 | every dictionary kept comes from the items, and none is dropped when every item is a dictionary |
| Gemini.QuickOf | services/gemini_service.py:251-257 | the cleaned item's is_feedback is the truthiness of the reply's is_feedback (False when absent) and its id is the reply's id or None |
| Gemini.QuickCheckFeedbackBatch | services/gemini_service.py:214-263 | an empty batch, a failed call, an unreadable reply or a reply that is not a list give []; otherwise every dictionary is cleaned, in order; the list is the one QuickItems describes, which the bulk import reads |
| Gemini.ExtractFeedbackBatch | services/gemini_service.py:274-320 | as the quick check, but every dictionary is normalised, keeps its id, and is in normal form |
| Gemini.FindFrom | services/gemini_service.py:595 | the first occurrence of the fence at or after an index, or the end when there is none |
| Gemini.DropFence | services/gemini_service.py:696-697 | split("```", 1)[0] is the prefix before the first fence: no fence starts inside it, one starts right after it unless it is the whole candidate, and it holds no fence |
| Gemini.CutAfterLastBrace | services/gemini_service.py:699-700 | the cut is a prefix ending with the last '}': no '}' follows it; the whole candidate when it has no '}' |
| Gemini.RepairCutShape | services/gemini_service.py:690-700 | the cut candidate is the text from its first '{', holds no fence, and ends with '}' or holds an unmatched '{' |
| Gemini.RepairCutEnds | services/gemini_service.py:690-700 | in the text, the candidate runs from the first '{' to just after the last '}' before the first fence after that '{', or up to that fence (or the end) when no '}' comes before it |
| Gemini.FenceCutAt | services/gemini_service.py:696-697 | the cut at the first fence of a suffix of the text ends at the first fence at or after the suffix's start, or at the end of the text |
| Gemini.BraceCutIn | services/gemini_service.py:699-700 | the cut after the last '}' of a slice ends just after that '}' in the text, with no '}' between it and the slice's end, or at the slice's end when the slice has no '}' |
| Gemini.RepairJsonShape | services/gemini_service.py:688-707 | the repair gives None exactly when the text has no '{'; otherwise it is the text from its first '{' to just after the last '}' before the first fence (up to the fence or the end when there is no such '}'), followed by closing braces; it starts with '{', ends with '}', has no fence and at least as many '}' as '{' |
| Gemini.CloseBracesShape | services/gemini_service.py:702-707 | closing the braces keeps the leading '{', ends with '}', adds no fence, balances the braces and leaves nothing to strip |
| Gemini.BracesBalanced | services/gemini_service.py:702-705 | adding k closing braces adds k to the '}' count and nothing to the '{' count |
| Gemini.StripFenceNoFence | services/gemini_service.py:593-600 | a fenced reply loses all its fences; an unfenced one is only stripped |
| Gemini.ModelNameMatchesSpec | services/gemini_service.py:94-103 | a name matches itself and its "models/" form, every match ends with the preferred name, and the second test adds nothing to the first |
| Database.NormalizerIgnoresOuterBlanks | utils/text_processing.py:19-96 | the name key ignores blanks around the name, so the stripped name and the raw name are filed under the same key |
| Database.KeyedUpdate | models/database_models.py:46-47 | replacing a professor row by one with the same name and key keeps every row filed under the key of its name |
| Database.EntryOf | services/database_service.py:407-413 | the ledger position found holds the message, and no position is found only when no ledger row holds it |
| Database.FirstMaxUnique | services/database_service.py:138-150 | the extractOne pick (first row of highest score) is unique |
| Database.FirstMaxBeats | services/database_service.py:138-150 | every row scores at most the pick, and every row before the pick scores strictly less |
| Database.ExactMatch | services/database_service.py:103-112 | the row found has the normalised name, no earlier row has it, and nothing is found only when no row has it |
| Database.BestIndex | services/database_service.py:138-150 | for a non-empty table, the pick is the first row with the highest token-sort score |
| Database.FuzzyMatch | services/database_service.py:114-152 | nothing for an empty table; a pick is the first best-scoring row and scores at least the threshold; nothing is picked only when every row scores below the threshold |
| Database.CourseAddedSpec | services/database_service.py:219-229 | adding a course lists it, keeps the old list as a prefix, adds at most one entry, adds no duplicate, lists nothing new besides it, and adding it again changes nothing |
| Database.OfProfessorMembers | services/database_service.py:246-249 | the professor's rows are exactly the feedback rows that carry its id |
| Database.SentimentCountsBound | services/database_service.py:255-258 | positive, negative and neutral-or-mixed counts add up to at most the number of rows |
| Database.MeanBounds | services/database_service.py:260-263 | a mean of ratings lies between any bounds of those ratings |
| Database.SafeAverage | services/database_service.py:293-296 | no average exactly when there are no values |
| Database.SafeAverageMean | services/database_service.py:293-296 | the average times the number of values is their sum |
| Database.RecomputedSpec | services/database_service.py:254-288 | the total is the number of rows; the three sentiment counters do not exceed it; the overall rating is kept when no row is rated and otherwise is the mean of the ratings, within any bounds of them; each aspect's average is the safe average of the scores rows give it |
| Database.ScoreAveragesColumns | services/database_service.py:283-288 | each average column holds the safe average of its own aspect's scores |
| Database.RatingsFromRows | services/database_service.py:261 | with every stored final rating in [1, 5], every rating averaged is in [1, 5] |
| Database.FinalRatingSpec | services/database_service.py:325-327 | the final rating is the explicit one when present, else the inferred one, else NULL, and stays within [1, 5] |
| Database.RowOf | services/database_service.py:358-367 | the feedback row found holds the message, and none is found only when no row holds it |
| Database.KeepUnlessGivenSpec | services/database_service.py:82-86 | a user column changes only to a non-empty given value, and applying the same value twice changes nothing more |
| Database.EmptyTables | models/database_models.py:37-204 | a fresh database is empty and satisfies every table invariant |
| Database.FoundOrCreatedSpec | services/database_service.py:154-199 | the professor returned is a row of the table after the call; a row is created exactly when no row has the normalised name and none scores 85 or more, and then holds the stripped name, the key and the defaults of a new row; otherwise nothing changes; names stay unique; asking again finds the same professor without creating one |
| Database.RowAppendedValid | models/database_models.py:45-46 | appending professor rows keeps the other tables valid |
| Database.CreatedRowValid | services/database_service.py:182-194 | a row created for a name no row has under its key keeps the professor table valid and keyed |
| Database.ProfessorsAppendValid | models/database_models.py:45-49 | a row with the next id, no courses and a new name keeps ids sequential and names unique |
| Database.KeyedAppend | models/database_models.py:46-47 | appending a row filed under the key of its name keeps the table keyed |
| Database.ExactMatchAppend | services/database_service.py:103-112 | after a row is added under a key no row had, the exact lookup finds that row |
| Database.CourseAttachedSpec | services/database_service.py:219-229 | only that professor's course list changes, keeping its order and gaining the code; an unknown id or an empty code changes nothing; attaching again changes nothing |
| Database.StatsUpdatedRaises | services/database_service.py:238-288 | the recomputation raises exactly when the professor exists, has rows, and one of them has a truthy aspects value that is not a dictionary or a non-numeric score |
| Database.StatsUpdatedSpec | services/database_service.py:231-291 | a recomputation that does not raise keeps the table invariants |
| Database.StatsUpdatedShape | services/database_service.py:231-291 | a recomputation replaces only the professor's row, keeping its identity, name, key, courses and department, and changes nothing for an unknown professor |
| Database.RowReplacedValid | services/database_service.py:231-291 | replacing one professor row by one with the same identity, name, key and courses keeps the tables valid and touches no other row |
| Database.StatsUpdatedIdempotent | services/database_service.py:231-291 | recomputing twice gives what recomputing once gives |
| Database.RecomputedKeeps | services/database_service.py:254-288 | the recomputed row keeps id, name, key, courses and department |
| Database.RecomputedIdempotent | services/database_service.py:254-288 | recomputing a recomputed row changes nothing |
| Database.ProfessorsUpdateValid | models/database_models.py:45-49 | replacing a row by one with the same id, name and courses keeps the professor table valid |
| Database.AspectSums | services/database_service.py:266-281 | the loop raises exactly when some row has a truthy aspects value that is not a dictionary; otherwise each known aspect's list is that aspect's scores in row order |
| Database.RecomputedRow | services/database_service.py:254-288 | the recomputed row, or nothing exactly when the recomputation raises |
| Database.StatsRatingInRange | services/database_service.py:260-263 | with every stored final rating in [1, 5], a recomputed overall rating is in [1, 5] once any row is rated |
| Database.OfProfessorRatings | services/database_service.py:246-249 | selecting a professor's rows keeps every final rating in [1, 5] |
| Database.FeedbackUpsertedSpec | services/database_service.py:300-373 | after the upsert the message has exactly one row, the one returned, with the professor, message and final rating given; a row is added only for a new message; other messages' rows are kept; the invariants hold; repeating the upsert leaves the rows as they are |
| Database.FeedbacksOverwriteValid | services/database_service.py:350-353 | overwriting a message's row under its own id keeps the feedback table valid and touches no other row |
| Database.FeedbacksAppendValid | services/database_service.py:350-353 | appending a row for a new message under the next id keeps the feedback table valid |
| Database.RowOfOnly | models/database_models.py:90 | the row of a message that only one row carries is that row |
| Database.MarkedSpec | services/database_service.py:415-456 | after marking, the message has exactly one ledger row, holding the values given; other messages' rows stay; the ledger grows by at most one; a later mark replaces the earlier one entirely |
| Database.EntryOnly | models/database_models.py:144 | the ledger row of a message that only one row carries is that row |
| Database.UserUpsertedSpec | services/database_service.py:68-99 | the user is stored under its id; an old value survives an empty or missing new one; a new user holds the values given; no other user changes; repeating the upsert changes nothing |
| Database.LogOpsSpec | services/database_service.py:478-537 | a created log is found at its id and is running; a progress update changes only the counters passed; a completed log has the status, a completion time, the total when given, the old error unless a non-empty one is given, and a duration once started; no other log or table changes |
| Database.Store.constructor | services/database_service.py:42-45 | a new store has empty tables |
| Database.Store.FindProfessorByName | services/database_service.py:103-112 | the first row with the normalised name, or nothing exactly when no row has it |
| Database.Store.SearchProfessorFuzzy | services/database_service.py:114-152 | the first best-scoring row exactly when FuzzyMatch picks one |
| Database.Store.FindOrCreateProfessor | services/database_service.py:154-199 | the new state, the professor and the created flag are those of FoundOrCreated, whose properties FoundOrCreatedSpec proves |
| Database.Store.CreateProfessor | services/database_service.py:182-199 | appends a row with the next id, the stripped name, its key and the defaults of a new row, and nothing else changes |
| Database.Store.AddCourseToProfessor | services/database_service.py:219-229 | the new state is CourseAttached of the old one |
| Database.Store.UpdateProfessorStatistics | services/database_service.py:231-291 | succeeds exactly when the recomputation does not raise, and the state becomes the recomputed tables, or stays as it was when it raises |
| Database.Store.ReplaceProfessorRow | services/database_service.py:254-288 | writes back one row with the same identity, name, key and courses; nothing else changes |
| Database.Store.CreateFeedback | services/database_service.py:300-373 | the new state and the row returned are those of FeedbackUpserted |
| Database.Store.IsMessageProcessed | services/database_service.py:407-413 | true exactly when some ledger row holds the message |
| Database.Store.MarkMessageProcessed | services/database_service.py:415-456 | the new state is Marked of the old one and the row returned holds the values given |
| Database.Store.GetLastProcessedMessageId | services/database_service.py:458-464 | nothing exactly when the ledger is empty; otherwise a message id in the ledger that no row exceeds |
| Database.Store.UpsertTelegramUser | services/database_service.py:68-99 | the new state and the user returned are those of UserUpserted |
| Database.Store.CreateBulkImportLog | services/database_service.py:478-486 | the new state and the log are those of LogCreated |
| Database.Store.UpdateBulkImportProgress | services/database_service.py:488-513 | the new state is ProgressUpdated of the old one |
| Database.Store.CompleteBulkImport | services/database_service.py:515-537 | the new state is Completed of the old one |
| QueryBot.FindPartialMatch | bots/query_bot.py:601-625 | no answer for an empty name key or an empty table; otherwise the answer is the first professor of strictly highest max(token_set_ratio, partial_ratio) score, given only when that score reaches 75 for a one-word key and 85 otherwise |
| QueryBot.PartialPickIsFuzzyMatch | bots/query_bot.py:611-625 | over rows keyed by the name normaliser, the fallback picks what the store's first-best fuzzy search picks with the combined scorer and the query's threshold |
| QueryBot.TopLimitSpec | bots/query_bot.py:384-390 | /top shows 5 without an argument or with an unreadable one, the argument's number when it is at most 10, and 10 above that |
| QueryBot.LabelSpec | bots/query_bot.py:402-404 | the first three places get the three medals, every later place its 1-based position and a dot, and no two places share a label |
| QueryBot.AnsweredSpec | bots/query_bot.py:426-429 | a message under 5 characters is never answered, and sanitising first does not change whether it is |
| TelegramHistory.RecordOf | services/telegram_history_service.py:164-170 | the record of a yielded message carries its id, its non-empty text, its sender and the message it replies to |
| TelegramHistory.KeptAppend | services/telegram_history_service.py:154-170 | filtering the stream distributes over concatenation, so stream order is kept |
| TelegramHistory.KeptSpec | services/telegram_history_service.py:154-170 | only records with text are kept, never more than the stream has, and every message with text is kept |
| TelegramHistory.ReversedSpec | services/telegram_history_service.py:303 | reversal keeps the length and mirrors every position |
| TelegramHistory.ReversedTwice | services/telegram_history_service.py:303 | reversing twice gives back the list |
| TelegramHistory.ReverseInPlace | services/telegram_history_service.py:303 | list.reverse leaves the array holding the reversal of its old contents |
| TelegramHistory.HistoryService.constructor | services/telegram_history_service.py:59-60 | a new service has no client and is not connected |
| TelegramHistory.HistoryService.Connect | services/telegram_history_service.py:62-79 | connect is a no-op when connected; otherwise it creates the client and marks the service connected |
| TelegramHistory.HistoryService.Disconnect | services/telegram_history_service.py:84-88 | only a created and connected client is disconnected; the client stays |
| TelegramHistory.HistoryService.FetchMessages | services/telegram_history_service.py:124-180 | fetch_messages connects and yields exactly the filtered records, in stream order |
| TelegramHistory.Chunk | services/telegram_history_service.py:203-217 | the batches concatenate back to the messages; none is empty; all but the last hold max(batch_size, 1) messages and the last at most that |
| TelegramHistory.HistoryService.FetchMessagesBatch | services/telegram_history_service.py:184-217 | fetch_messages_batch connects and returns the fetched records cut as Chunk describes |
| TelegramHistory.HistoryService.FetchNewMessagesSince | services/telegram_history_service.py:272-307 | the new messages come back oldest first: the reversal of the fetched records |
| Collector.ProcessedDuplicate | bots/collector_bot.py:350-353 | a message already in the ledger is skipped: nothing is written and the extractor plays no part |
| Collector.ProcessedTooShort | bots/collector_bot.py:356-360 | a new message whose cleaned text is empty or shorter than 20 characters gets one non-feedback ledger row and nothing else, whatever the extractor would say |
| Collector.ProcessedExtractorRaised | bots/collector_bot.py:362-372 | an exception from the extractor is recorded in the ledger as non-feedback with its text, and nothing else is written |
| Collector.GatedRejects | bots/collector_bot.py:374-392 | a reply that is not feedback or below the minimum confidence, an inappropriate one, and one that names nobody each get one non-feedback ledger row and touch no professor or feedback; the last two are reported as feedback |
| Collector.StoredSpec | bots/collector_bot.py:394-442 | on the accepted path the message's feedback row holds the cleaned text; the ledger row, written last, records it as feedback with the id reported; when the recomputation raises the ledger is left without the message; the table invariants and keys hold |
| Collector.CourseKeepsKeys | bots/collector_bot.py:398-401 | attaching the course keeps every professor's name key |
| Collector.StatsKeepKeys | bots/collector_bot.py:430 | recomputing the statistics keeps every professor's name key |
| Collector.ProcessedLedgerOnce | bots/collector_bot.py:326-444 | past the dedup check, a call that returns adds exactly one ledger row, the message's, at the end, and one that raises adds none; when no feedback is created no professor or feedback row changes; the invariants hold |
| Collector.Imported | bots/collector_bot.py:180-198 | the pipeline over a stream gives one result per message |
| Collector.ImportedKeepsLogs | bots/collector_bot.py:180-198 | running the pipeline over a stream never touches the import logs or the users |
| Collector.ProcessedFrame | bots/collector_bot.py:326-444 | processing a message leaves logs and users as they are and runs alike whatever the logs hold |
| Collector.ImportedValid | bots/collector_bot.py:180-198 | the pipeline keeps the table invariants and the name keys over a whole stream |
| Collector.ProcessedValid | bots/collector_bot.py:326-444 | processing one message keeps the table invariants and the name keys |
| Collector.TallySpec | bots/collector_bot.py:167-197 | every message is counted as processed or as an error, and at most one feedback and one professor are counted per processed message |
| Collector.TallyMonotone | bots/collector_bot.py:167-197 | the counters only increase as the stream goes on |
| Collector.CheckpointedStep | bots/collector_bot.py:199-212 | one more message moves the progress checkpoint only when it completes a hundred, and then to the counters after it and that message's id |
| Collector.ProgressCheckpoint | bots/collector_bot.py:204-212 | the progress write at a hundredth message turns the running log into the log at the new checkpoint |
| Collector.ImportedStep | bots/collector_bot.py:180-198 | one more message extends the run by processing that message on the tables left so far |
| Collector.TallyStep | bots/collector_bot.py:184-197 | one more result adds its own counts |
| Collector.CollectorBot.constructor | bots/collector_bot.py:50-66 | a new bot holds its store, history client, configuration and minimum confidence, and neither monitors nor imports |
| Collector.CollectorBot.ProcessMessage | bots/collector_bot.py:326-444 | the new store state and the result are those of Processed |
| Collector.CollectorBot.StoreFeedback | bots/collector_bot.py:394-442 | the new store state and the result are those of Stored |
| Collector.CollectorBot.RunBulkImport | bots/collector_bot.py:145-252 | while an import runs it refuses and leaves the store alone; otherwise it appends one log, runs the pipeline over every message, leaves the log with the counters at the last hundredth message, completed with the total or failed with the error, reports the counts, and always clears the flag |
| Collector.CollectorBot.ImportAll | bots/collector_bot.py:180-212 | the loop's counters are the tally of the pipeline's results, the store is what the pipeline leaves, and the running log holds the last checkpoint |
| Collector.CollectorBot.CheckNewMessages | bots/collector_bot.py:274-322 | skipped while an import runs; otherwise the new messages go through the pipeline oldest first and the report gives their number and the feedbacks created, or says there were none |
| Collector.CollectorBot.Pause | bots/collector_bot.py:527-537 | an admin stops the monitoring, anyone else changes nothing, and the import flag stays |
| Collector.CollectorBot.Resume | bots/collector_bot.py:539-550 | an admin starts the monitoring, anyone else changes nothing, and the import flag stays |
| Userbot.DisplayNameSpec | bots/userbot_collector.py:179 | the display name is None exactly when neither the first nor the last name is given; otherwise it is non-empty, starts with the first name, ends with the last name, and joins both with one blank |
| Userbot.CapturedSpec | bots/userbot_collector.py:166-190 | capturing a sender touches only the users, and a sender with a non-zero id is stored under it |
| Userbot.RecordedKeeps | bots/userbot_collector.py:400-442 | the writes of an accepted message leave the ledger, users and logs as they are, and a finished result reports the message processed, feedback and created |
| Userbot.RecordedSpec | bots/userbot_collector.py:400-442 | the writes keep the table invariants and keys; a message whose from_id is a channel raises AttributeError once the professor is found or created, with no feedback row written; otherwise the message's feedback row holds the cleaned text and the sender's user id (None without from_id) and is the one reported, and a professor created for it is the last row and has no department |
| Userbot.HandledSkips | bots/userbot_collector.py:140-147 | a message without text, with under 10 characters once stripped, or already in the ledger is skipped with no write and no extractor call |
| Userbot.HandledExtractorRaised | bots/userbot_collector.py:149-162 | an extractor exception is caught into the result, which reports nothing processed; only the sender may have been captured |
| Userbot.AppliedLedgerFirst | bots/userbot_collector.py:369-398 | the ledger row comes first: the message gets exactly one appended row with the extraction's is_feedback, whatever the gates decide and even when a later step raises; a gate that stops the message touches no professor or feedback and reports it processed |
| Userbot.AppliedStores | bots/userbot_collector.py:369-442 | every ending keeps the table invariants and keys, and a created feedback is the message's row, holding the cleaned text, under the id reported |
| Userbot.HandledLedger | bots/userbot_collector.py:121-164 | processing adds at most one ledger row, the message's, at the end, rewrites none, adds exactly one once an eligible message gets a reply, touches no log and keeps the invariants |
| Userbot.LedgerFirstVersusLast | bots/userbot_collector.py:386-414 | when the statistics recomputation raises, the collector bot leaves the message out of the ledger, so it is processed again, while the userbot has already recorded it |
| Userbot.MetadataSpec | bots/userbot_collector.py:428-434 | the embedding metadata holds no None value and never a rating, since the key it reads is not one a normalised extraction has; it holds the course code and the sentiment exactly when they are set |
| Userbot.IdsOfSlices | bots/userbot_collector.py:309-311 | both halves of a split batch hold only ids of the batch |
| Userbot.MessageMapOf | bots/userbot_collector.py:279-288 | message_map holds distinct ids, only eligible messages of the batch, and is empty exactly when the payload is |
| Userbot.PositionOf | bots/userbot_collector.py:288 | the position found holds the id, and none is found only when no entry has it |
| Userbot.Put | bots/userbot_collector.py:288 | storing a message under its id keeps the ids distinct, adds at most one entry, and every entry is the new message or an old one |
| Userbot.QuickFor | bots/userbot_collector.py:314-317 | the quick-check item found is one of the results whose id equals the message id as a dictionary key does, and none is found only when no result's id does; a list or object id, on which Python raises, counts as no match (see "## Left out") |
| Userbot.BatchSize | bots/userbot_collector.py:221 | the batch size is at least 1 and the configured size when that is positive |
| Userbot.Fetched | bots/userbot_collector.py:204-229 | the messages fetched are the newest of the history, as many as the limit when one is given and the history has that many |
| Userbot.UserbotCollector.constructor | bots/userbot_collector.py:44-68 | a new collector holds its store and minimum confidence and does not monitor |
| Userbot.UserbotCollector.StopMonitoring | bots/userbot_collector.py:515-518 | monitoring stops |
| Userbot.UserbotCollector.CaptureUser | bots/userbot_collector.py:166-190 | the new store state is Captured of the old one |
| Userbot.UserbotCollector.ProcessMessage | bots/userbot_collector.py:121-164 | the new store state and the result are those of Handled |
| Userbot.UserbotCollector.ApplyExtraction | bots/userbot_collector.py:369-442 | the new store state and the ending are those of Applied |
| Userbot.UserbotCollector.Record | bots/userbot_collector.py:400-442 | the new store state and the ending are those of Recorded, whose properties RecordedKeeps and RecordedSpec prove |
| Userbot.UserbotCollector.ProcessMessageBatch | bots/userbot_collector.py:272-367 | the new store state and counters are those of BatchHandled, the recursion of _process_message_batch (both halves of a split are shorter, and their quick checks are one bisection level deeper); no counter goes down; the ledger only gains rows for messages of the batch; only the import's own log may change |
| Userbot.UserbotCollector.CollectPayload | bots/userbot_collector.py:279-288 | the payload and message_map built are PayloadOf and MessageMapOf of the batch |
| Userbot.UserbotCollector.ProcessQuickChecked | bots/userbot_collector.py:314-367 | the loop over message_map leaves the store and the counters as QuickCheckedHandled gives them; no counter goes down, the ledger gains only rows with ids of the batch, and only the import's own log may change |
| Userbot.UserbotCollector.ProcessOne | bots/userbot_collector.py:316-367 | one entry leaves the store and the counters as OneHandled gives them; it adds at most one ledger row, its own; no counter goes down; only the import's own log may change |
| Userbot.UserbotCollector.RecordNonFeedback | bots/userbot_collector.py:331-335 | the sender is captured and one ledger row saying not feedback is appended; professors, feedback rows and logs stay |
| Userbot.UserbotCollector.ExtractAndApply | bots/userbot_collector.py:337-352 | the store, the exception flag and the report are those of ExtractedApplied; an extractor exception writes no ledger row, a reply writes exactly one, and the logs stay |
| Userbot.UserbotCollector.RunBulkImport | bots/userbot_collector.py:194-270 | the new store state and the statistics are those of BulkImported on the fetched messages; batches have the batch size except a shorter last one and cover every message, or, when the stream raises, every message up to the unfinished batch; one log is appended and completed with the total, or failed |
| Userbot.UserbotCollector.ImportBatches | bots/userbot_collector.py:220-235 | the store, the counters and the unfinished batch are those of BatchesHandled; every full batch is processed, every message is counted, and the logs before the import's own stay |
| Userbot.UserbotCollector.ProcessLogged | bots/userbot_collector.py:272-367 | a batch processed under the import's log, the last one, leaves the store and the counters as BatchHandled gives them and the earlier logs as they were |
| Userbot.GrownTwice | bots/userbot_collector.py:309-311 | two growths of the ledger by rows of the two halves are a growth by rows of the whole batch |
| Userbot.ProgressKeeps | bots/userbot_collector.py:354-367 | the progress write changes only the log it names |
| Userbot.NotInGrownLedger | bots/userbot_collector.py:316-352 | a message not yet in the ledger stays out of it while rows for other messages are added |
| Userbot.AppliedReport | bots/userbot_collector.py:369-442 | a returned dictionary says processed, carries no error, and reports a professor created only with a feedback; an exception is never the extractor's |
| Userbot.HandledCounts | bots/userbot_collector.py:121-164 | the result of process_message on a message past its gates says processed or carries a truthy error exactly when the extractor did not raise with an empty message, and never both; a feedback created is processed, and a professor created comes with a feedback |
| Userbot.OneHandledSpec | bots/userbot_collector.py:316-367 | one entry keeps the invariants and keys, adds at most its own ledger row and is in the ledger afterwards exactly when the extractor replied or the quick check called it not feedback; it writes its own log only on a hundredth message called feedback, with the counters and its id; it counts the message once unless the extractor raised with an empty message; not feedback counts processed and leaves professors and feedback rows alone |
| Userbot.HandledStep | bots/userbot_collector.py:318-329 | the fallback to process_message puts the message in the ledger exactly when the extractor replied and writes nothing else to the ledger or the logs |
| Userbot.NotFeedbackStep | bots/userbot_collector.py:331-335 | a message called not feedback gets its sender captured and one ledger row saying not feedback; professors, feedback rows and logs stay |
| Userbot.ExtractedAppliedSpec | bots/userbot_collector.py:337-352 | an exception of the extractor writes nothing and is reported failed; otherwise the ledger row comes first, the message is in the ledger afterwards exactly when the extractor replied, and a returned report says processed with no error and a professor only with a feedback; the logs stay |
| Userbot.ProgressedSpec | bots/userbot_collector.py:353-367 | the progress write touches only the import's own log, and only when the total is a non-zero multiple of 100, taking the counters and the message id |
| Userbot.QuickCheckedSpec | bots/userbot_collector.py:314-367 | the loop over distinct entries past their gates keeps the invariants and keys, adds ledger rows only for its entries, writes no log but its own, keeps the total, and counts every entry once except those whose extractor raised with an empty message |
| Userbot.StepThenGrown | bots/userbot_collector.py:316-335 | a ledger step for one entry followed by rows for the others is a growth by the ids of all of them |
| Userbot.RestEligible | bots/userbot_collector.py:282-288 | after the first entry adds at most its own row, the other entries, with distinct ids, are still past their gates |
| Userbot.BatchHandledIneligible | bots/userbot_collector.py:282-291 | a batch whose every message is stopped by the gates changes neither the store nor the counters |
| Userbot.PayloadEmpty | bots/userbot_collector.py:282-291 | the payload is empty exactly when no message of the batch passes the gates |
| Userbot.BatchHandledSpec | bots/userbot_collector.py:272-367 | _process_message_batch keeps the invariants and keys, adds ledger rows only for messages of the batch, writes no log but its own, keeps the total, and counts each message at most once |
| Userbot.BatchesHandledSpec | bots/userbot_collector.py:225-234 | the stream loop adds the messages to the total, leaves an unfinished batch shorter than the batch size that is the tail of the messages, counts each message of a handled batch at most once, keeps the invariants and keys, adds ledger rows only for those messages and writes no log but its own |
| Userbot.BulkImportedSpec | bots/userbot_collector.py:194-270 | run_bulk_import keeps the invariants and keys, counts every message in the total and each at most once as processed or as an error, with feedbacks only among the processed and professors only with a feedback; it adds ledger rows only for the stream's messages and exactly one log, the others kept, which ends completed with the total, or failed, at the finishing time |
| Analytics.PercentSpec | services/analytics_service.py:437-442 | the percentage is 0 without a total or with a zero one; otherwise it times the total is the part times 100, and it lies in [0, 100] for a part within the total |
| Analytics.CountOfSpec | services/analytics_service.py:451-454 | an item is counted exactly when it occurs, and never more often than there are items |
| Analytics.FirstSeen | services/analytics_service.py:451-454 | the dictionary's keys in insertion order are distinct and are exactly the items seen |
| Analytics.TalliedSpec | services/analytics_service.py:451-454 | the counting dictionary holds every item once, in first-seen order, with the number of its occurrences |
| Analytics.TalliedStep | services/analytics_service.py:452-454 | counting one more item bumps that item's count |
| Analytics.CountInto | services/analytics_service.py:451-454 | the counting loop, continued from a dictionary that counts what was seen, counts what was seen and the new items |
| Analytics.Tally | services/analytics_service.py:451-454 | counting into an empty dictionary gives the counting dictionary of the items |
| Analytics.RankedTopMaximal | services/analytics_service.py:456-457 | a listed key has a count at least that of any key left out |
| Analytics.RankedTopUnique | services/analytics_service.py:456-457 | for given counts and limit only one list is ranked: the stable sort's slice is determined |
| Analytics.ChainPrecedes | services/analytics_service.py:456-457 | each listed key precedes (higher count, or equal count and seen first) every key listed after it and every key left out |
| Analytics.TopByCount | services/analytics_service.py:456-457 | the keys listed are the slice of the stable descending sort by count: min(limit, keys) of them, ties in first-seen order |
| Analytics.Unlisted | services/analytics_service.py:456 | the key picked is not yet listed and precedes every other unlisted key |
| Analytics.TallyCounts | services/analytics_service.py:451-454 | the counting loop's dictionary gives the occurrence counts, key by key, in first-seen order |
| Analytics.TopItems | services/analytics_service.py:444-457 | no items give no result; otherwise the result lists, lowercased and stripped, the keys of the stable ranking of their counts, at most limit of them |
| Analytics.MostSearched | services/analytics_service.py:391-431 | one count per mention in the recent queries, listed as (name, count) pairs in the stable ranking by count, at most limit of them |
| Analytics.InsertSpec | services/analytics_service.py:237 | inserting into a descending list keeps it descending and adds exactly that element |
| Analytics.SortDescSpec | services/analytics_service.py:237 | the descending sort by key is sorted and a permutation of its input |
| Analytics.LeadersSpec | services/analytics_service.py:72-74 | ORDER BY ... LIMIT gives min(limit, all) elements of the input, largest key first, and all of them when the limit does not cut |
| Analytics.LeadersBound | services/analytics_service.py:72-74 | every element left out of the leaders has a key no larger than the last leader's |
| Analytics.Filtered | services/analytics_service.py:65-70 | the eligible professors are exactly those with enough feedback and, when a department is given, of that department |
| Analytics.TopProfessorsSpec | services/analytics_service.py:46-90 | the top list ranks from 1 in steps of 1, its ratings never rise, it holds min(limit, eligible) rows, and each row describes an eligible professor |
| Analytics.TopProfessorsComplete | services/analytics_service.py:65-74 | no eligible professor rated above the last row is left out |
| Analytics.BottomProfessorsSpec | services/analytics_service.py:92-120 | the bottom list ranks from 1, its ratings never fall, it holds min(limit, eligible) rows, each for a professor with enough feedback |
| Analytics.BottomProfessorsComplete | services/analytics_service.py:98-103 | no professor with enough feedback rated below the last row is left out |
| Analytics.TopPercentInRange | services/analytics_service.py:84-86 | the positive share of every top row lies in [0, 100] when no professor has more positive than total feedbacks |
| Analytics.CourseFeedbacks | services/analytics_service.py:211-217 | the course feedback of a professor is a selection of the rows, all of that professor and matching the course |
| Analytics.CourseRowFor | services/analytics_service.py:209-233 | the row built for one professor is CourseRowOf that professor |
| Analytics.ProfessorsForCourse | services/analytics_service.py:192-243 | one row per professor teaching the course, every one once, sorted by course rating, highest first |
| Analytics.CourseRatingSpec | services/analytics_service.py:219-223 | without course feedback the course rating is the overall rating; with some but none rated it is 0; otherwise it lies in [1, 5] when the stored ratings do |
| Analytics.TruthyInRange | services/analytics_service.py:220 | with every stored rating in [1, 5], every truthy course rating is in [1, 5] |

## Left out

- The language model calls are not modelled: `_generate_async`, `_resolve_model_name`, the retry decorator and the prompt texts under prompts/. The model's reply is an oracle parameter.
- JSON decoding (`json.loads`, `raw_decode`) is library behaviour and is not modelled. The oracle gives the parsed value or says the text did not parse. `_attempt_repair_json` and fence stripping are modelled on the text.
- `quick_check_feedback` for a single text is not modelled. It returns nothing for text that is not short (services/gemini_service.py:211-212). The statements after the unconditional return at services/gemini_service.py:265-272 cannot run and are not modelled.
- The rapidfuzz scorers (`token_sort_ratio`, `token_set_ratio`, `partial_ratio`) are parameters into [0, 100]. `process.extractOne` is the first row of highest score.
- The embedding service (sentence-transformers, ChromaDB) is not modelled.
  - The bot swallows its failures, so leaving it out changes nothing the bot stores.
  - In the userbot a failure of `store_feedback_embedding` (bots/userbot_collector.py:435-441) would surface as the message's error after its rows are written. The model has no such failure.
- SQLAlchemy sessions, commit, rollback and expunge are not modelled. PostgreSQL `ON CONFLICT` is an atomic upsert on the unique column.
- Read operations outside the pipeline are not part of this model:
  - `get_professor_by_id`, `get_all_professors`, `get_professor_feedbacks` and `get_feedbacks_by_course`;
  - the two count queries;
  - `get_latest_bulk_import`, `is_bulk_import_completed` and `log_user_query`;
  - `get_top_rated_professors`, `get_professors_by_course` and `get_overall_statistics`.
- From the analytics service, `get_professor_detailed_stats`, `get_overall_statistics`, `get_recent_activity` and `get_popular_queries` are not part of this model.
- SQL `ORDER BY` ties are resolved stably, in table order, in `Analytics.LeadersSpec` and the top/bottom lists. PostgreSQL does not promise an order among equal ratings.
- The age filter of `get_most_searched_professors` (`created_at` within `days`) is not modelled. `Analytics.MostSearched` takes the recent queries' mention lists as given.
- asyncio is not modelled:
  - the userbot's `start_monitoring` (buffer, lock, flush task, timer);
  - the bot's `monitoring_loop` and its sleeps;
  - the background task of `cmd_import`;
  - `main.run_both` and signal handling.
- Telegram clients, replies, Markdown, `cmd_start`, `cmd_status`, `cmd_stats`, `cmd_help` and admin notifications are not modelled. The message stream is the sequence of items the client yields, with distinct message ids.
- `round()`, `_format_rating`, f-strings, datetime arithmetic and response timing are not modelled. Timestamps are integer parameters and durations are exact.
- Analytics.PercentSpec: states `part / total * 100` exactly; the rounding to one decimal (services/analytics_service.py:442) is not modelled.
- Analytics.TopProfessorsSpec: the rating column is the unrounded overall rating; `round(..., 2)` is not modelled, and the same holds for the bottom list and the course rows.
- Analytics.ProfessorsForCourse: sorts by the unrounded course rating. Python sorts by `round(avg_rating, 2)` (services/analytics_service.py:232, 239). So two ratings that differ but are equal after rounding keep their query order in Python, while the model puts the higher one first.
- Userbot.QuickFor: a quick-check item whose id is a list or an object counts as no match, and its message falls back to process_message. In Python that id is unhashable. Building `quick_map` (bots/userbot_collector.py:314) then raises TypeError. `run_bulk_import` catches it (bots/userbot_collector.py:261-268). It completes the log "failed" with that error, sets `stats["error"]` and skips the rest of the stream. Integer, float, boolean and string ids are modelled exactly.
- Userbot.UserbotCollector.ProcessMessageBatch: does not raise on a list- or object-valued quick-check id; see `Userbot.QuickFor`.
- Userbot.UserbotCollector.ProcessLogged: the same as `Userbot.UserbotCollector.ProcessMessageBatch`.
- Userbot.UserbotCollector.RunBulkImport: a list- or object-valued quick-check id does not end the import "failed"; see `Userbot.QuickFor`. Only a stream error does.
- Userbot.BulkImportedSpec: "completed" follows whenever the stream does not raise. In Python, a batch whose quick-check reply has a list- or object-valued id also ends the log "failed"; see `Userbot.QuickFor`.
- main.py, utils/logger.py, scripts/*.py and the `os.getenv` and `mkdir` calls of config.py are not part of this model. The environment's values are a `Settings` value given to `Configuration.Config.constructor`.
- TextProcessing.NormalizeProfessorName: Unicode normalisation (NFKD, and NFKC in `clean_feedback_text`) is not modelled.
  - In Python, "José" becomes "jose": NFKD splits off the accent and `[^\w\s\-]` deletes it. The model keeps "josé".
  - So `Database.FoundOrCreatedSpec` keeps apart two professors whose names differ only by accents, where Python merges them.
  - `unicodedata.category` is the character classes of strings.dfy: ASCII, Latin-1, Latin Extended-A/B and Cyrillic.
- TextProcessing.CleanFeedbackText: NFKC is not applied. Compatibility characters (full-width letters, ligatures) stay as they are.
- `detect_language` (langdetect) is not part of this model.
- JsonValues.ParseDecimal: reads only the plain decimal forms: sign, digits, an optional point and fraction, and surrounding whitespace.
  - Python's `float()` also accepts "1e1", "nan", "inf" and "1_0". For those the model gives None where Python gives a number, e.g. an explicit rating "1e1" that Python clamps to 5.0.
  - `float()` of an integer above the float range raises OverflowError, which `_normalize_extraction_result` does not catch. The model converts it exactly and clamps it.
- JsonValues.ToFloat: reals are exact. Binary floating point, its rounding and its overflow are not modelled.
- Strings.IsDigit: `\d` is ASCII-only here. Python's `\d` also matches other Unicode decimal digits (validators.py, the course-code and rating patterns).
- Strings.Lower: `lower()` and `upper()` work one character at a time here. The cases where Python changes the length ('İ'.lower(), 'ß'.upper()) are not modelled.
- Strings.LowerChar: covers ASCII, Latin-1 and Cyrillic from U+0400 to U+052F, including Ӏ (U+04C0) and the pairs U+04C1 to U+04CE. The upper/lower pairs of Latin Extended-A and B ('Ā' to 'ā', 'Ł' to 'ł') are left as they are, where Python's `lower()` lowers them.
- Strings.UpperChar: the same Latin Extended-A and B pairs are left unchanged. So are 'ÿ', which Python raises to 'Ÿ' (U+0178), and 'µ', which Python raises to Greek 'Μ' (U+039C).
- Collector.StoredSpec: attaches a course code only when the extraction's `course_code` is a non-empty string. A truthy value of another JSON type (a number, a list, an object, true) is not attached. bots/collector_bot.py:399-401 and services/database_service.py:225-229 would append it to the `ARRAY(String)` course list, and what the database then does is not modelled.
  - Its feedback row is written whatever the extraction's values are. The source's write fails on a value that does not fit its column, as the `Database.Store.CreateFeedback` line says. There the source leaves the message out of the ledger, and the model stores the row.
- TelegramHistory.HistoryService.FetchMessages: models `from_id` as a user id or absent. A `PeerChannel` sender has no `user_id`. There the source raises AttributeError, which ends the fetch with `TelegramHistoryServiceError` (services/telegram_history_service.py:168, 178-180). That is not modelled.
- TelegramHistory.HistoryService.constructor: the error `__init__` raises for missing API credentials (services/telegram_history_service.py:54-57) is not modelled.
- Database.Store.CreateFeedback: requires an existing professor id. The foreign-key violation the database raises for any other id is not modelled, since every caller passes the id of the professor it has just found or created.
  - The column types and lengths of models/database_models.py are not enforced. These are: course_code String(50) (:95), course_name String(255) (:96), semester String(50) (:97), sentiment String(20) (:103) and detected_language String(10) (:116).
  - The extraction's values reach these columns uncoerced. An over-long string, or a value of another JSON type such as a list-valued semester, makes the source's insert fail. The model stores the value.
- Database.FeedbackUpsertedSpec: states the stored row for every extraction value. A value that does not fit its column makes the source's upsert fail instead, as the `Database.Store.CreateFeedback` line says.
- Database.FoundOrCreatedSpec: creates the professor row for a name of any length. A name over the 255 characters of `Professor.name` and `name_normalized` (models/database_models.py:46-47) makes the source's insert fail.
- Userbot.RecordedSpec: writes the feedback row whatever the extraction's values are. A value that does not fit its column makes create_feedback fail in the source, and the message's result then carries that error. The column types are those of the `Database.Store.CreateFeedback` line.
- Userbot.AppliedLedgerFirst: writes the ledger row with the truthiness of `is_feedback`. bots/userbot_collector.py:385-388 passes the raw value to the Boolean column of models/database_models.py:147. A value the column does not take, such as the string "true", makes that write fail, so no ledger row is written. The model writes the row.
- Validators.KeepPrintable: the table of non-printable characters covers the control (Cc), format (Cf) and private-use (Co) classes and every separator but the blank. A Dafny `char` is never a surrogate. Unassigned code points (class Cn, such as U+0378) count as printable here. Python's `isprintable()` rejects them.
- Validators.SanitizeInput: keeps unassigned code points (class Cn, such as U+0378), as the `Validators.KeepPrintable` line says. Python drops them, so `sanitize_input("a\u0378b")` is "ab" in Python and keeps the character here.
- Concurrent runs of the pipeline for the same message are not modelled. Every store call is one atomic step in a sequential run.
