// config.py: the settings read from the environment, the admin id list
// and the per-mode validation of the required settings.
module Configuration {
  import opened Wrappers
  import opened Strings
  import opened JsonValues

  /** The settings as read from the environment (reading it is not modelled). */
  datatype Settings = Settings(
    collectorBotToken: string,
    queryBotToken: string,
    telegramApiId: int,
    telegramApiHash: string,
    feedbackGroupId: int,
    geminiApiKey: string,
    geminiModel: string,
    databaseUrl: string,
    bulkImportLimit: int,
    bulkImportBatchSize: int,
    monitorBatchSize: int,
    minExtractionConfidence: real,
    adminUserIdsText: string)

  /** The values used when a variable is not set. */
  const DefaultSettings := Settings(
    collectorBotToken := "",
    queryBotToken := "",
    telegramApiId := 0,
    telegramApiHash := "",
    feedbackGroupId := 0,
    geminiApiKey := "",
    geminiModel := "",
    databaseUrl := "postgresql://localhost:5432/wuit_feedback",
    bulkImportLimit := 10000,
    bulkImportBatchSize := 100,
    monitorBatchSize := 50,
    minExtractionConfidence := 0.7,
    adminUserIdsText := "")

  // =====================================================================
  // _parse_admin_ids

  /** The stripped, non-blank pieces. */
  function NonBlankPieces(ps: seq<string>): (r: seq<string>)
    ensures forall p :: p in r ==> p != [] && Stripped(p)
    ensures |r| <= |ps|
  {
    if ps == [] then []
    else
      StrippedStrip(ps[0]);
      (if Strip(ps[0]) != [] then [Strip(ps[0])] else []) + NonBlankPieces(ps[1..])
  }

  /** int() of every piece, or None as soon as one of them raises ValueError. */
  function ParseAll(ps: seq<string>): (r: Option<seq<int>>)
    ensures r.None? <==> exists i :: 0 <= i < |ps| && ParseInt(ps[i]).None?
    ensures r.Some? ==> |r.value| == |ps| && forall i :: 0 <= i < |ps| ==> ParseInt(ps[i]) == Some(r.value[i])
  {
    if ps == [] then Some([])
    else
      match ParseInt(ps[0])
      case None => None
      case Some(n) =>
        match ParseAll(ps[1..])
        case None => None
        case Some(ns) => Some([n] + ns)
  }

  /** _parse_admin_ids: comma-separated ids, blanks skipped; one bad piece empties the list. */
  function ParseAdminIds(text: string): (ids: seq<int>)
    ensures text == [] ==> ids == []
  {
    if text == [] then []
    else
      match ParseAll(NonBlankPieces(SplitOn(text, ',')))
      case Some(ids) => ids
      case None => []
  }

  /** One piece that is not an integer makes the whole list empty. */
  lemma BadPieceEmpties(text: string, i: nat)
    requires i < |NonBlankPieces(SplitOn(text, ','))|
    requires ParseInt(NonBlankPieces(SplitOn(text, ','))[i]).None?
    ensures ParseAdminIds(text) == []
  {
  }

  /** The decimal text of the ids, comma-separated, reads back as those ids. */
  lemma AdminIdsRoundTrip(ids: seq<int>)
    requires ids != []
    ensures ParseAdminIds(Join([','], IdTexts(ids))) == ids
  {
    var ws := IdTexts(ids);
    IdTextsShape(ids);
    var text := Join([','], ws);
    SplitOnJoin(ws, ',');
    NonBlankOfStripped(ws);
    ParseIdTexts(ids);
    assert text != [] by {
      assert ws[0] in ws;
      JoinHead(ws, ',');
    }
  }

  function IdTexts(ids: seq<int>): (ws: seq<string>)
    ensures |ws| == |ids|
    ensures forall i :: 0 <= i < |ids| ==> ws[i] == IntToString(ids[i])
  {
    if ids == [] then [] else [IntToString(ids[0])] + IdTexts(ids[1..])
  }

  lemma IdTextsShape(ids: seq<int>)
    ensures forall w :: w in IdTexts(ids) ==> w != [] && Stripped(w) && ',' !in w
  {
    forall w | w in IdTexts(ids) ensures w != [] && Stripped(w) && ',' !in w {
      var i :| 0 <= i < |ids| && IdTexts(ids)[i] == w;
      IntTextShape(ids[i]);
    }
  }

  /** str(n) is a non-empty, stripped text without a comma. */
  lemma IntTextShape(n: int)
    ensures IntToString(n) != [] && Stripped(IntToString(n)) && ',' !in IntToString(n)
  {
    var d := NatToString(if n < 0 then -n else n);
    assert IsDigit(d[0]) && IsDigit(d[|d| - 1]);
    if n < 0 {
      var w := "-" + d;
      assert w[|w| - 1] == d[|d| - 1];
      assert forall k :: 1 <= k < |w| ==> w[k] == d[k - 1];
    }
  }

  lemma {:induction false} NonBlankOfStripped(ws: seq<string>)
    requires forall w :: w in ws ==> w != [] && Stripped(w)
    ensures NonBlankPieces(ws) == ws
  {
    if ws != [] {
      assert ws[0] in ws;
      StripIdempotent(ws[0]);
      assert forall w :: w in ws[1..] ==> w in ws;
      NonBlankOfStripped(ws[1..]);
    }
  }

  lemma {:induction false} ParseIdTexts(ids: seq<int>)
    ensures ParseAll(IdTexts(ids)) == Some(ids)
  {
    if ids != [] {
      var ws := IdTexts(ids);
      assert ws[1..] == IdTexts(ids[1..]);
      ParseIntOfIntToString(ids[0]);
      ParseIdTexts(ids[1..]);
      ParseAllCons(ws, ids[0], ids[1..]);
      assert [ids[0]] + ids[1..] == ids;
    }
  }

  lemma ParseAllCons(ws: seq<string>, n: int, ns: seq<int>)
    requires ws != [] && ParseInt(ws[0]) == Some(n) && ParseAll(ws[1..]) == Some(ns)
    ensures ParseAll(ws) == Some([n] + ns)
  {
  }

  lemma JoinHead(ws: seq<string>, c: char)
    requires ws != [] && ws[0] != []
    ensures Join([c], ws) != []
  {
  }

  // =====================================================================
  // The Config class

  /** The run modes accepted by validate. */
  predicate NeedsCollector(mode: string)
  {
    mode == "collector" || mode == "userbot" || mode == "both"
  }

  predicate NeedsQueryBot(mode: string)
  {
    mode == "query" || mode == "both"
  }

  /** Every setting the mode needs is present. */
  predicate Complete(s: Settings, mode: string)
  {
    s.geminiApiKey != [] && s.databaseUrl != []
    && (NeedsCollector(mode) ==> s.telegramApiId != 0 && s.telegramApiHash != [] && s.feedbackGroupId != 0)
    && (NeedsQueryBot(mode) ==> s.queryBotToken != [])
  }

  /** The problems validate can report, in the order it checks them. */
  datatype Problem =
    | GeminiKeyMissing | DatabaseUrlMissing
    | ApiIdMissing | ApiHashMissing | GroupIdMissing
    | QueryTokenMissing

  function Message(p: Problem): string
  {
    match p
    case GeminiKeyMissing => "GEMINI_API_KEY is required"
    case DatabaseUrlMissing => "DATABASE_URL is required"
    case ApiIdMissing => "TELEGRAM_API_ID is required for collector mode"
    case ApiHashMissing => "TELEGRAM_API_HASH is required for collector mode"
    case GroupIdMissing => "FEEDBACK_GROUP_ID is required for collector mode"
    case QueryTokenMissing => "TELEGRAM_BOT_TOKEN_QUERY is required for query mode"
  }

  /** The ConfigError text: one bulleted line per problem. */
  function ErrorReport(errors: seq<Problem>): string
  {
    "Configuration errors:\n" + Join("\n", Bullets(errors))
  }

  function Bullets(errors: seq<Problem>): (r: seq<string>)
    ensures |r| == |errors|
  {
    if errors == [] then [] else ["  - " + Message(errors[0])] + Bullets(errors[1..])
  }

  function CommonProblems(s: Settings): seq<Problem>
  {
    (if s.geminiApiKey == [] then [GeminiKeyMissing] else [])
    + (if s.databaseUrl == [] then [DatabaseUrlMissing] else [])
  }

  function CollectorProblems(s: Settings, mode: string): seq<Problem>
  {
    if !NeedsCollector(mode) then []
    else
      (if s.telegramApiId == 0 then [ApiIdMissing] else [])
      + (if s.telegramApiHash == [] then [ApiHashMissing] else [])
      + (if s.feedbackGroupId == 0 then [GroupIdMissing] else [])
  }

  /** The problems validate reports for a mode, in the order it checks them. */
  function ProblemsFor(s: Settings, mode: string): seq<Problem>
  {
    CommonProblems(s) + CollectorProblems(s, mode)
    + (if NeedsQueryBot(mode) && s.queryBotToken == [] then [QueryTokenMissing] else [])
  }

  /** Nothing is reported exactly when the mode's settings are complete. */
  lemma ProblemsForEmpty(s: Settings, mode: string)
    ensures ProblemsFor(s, mode) == [] <==> Complete(s, mode)
  {
  }

  /** The two settings every mode needs are reported exactly when missing. */
  lemma CommonProblemsMembers(s: Settings, mode: string)
    ensures GeminiKeyMissing in ProblemsFor(s, mode) <==> s.geminiApiKey == []
    ensures DatabaseUrlMissing in ProblemsFor(s, mode) <==> s.databaseUrl == []
  {
    assert GeminiKeyMissing !in CollectorProblems(s, mode);
    assert DatabaseUrlMissing !in CollectorProblems(s, mode);
  }

  /** The Telegram settings are reported exactly when missing in a collector mode. */
  lemma CollectorProblemsMembers(s: Settings, mode: string)
    ensures ApiIdMissing in ProblemsFor(s, mode) <==> NeedsCollector(mode) && s.telegramApiId == 0
    ensures ApiHashMissing in ProblemsFor(s, mode) <==> NeedsCollector(mode) && s.telegramApiHash == []
    ensures GroupIdMissing in ProblemsFor(s, mode) <==> NeedsCollector(mode) && s.feedbackGroupId == 0
  {
    var c := CollectorProblems(s, mode);
    assert ProblemsFor(s, mode) == CommonProblems(s) + c
      + (if NeedsQueryBot(mode) && s.queryBotToken == [] then [QueryTokenMissing] else []);
  }

  /** The query token is reported exactly when missing in a query mode; at
    * most six problems are reported. */
  lemma QueryProblemsMembers(s: Settings, mode: string)
    ensures QueryTokenMissing in ProblemsFor(s, mode) <==> NeedsQueryBot(mode) && s.queryBotToken == []
    ensures |ProblemsFor(s, mode)| <= 6
  {
    assert QueryTokenMissing !in CommonProblems(s) + CollectorProblems(s, mode);
  }

  lemma CollectorProblemsSteps(s: Settings, mode: string, common: seq<Problem>,
                               afterId: seq<Problem>, afterHash: seq<Problem>, errors: seq<Problem>)
    requires NeedsCollector(mode)
    requires afterId == common + (if s.telegramApiId == 0 then [ApiIdMissing] else [])
    requires afterHash == afterId + (if s.telegramApiHash == [] then [ApiHashMissing] else [])
    requires errors == afterHash + (if s.feedbackGroupId == 0 then [GroupIdMissing] else [])
    ensures errors == common + CollectorProblems(s, mode)
  {
  }

  class Config {
    const settings: Settings
    /** ADMIN_USER_IDS: empty until load() runs. */
    var adminUserIds: seq<int>

    constructor(s: Settings)
      ensures settings == s && adminUserIds == []
    {
      settings := s;
      adminUserIds := [];
    }

    /** load(): re-reads the admin ids. */
    method Load()
      modifies this
      ensures adminUserIds == ParseAdminIds(settings.adminUserIdsText)
    {
      adminUserIds := ParseAdminIds(settings.adminUserIdsText);
    }

    /** validate(mode): reloads the admin ids, then runs the checks. */
    method Validate(mode: string) returns (errors: seq<Problem>, raised: Option<string>)
      modifies this
      ensures adminUserIds == ParseAdminIds(settings.adminUserIdsText)
      ensures errors == ProblemsFor(settings, mode)
      ensures raised.Some? <==> !Complete(settings, mode)
      ensures raised.Some? ==> raised.value == ErrorReport(errors)
    {
      Load();
      errors, raised := Check(mode);
    }

    /** The checks of validate after the reload: collects every missing
      * setting in the order of ProblemsFor and raises once (Some(report))
      * exactly when something is missing. */
    method Check(mode: string) returns (errors: seq<Problem>, raised: Option<string>)
      ensures errors == ProblemsFor(settings, mode)
      ensures raised.Some? <==> !Complete(settings, mode)
      ensures raised.Some? ==> raised.value == ErrorReport(errors)
    {
      errors := [];
      if settings.geminiApiKey == [] {
        errors := errors + [GeminiKeyMissing];
      }
      if settings.databaseUrl == [] {
        errors := errors + [DatabaseUrlMissing];
      }
      assert errors == CommonProblems(settings);
      ghost var common := errors;
      if NeedsCollector(mode) {
        if settings.telegramApiId == 0 {
          errors := errors + [ApiIdMissing];
        }
        ghost var afterId := errors;
        if settings.telegramApiHash == [] {
          errors := errors + [ApiHashMissing];
        }
        ghost var afterHash := errors;
        if settings.feedbackGroupId == 0 {
          errors := errors + [GroupIdMissing];
        }
        assert errors == afterHash + (if settings.feedbackGroupId == 0 then [GroupIdMissing] else []);
        assert afterHash == afterId + (if settings.telegramApiHash == [] then [ApiHashMissing] else []);
        assert afterId == common + (if settings.telegramApiId == 0 then [ApiIdMissing] else []);
        CollectorProblemsSteps(settings, mode, common, afterId, afterHash, errors);
      } else {
        assert errors == common + [];
      }
      ghost var beforeQuery := errors;
      if NeedsQueryBot(mode) {
        if settings.queryBotToken == [] {
          errors := errors + [QueryTokenMissing];
        }
      }
      assert errors == ProblemsFor(settings, mode);
      ProblemsForEmpty(settings, mode);
      if errors != [] {
        raised := Some(ErrorReport(errors));
      } else {
        raised := None;
      }
    }

    /** is_admin: membership in the loaded list. */
    predicate IsAdmin(userId: int)
      reads this
    {
      userId in adminUserIds
    }
  }

  /** After validate, the admins are exactly the ids listed in ADMIN_USER_IDS. */
  lemma AdminsAfterLoad(c: Config, text: string, id: int)
    requires c.adminUserIds == ParseAdminIds(text) && text != []
    requires ParseAll(NonBlankPieces(SplitOn(text, ','))).Some?
    ensures c.IsAdmin(id) <==> id in ParseAll(NonBlankPieces(SplitOn(text, ','))).value
  {
  }
}
