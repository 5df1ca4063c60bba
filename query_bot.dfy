// bots/query_bot.py: the decisions of the query bot that do not depend
// on Telegram or the language model — the fallback professor search, the
// /top limit and position labels, and the length gate for free-text
// questions. The rapidfuzz scorers are parameters.
module QueryBot {
  import opened Wrappers
  import opened Strings
  import opened JsonValues
  import opened TextProcessing
  import opened Models
  import Database
  import Validators

  // =====================================================================
  // _find_professor_partial_match

  function Max(a: real, b: real): real
  {
    if a >= b then a else b
  }

  /** max(token_set_ratio, partial_ratio) as one scorer. */
  function Combined(tokenSet: Database.Scorer, partial: Database.Scorer): Database.Scorer
  {
    (x: string, y: string) => Max(tokenSet(x, y), partial(x, y))
  }

  /** The score of a professor for the normalised query: both scorers on
    * the normalised name, the larger one. */
  function MatchScore(tokenSet: Database.Scorer, partial: Database.Scorer, q: string, p: Professor): real
  {
    var name := NormalizeProfessorName(p.name);
    Max(tokenSet(q, name), partial(q, name))
  }

  /** 75 for a one-word query, 85 otherwise. */
  function Threshold(q: string): real
  {
    if |Split(q)| == 1 then 75.0 else 85.0
  }

  /** What the search may answer for the normalised query q: the first
    * professor of highest score when that score reaches the threshold,
    * and nothing only when every score stays below it. */
  predicate PartialPick(ps: seq<Professor>, tokenSet: Database.Scorer, partial: Database.Scorer, q: string, r: Option<nat>)
  {
    match r
    case Some(i) =>
      i < |ps|
      && (forall j :: 0 <= j < |ps| ==> MatchScore(tokenSet, partial, q, ps[j]) <= MatchScore(tokenSet, partial, q, ps[i]))
      && (forall j :: 0 <= j < i ==> MatchScore(tokenSet, partial, q, ps[j]) < MatchScore(tokenSet, partial, q, ps[i]))
      && MatchScore(tokenSet, partial, q, ps[i]) >= Threshold(q)
    case None =>
      forall j :: 0 <= j < |ps| ==> MatchScore(tokenSet, partial, q, ps[j]) < Threshold(q)
  }

  /** _find_professor_partial_match: nothing for a query whose name key is
    * empty or for an empty table; otherwise the loop keeps the first
    * professor of strictly highest score, starting from 0, and answers it
    * when its score reaches the threshold. */
  method FindPartialMatch(ps: seq<Professor>, tokenSet: Database.Scorer, partial: Database.Scorer, query: string)
    returns (r: Option<nat>)
    ensures NormalizeProfessorName(query) == [] || ps == [] ==> r.None?
    ensures NormalizeProfessorName(query) != [] ==> PartialPick(ps, tokenSet, partial, NormalizeProfessorName(query), r)
  {
    var q := NormalizeProfessorName(query);
    if q == [] || ps == [] {
      return None;
    }
    var best: Option<nat> := None;
    var bestScore := 0.0;
    for i := 0 to |ps|
      invariant best.None? ==> bestScore == 0.0
      invariant best.Some? ==> best.value < i && bestScore == MatchScore(tokenSet, partial, q, ps[best.value]) && bestScore > 0.0
      invariant ScoresAtMost(ps, tokenSet, partial, q, i, bestScore)
      invariant best.Some? ==> ScoresBelow(ps, tokenSet, partial, q, best.value, bestScore)
    {
      var name := NormalizeProfessorName(ps[i].name);
      var score := Max(tokenSet(q, name), partial(q, name));
      ghost var before := bestScore;
      if score > bestScore {
        bestScore := score;
        best := Some(i);
        ScoresRaised(ps, tokenSet, partial, q, i, before, score);
      } else {
        ScoresOneMore(ps, tokenSet, partial, q, i, bestScore);
      }
    }
    r := if bestScore >= Threshold(q) then best else None;
  }

  /** The scores of the first n professors are at most v. */
  predicate ScoresAtMost(ps: seq<Professor>, tokenSet: Database.Scorer, partial: Database.Scorer, q: string, n: nat, v: real)
  {
    forall j :: 0 <= j < n && j < |ps| ==> MatchScore(tokenSet, partial, q, ps[j]) <= v
  }

  /** The scores of the first n professors are below v. */
  predicate ScoresBelow(ps: seq<Professor>, tokenSet: Database.Scorer, partial: Database.Scorer, q: string, n: nat, v: real)
  {
    forall j :: 0 <= j < n && j < |ps| ==> MatchScore(tokenSet, partial, q, ps[j]) < v
  }

  lemma ScoresOneMore(ps: seq<Professor>, tokenSet: Database.Scorer, partial: Database.Scorer, q: string, n: nat, v: real)
    requires n < |ps| && ScoresAtMost(ps, tokenSet, partial, q, n, v) && MatchScore(tokenSet, partial, q, ps[n]) <= v
    ensures ScoresAtMost(ps, tokenSet, partial, q, n + 1, v)
  {
  }

  lemma ScoresRaised(ps: seq<Professor>, tokenSet: Database.Scorer, partial: Database.Scorer, q: string, n: nat, v: real, w: real)
    requires n < |ps| && ScoresAtMost(ps, tokenSet, partial, q, n, v) && v < w && MatchScore(tokenSet, partial, q, ps[n]) == w
    ensures ScoresAtMost(ps, tokenSet, partial, q, n + 1, w) && ScoresBelow(ps, tokenSet, partial, q, n, w)
  {
  }

  /** When every row's name_normalized is the name key, the fallback
    * search answers what the store's fuzzy search would answer with the
    * combined scorer and the query's threshold. */
  lemma PartialPickIsFuzzyMatch(ps: seq<Professor>, tokenSet: Database.Scorer, partial: Database.Scorer, q: string, r: Option<nat>)
    requires Database.Keyed(ps, NormalizeProfessorName)
    requires PartialPick(ps, tokenSet, partial, q, r)
    ensures r == Database.FuzzyMatch(ps, Combined(tokenSet, partial), q, Threshold(q))
  {
    var scorer := Combined(tokenSet, partial);
    forall j | 0 <= j < |ps| ensures Database.Score(scorer, q, ps[j]) == MatchScore(tokenSet, partial, q, ps[j]) {
    }
    var m := Database.FuzzyMatch(ps, scorer, q, Threshold(q));
    match r {
      case Some(i) =>
        assert Database.FirstMax(ps, scorer, q, i);
        if m.Some? {
          Database.FirstMaxUnique(ps, scorer, q, i, m.value);
        }
      case None =>
    }
  }

  // =====================================================================
  // cmd_top

  /** The /top limit: 5 by default, min(int(argument), 10) when the first
    * argument parses, 5 when it does not. */
  function TopLimit(args: seq<string>): (limit: int)
    ensures limit <= 10
  {
    if args == [] then 5
    else
      match ParseInt(args[0])
      case None => 5
      case Some(n) => if n < 10 then n else 10
  }

  /** The limit is the argument's number when that is at most 10, and 5
    * without a readable argument. */
  lemma TopLimitSpec(args: seq<string>, n: int)
    ensures args == [] ==> TopLimit(args) == 5
    ensures args != [] && ParseInt(args[0]).None? ==> TopLimit(args) == 5
    ensures n <= 10 ==> TopLimit([IntToString(n)] + args) == n
    ensures n > 10 ==> TopLimit([IntToString(n)] + args) == 10
  {
    ParseIntOfIntToString(n);
  }

  const Medals: seq<string> := ["\U{1F947}", "\U{1F948}", "\U{1F949}"]

  /** The label of the list position i (from 0): a medal for the first
    * three, "{i+1}." after them. */
  function Label(i: nat): string
  {
    if i < 3 then Medals[i] else NatToString(i + 1) + "."
  }

  /** The labels are the three medals, then the position counted from 1
    * followed by a dot; no two positions share a label. */
  lemma LabelSpec(i: nat, j: nat)
    ensures i < 3 ==> Label(i) == Medals[i]
    ensures i >= 3 ==> (|Label(i)| >= 2 && Label(i)[|Label(i)| - 1] == '.'
                        && ParseInt(Label(i)[..|Label(i)| - 1]) == Some(i + 1))
    ensures i != j ==> Label(i) != Label(j)
  {
    if i >= 3 {
      LabelNumber(i);
    }
    if j >= 3 {
      LabelNumber(j);
    }
    if i != j {
      if i < 3 && j < 3 {
        assert Medals[i][0] != Medals[j][0];
      } else if i < 3 || j < 3 {
        var k := if i < 3 then i else j;
        assert Medals[k][|Medals[k]| - 1] != '.';
      }
    }
  }

  lemma LabelNumber(i: nat)
    requires i >= 3
    ensures |Label(i)| >= 2 && Label(i)[|Label(i)| - 1] == '.' && ParseInt(Label(i)[..|Label(i)| - 1]) == Some(i + 1)
  {
    var d := NatToString(i + 1);
    assert Label(i)[..|Label(i)| - 1] == d;
    ParseIntOfIntToString(i + 1);
    assert IntToString(i + 1) == d;
  }

  // =====================================================================
  // handle_natural_query

  const MaxQueryLength := 500

  /** A free-text message is answered only when its sanitised form has at
    * least 5 characters. */
  predicate Answered(text: string)
  {
    |Validators.SanitizeInput(text, MaxQueryLength)| >= 5
  }

  /** Messages under 5 characters are never answered, and sanitising a
    * message first does not change whether it is answered. */
  lemma AnsweredSpec(text: string)
    ensures |text| < 5 ==> !Answered(text)
    ensures Answered(Validators.SanitizeInput(text, MaxQueryLength)) <==> Answered(text)
  {
    Validators.SanitizeIdempotent(text, MaxQueryLength);
    if text != [] {
      var cut := PyPrefix(text, MaxQueryLength);
      assert |Validators.SanitizeInput(text, MaxQueryLength)| <= |cut| <= |text|;
    }
  }
}
