/**
 * The launcher's query handler: multi-word fuzzy scoring on top of an
 * external single-pattern matcher, project scoring, and the two result
 * modes — the flat project list, and the drill-down `project!mr` form that
 * lists the merge requests of the single best-matching project.
 *
 * The external matcher (the launcher library's fuzzy scorer) and the usage
 * history's score are parameters of the model; nothing is assumed about
 * them beyond their types.
 */
module Query {
  import opened Text
  import opened Store

  /**
   * What the fuzzy scorer returns: a score, matched positions and a start
   * position (-1 for none). The scorer's int32 score and the history's int32
   * usage score are `int`s here, taken as the external code returns them;
   * the model wraps only the arithmetic this handler does on them.
   */
  datatype Match = Match(score: int, positions: seq<int>, start: int)

  /** The external fuzzy scorer: pattern, target, exact mode. */
  type Matcher = (string, string, bool) -> Match

  /** The history's usage score of an identifier for a query. */
  type Usage = (string, string) -> int

  /** The ranking context: the scorer, the history and whether history is enabled. */
  datatype Ranker = Ranker(fuzzy: Matcher, usage: Usage, history: bool)

  // ---------------------------------------------------------------------
  // Multi-word scoring
  // ---------------------------------------------------------------------

  /**
   * The repeat bonus of one query word: every non-overlapping,
   * case-insensitive occurrence after the first adds half the word's base
   * score, halved toward zero; the count is taken as an int32.
   */
  function Bonus(score: int, target: string, word: string): int {
    var k := Wrap32(Count(Lower(target), Lower(word)));
    if k > 1 then (k - 1) * TruncHalf(score) else 0
  }

  /** Sum of the base scores of `words`. */
  function BaseTotal(m: Matcher, words: seq<string>, target: string, exact: bool): int {
    if words == [] then 0
    else BaseTotal(m, words[..|words| - 1], target, exact) + m(words[|words| - 1], target, exact).score
  }

  /** Sum of the base scores and repeat bonuses of `words`, without int32 wrap-around. */
  function RawTotal(m: Matcher, words: seq<string>, target: string, exact: bool): int {
    if words == [] then 0
    else
      var w := words[|words| - 1];
      var s := m(w, target, exact).score;
      RawTotal(m, words[..|words| - 1], target, exact) + s + Bonus(s, target, w)
  }

  /** The matched positions of every word, word after word. */
  function AllPositions(m: Matcher, words: seq<string>, target: string, exact: bool): seq<int> {
    if words == [] then []
    else AllPositions(m, words[..|words| - 1], target, exact) + m(words[|words| - 1], target, exact).positions
  }

  /** The start position of every word, word after word. */
  function Starts(m: Matcher, words: seq<string>, target: string, exact: bool): (r: seq<int>)
    ensures |r| == |words|
  {
    if words == [] then []
    else Starts(m, words[..|words| - 1], target, exact) + [m(words[|words| - 1], target, exact).start]
  }

  /** One step of the start selection: take `s` while nothing non-negative is held, or when it is a smaller non-negative start. */
  function StartStep(held: int, s: int): int {
    if held < 0 || (s >= 0 && s < held) then s else held
  }

  /** The start selection over all words, beginning from -1. */
  function CombinedStart(starts: seq<int>): int {
    if starts == [] then -1
    else StartStep(CombinedStart(starts[..|starts| - 1]), starts[|starts| - 1])
  }

  /** Some start of `starts` is non-negative. */
  predicate AnyFound(starts: seq<int>) {
    exists i :: 0 <= i < |starts| && starts[i] >= 0
  }

  /**
   * The combined start is the least non-negative start when there is one,
   * and otherwise the last word's start (or -1 with no words).
   */
  lemma {:induction false} CombinedStartIsLeastFound(starts: seq<int>)
    ensures AnyFound(starts) ==>
              CombinedStart(starts) in starts && CombinedStart(starts) >= 0
              && forall i :: 0 <= i < |starts| && starts[i] >= 0 ==> CombinedStart(starts) <= starts[i]
    ensures !AnyFound(starts) ==>
              CombinedStart(starts) == if starts == [] then -1 else starts[|starts| - 1]
    decreases |starts|
  {
    if starts != [] {
      var init := starts[..|starts| - 1];
      var last := starts[|starts| - 1];
      CombinedStartIsLeastFound(init);
      assert starts == init + [last];
      if AnyFound(init) {
        var i :| 0 <= i < |init| && init[i] >= 0;
        assert starts[i] == init[i];
      }
      if AnyFound(starts) && !AnyFound(init) {
        assert last >= 0 by {
          var i :| 0 <= i < |starts| && starts[i] >= 0;
          if i < |init| {
            assert init[i] == starts[i];
          }
        }
      }
      if !AnyFound(starts) {
        assert last < 0;
      }
      if AnyFound(starts) {
        forall i | 0 <= i < |starts| && starts[i] >= 0
          ensures CombinedStart(starts) <= starts[i]
        {
          if i < |init| {
            assert init[i] == starts[i];
          }
        }
      }
    }
  }

  /**
   * The score of `query` against `target`: the scorer itself for a query of
   * at most one word; otherwise the int32 sum of every word's base score
   * and repeat bonus, the ascending sort of all words' positions, and the
   * combined start.
   */
  function MultiWord(m: Matcher, query: string, target: string, exact: bool): Match {
    var words := Fields(query);
    if |words| <= 1 then m(query, target, exact)
    else Match(Wrap32(RawTotal(m, words, target, exact)),
               SortAscending(AllPositions(m, words, target, exact)),
               CombinedStart(Starts(m, words, target, exact)))
  }

  /** The word-by-word scoring loop. */
  method MultiWordFuzzyScore(m: Matcher, query: string, target: string, exact: bool)
    returns (score: int, positions: seq<int>, start: int)
    ensures Match(score, positions, start) == MultiWord(m, query, target, exact)
  {
    var words := Fields(query);
    if |words| <= 1 {
      var r := m(query, target, exact);
      return r.score, r.positions, r.start;
    }
    var total := 0;
    var all: seq<int> := [];
    var minStart := -1;
    var lowerTarget := Lower(target);
    for i := 0 to |words|
      invariant total == Wrap32(RawTotal(m, words[..i], target, exact))
      invariant all == AllPositions(m, words[..i], target, exact)
      invariant minStart == CombinedStart(Starts(m, words[..i], target, exact))
    {
      total, all, minStart := ScoreWord(m, words, i, target, lowerTarget, exact, total, all, minStart);
    }
    assert words[..|words|] == words;
    score, positions, start := total, SortAscending(all), minStart;
  }

  /** One iteration of the scoring loop: the `i`-th word's score, bonus, positions and start. */
  method ScoreWord(m: Matcher, words: seq<string>, i: int, target: string, lowerTarget: string, exact: bool,
                   total: int, all: seq<int>, minStart: int)
    returns (total': int, all': seq<int>, minStart': int)
    requires 0 <= i < |words| && lowerTarget == Lower(target)
    requires total == Wrap32(RawTotal(m, words[..i], target, exact))
    requires all == AllPositions(m, words[..i], target, exact)
    requires minStart == CombinedStart(Starts(m, words[..i], target, exact))
    ensures total' == Wrap32(RawTotal(m, words[..i + 1], target, exact))
    ensures all' == AllPositions(m, words[..i + 1], target, exact)
    ensures minStart' == CombinedStart(Starts(m, words[..i + 1], target, exact))
  {
    var word := words[i];
    var r := m(word, target, exact);
    PrefixStep(m, words, i, target, exact);
    TotalStep(total, RawTotal(m, words[..i], target, exact), r.score, target, word);
    total' := Wrap32(total + r.score);
    all' := all + r.positions;
    minStart' := minStart;
    if minStart < 0 || (r.start >= 0 && r.start < minStart) {
      minStart' := r.start;
    }
    var occurrences := Wrap32(Count(lowerTarget, Lower(word)));
    if occurrences > 1 {
      total' := Wrap32(total' + Wrap32((occurrences - 1) * TruncHalf(r.score)));
    }
  }

  /** One word's contribution to the int32 running total, as the loop adds it, is its base score and bonus wrapped once. */
  lemma TotalStep(total: int, before: int, score: int, target: string, word: string)
    requires total == Wrap32(before)
    ensures var k := Wrap32(Count(Lower(target), Lower(word)));
            var t := Wrap32(total + score);
            (if k > 1 then Wrap32(t + Wrap32((k - 1) * TruncHalf(score))) else t)
            == Wrap32(before + score + Bonus(score, target, word))
  {
    var k := Wrap32(Count(Lower(target), Lower(word)));
    var b := Bonus(score, target, word);
    Wrap32Absorbs(before, score);
    Wrap32Absorbs(b, Wrap32(before + score));
    Wrap32Absorbs(before + score, b);
  }

  /** Extending the word prefix by one word extends every accumulated quantity by that word's share. */
  lemma PrefixStep(m: Matcher, words: seq<string>, i: int, target: string, exact: bool)
    requires 0 <= i < |words|
    ensures var w := words[i];
            var s := m(w, target, exact);
            && RawTotal(m, words[..i + 1], target, exact)
               == RawTotal(m, words[..i], target, exact) + s.score + Bonus(s.score, target, w)
            && AllPositions(m, words[..i + 1], target, exact) == AllPositions(m, words[..i], target, exact) + s.positions
            && CombinedStart(Starts(m, words[..i + 1], target, exact))
               == StartStep(CombinedStart(Starts(m, words[..i], target, exact)), s.start)
  {
    assert words[..i + 1][..i] == words[..i];
    var st := Starts(m, words[..i + 1], target, exact);
    assert st[..|st| - 1] == Starts(m, words[..i], target, exact);
  }

  /** A word's repeat bonus is never negative when its base score is not, and is positive exactly when the word recurs and its base score is at least 2. */
  lemma BonusSign(score: int, target: string, word: string)
    requires score >= 0
    ensures Bonus(score, target, word) >= 0
    ensures Bonus(score, target, word) > 0 <==> score >= 2 && Wrap32(Count(Lower(target), Lower(word))) > 1
  {
  }

  /**
   * For a non-empty word and a target shorter than 2^31 characters, the
   * repeat bonus is positive exactly when the base score is at least 2 and
   * the word occurs twice, without overlap, in the lower-cased target.
   */
  lemma BonusOccursTwice(score: int, target: string, word: string)
    requires score >= 0 && |word| > 0 && |target| < TwoTo31
    ensures Bonus(score, target, word) > 0 <==> score >= 2 && OccursTwice(Lower(target), Lower(word))
  {
    BonusSign(score, target, word);
    CountBelowLength(Lower(target), Lower(word));
    CountAtLeastTwo(Lower(target), Lower(word));
  }

  /** With non-negative base scores the bonuses only add: the raw total is at least the sum of the base scores. */
  lemma {:induction false} RawTotalAtLeastBase(m: Matcher, words: seq<string>, target: string, exact: bool)
    requires forall i :: 0 <= i < |words| ==> m(words[i], target, exact).score >= 0
    ensures RawTotal(m, words, target, exact) >= BaseTotal(m, words, target, exact)
    decreases |words|
  {
    if words != [] {
      var w := words[|words| - 1];
      BonusSign(m(w, target, exact).score, target, w);
      RawTotalAtLeastBase(m, words[..|words| - 1], target, exact);
    }
  }

  /**
   * For a query of two or more words whose scores do not overflow an int32,
   * the score is at least the sum of the base scores, the positions are the
   * sorted multiset union of every word's positions (duplicates kept) and
   * the start is the least start found.
   */
  lemma MultiWordShape(m: Matcher, query: string, target: string, exact: bool)
    requires |Fields(query)| >= 2
    ensures var r := MultiWord(m, query, target, exact);
            var words := Fields(query);
            && IsSorted(r.positions)
            && multiset(r.positions) == multiset(AllPositions(m, words, target, exact))
            && ((forall i :: 0 <= i < |words| ==> m(words[i], target, exact).score >= 0)
                && InInt32(RawTotal(m, words, target, exact))
                ==> r.score >= BaseTotal(m, words, target, exact))
            && (AnyFound(Starts(m, words, target, exact)) ==> r.start >= 0)
  {
    var words := Fields(query);
    if (forall i :: 0 <= i < |words| ==> m(words[i], target, exact).score >= 0) {
      RawTotalAtLeastBase(m, words, target, exact);
    }
    CombinedStartIsLeastFound(Starts(m, words, target, exact));
  }

  /**
   * A query in which no white space separates two words goes to the scorer
   * untouched, surrounding blanks included.
   */
  lemma SingleWordDelegates(m: Matcher, query: string, target: string, exact: bool)
    requires !TwoRuns(query)
    ensures MultiWord(m, query, target, exact) == m(query, target, exact)
  {
    FieldsAtMostOne(query);
  }

  // ---------------------------------------------------------------------
  // Project scoring and selection
  // ---------------------------------------------------------------------

  /** A project's score: its path's score plus twice its name's score, in int32. */
  function ScoreProject(m: Matcher, q: string, p: ProjectRow, exact: bool): (s: int)
    ensures var path := MultiWord(m, q, p.pathWithNamespace, exact).score;
            var name := MultiWord(m, q, p.name, exact).score;
            && s == Wrap32(path + 2 * name)
            && (InInt32(path + 2 * name) ==> s == path + 2 * name)
  {
    var path := MultiWord(m, q, p.pathWithNamespace, exact).score;
    var name := MultiWord(m, q, p.name, exact).score;
    DoubledThenAdded(path, name);
    Wrap32(path + Wrap32(name * 2))
  }

  /** The int32 `path + name*2` wraps once, as if the sum were computed exactly. */
  lemma DoubledThenAdded(path: int, name: int)
    ensures Wrap32(path + Wrap32(name * 2)) == Wrap32(path + 2 * name)
  {
    Wrap32Absorbs(2 * name, path);
    assert Wrap32(name * 2) + path == path + Wrap32(name * 2);
  }

  /**
   * The name is worth twice the path: without overflow, a project whose
   * name scores `d` higher than another's outranks it unless its path
   * scores at least `2d` lower.
   */
  lemma NameCountsTwice(m: Matcher, q: string, a: ProjectRow, b: ProjectRow, exact: bool)
    requires var pa := MultiWord(m, q, a.pathWithNamespace, exact).score;
             var pb := MultiWord(m, q, b.pathWithNamespace, exact).score;
             var na := MultiWord(m, q, a.name, exact).score;
             var nb := MultiWord(m, q, b.name, exact).score;
             InInt32(pa + 2 * na) && InInt32(pb + 2 * nb) && pb - pa < 2 * (na - nb)
    ensures ScoreProject(m, q, a, exact) > ScoreProject(m, q, b, exact)
  {
  }

  function ProjectScores(m: Matcher, q: string, exact: bool, projects: seq<ProjectRow>): (r: seq<int>)
    ensures |r| == |projects|
    ensures forall k :: 0 <= k < |projects| ==> r[k] == ScoreProject(m, q, projects[k], exact)
  {
    seq(|projects|, k requires 0 <= k < |projects| => ScoreProject(m, q, projects[k], exact))
  }

  /** The position of the earliest greatest score. */
  function BestIndex(scores: seq<int>): (r: nat)
    requires |scores| > 0
    ensures r < |scores|
    ensures forall j :: 0 <= j < |scores| ==> scores[j] <= scores[r]
    ensures forall j :: 0 <= j < r ==> scores[j] < scores[r]
  {
    if |scores| == 1 then 0
    else
      var b := BestIndex(scores[..|scores| - 1]);
      if scores[|scores| - 1] > scores[b] then |scores| - 1 else b
  }

  /** The drill-down project: the first candidate for an empty filter, else the earliest best-scoring one. */
  function BestProject(m: Matcher, q: string, exact: bool, projects: seq<ProjectRow>): ProjectRow
    requires |projects| > 0
  {
    if q == "" then projects[0] else projects[BestIndex(ProjectScores(m, q, exact, projects))]
  }

  /** No candidate scores above the drill-down project. */
  lemma BestProjectScoresHighest(m: Matcher, q: string, exact: bool, projects: seq<ProjectRow>)
    requires |projects| > 0 && q != ""
    ensures forall p :: p in projects ==> ScoreProject(m, q, p, exact) <= ScoreProject(m, q, BestProject(m, q, exact, projects), exact)
  {
    var scores := ProjectScores(m, q, exact, projects);
    var b := BestIndex(scores);
    forall p | p in projects
      ensures ScoreProject(m, q, p, exact) <= ScoreProject(m, q, projects[b], exact)
    {
      var j :| 0 <= j < |projects| && projects[j] == p;
      assert scores[j] <= scores[b];
    }
  }

  /** Extending the candidates by one: the held index changes only for a strictly greater score. */
  lemma BestIndexStep(scores: seq<int>, i: int)
    requires 0 < i < |scores|
    ensures var b := BestIndex(scores[..i]);
            BestIndex(scores[..i + 1]) == if scores[i] > scores[b] then i else b
  {
    assert scores[..i + 1][..i] == scores[..i];
  }

  /** The selection loop: a later candidate replaces the held one only with a strictly greater score. */
  method SelectBest(m: Matcher, q: string, exact: bool, projects: seq<ProjectRow>) returns (best: ProjectRow)
    requires |projects| > 0
    ensures best == BestProject(m, q, exact, projects)
    ensures q != "" ==> forall p :: p in projects ==> ScoreProject(m, q, p, exact) <= ScoreProject(m, q, best, exact)
  {
    best := projects[0];
    if q != "" {
      ghost var scores := ProjectScores(m, q, exact, projects);
      ghost var bestIndex := 0;
      var bestScore := ScoreProject(m, q, best, exact);
      for i := 1 to |projects|
        invariant bestIndex == BestIndex(scores[..i])
        invariant best == projects[bestIndex] && bestScore == scores[bestIndex]
      {
        var p := projects[i];
        var s := ScoreProject(m, q, p, exact);
        assert s == scores[i];
        BestIndexStep(scores, i);
        if s > bestScore {
          bestScore := s;
          best := p;
          bestIndex := i;
        }
      }
      assert scores[..|projects|] == scores;
      BestProjectScoresHighest(m, q, exact, projects);
    }
  }

  // ---------------------------------------------------------------------
  // Entries
  // ---------------------------------------------------------------------

  datatype FuzzyInfo = FuzzyInfo(start: int, field: string, positions: seq<int>)

  /** One result row handed to the launcher; `marked` is the history state marker. */
  datatype Entry = Entry(
    identifier: string,
    text: string,
    subtext: string,
    actions: seq<string>,
    score: int,
    fuzzy: Option<FuzzyInfo>,
    marked: bool)

  const Actions: seq<string> := ["open", "copy_url"]

  const ProjectPrefix: string := "project:"
  const MergeRequestPrefix: string := "mr:"

  function ProjectIdentifier(id: int): string {
    ProjectPrefix + Decimal(id)
  }

  function MergeRequestIdentifier(id: int): string {
    MergeRequestPrefix + Decimal(id)
  }

  /** With history on, the usage score is added and the entry marked exactly when it is non-zero. */
  function WithHistory(r: Ranker, query: string, e: Entry): (h: Entry)
    requires !e.marked
    ensures h.identifier == e.identifier && h.fuzzy == e.fuzzy && h.text == e.text && h.subtext == e.subtext
    ensures h.marked <==> r.history && r.usage(query, e.identifier) != 0
    ensures h.score == if r.history then Wrap32(e.score + r.usage(query, e.identifier)) else e.score
  {
    if r.history then
      var u := r.usage(query, e.identifier);
      e.(score := Wrap32(e.score + u), marked := u != 0)
    else e
  }

  /** The flat-mode entry of the `k`-th project of the read. */
  function ProjectEntry(r: Ranker, query: string, exact: bool, p: ProjectRow, k: int): Entry {
    var base := Entry(ProjectIdentifier(p.id), p.name, p.pathWithNamespace, Actions, Wrap32(1000 - k), None, false);
    var scored :=
      if query == "" then base
      else
        base.(score := ScoreProject(r.fuzzy, query, p, exact), fuzzy := Some(ProjectFuzzy(r.fuzzy, query, exact, p)));
    WithHistory(r, query, scored)
  }

  /** The highlighted field of a project entry: the name when it scores no lower than the path, else the path. */
  function ProjectFuzzy(m: Matcher, query: string, exact: bool, p: ProjectRow): FuzzyInfo {
    var ns := MultiWord(m, query, p.pathWithNamespace, exact);
    var name := MultiWord(m, query, p.name, exact);
    if name.score >= ns.score then FuzzyInfo(name.start, "text", name.positions)
    else FuzzyInfo(ns.start, "subtext", ns.positions)
  }

  /** `f` applied to every element together with its position. */
  function MapIndexed<T, U>(xs: seq<T>, f: (T, int) -> U): (ys: seq<U>)
    ensures |ys| == |xs|
    ensures forall k :: 0 <= k < |xs| ==> ys[k] == f(xs[k], k)
  {
    seq(|xs|, k requires 0 <= k < |xs| => f(xs[k], k))
  }

  /** Mapping one more element appends its image. */
  lemma MapIndexedStep<T, U>(xs: seq<T>, f: (T, int) -> U, k: int)
    requires 0 <= k < |xs|
    ensures MapIndexed(xs[..k + 1], f) == MapIndexed(xs[..k], f) + [f(xs[k], k)]
  {
    var a := MapIndexed(xs[..k + 1], f);
    var b := MapIndexed(xs[..k], f) + [f(xs[k], k)];
    forall j | 0 <= j < |a| ensures a[j] == b[j] {
      assert xs[..k + 1][j] == xs[j];
    }
  }

  function FlatEntries(r: Ranker, query: string, exact: bool, rows: seq<ProjectRow>): (es: seq<Entry>)
    ensures |es| == |rows|
    ensures forall k :: 0 <= k < |rows| ==> es[k] == ProjectEntry(r, query, exact, rows[k], k)
  {
    MapIndexed(rows, (p, k) => ProjectEntry(r, query, exact, p, k))
  }

  /** The drill-down entry of a merge request; the history is asked with the whole query. */
  function MergeRequestEntry(r: Ranker, query: string, mrQuery: string, exact: bool, mr: MergeRequestRow): Entry {
    var subtext := "!" + Decimal(mr.iid) + " \U{B7} " + mr.projectPath + " \U{B7} " + mr.role;
    var base := Entry(MergeRequestIdentifier(mr.id), mr.title, subtext, Actions, 0, None, false);
    var scored :=
      if mrQuery == "" then base
      else
        var t := MultiWord(r.fuzzy, mrQuery, mr.title, exact);
        base.(score := t.score, fuzzy := Some(FuzzyInfo(t.start, "text", t.positions)));
    WithHistory(r, query, scored)
  }

  function DrillDownEntries(r: Ranker, query: string, mrQuery: string, exact: bool, mrs: seq<MergeRequestRow>)
    : (es: seq<Entry>)
    ensures |es| == |mrs|
    ensures forall k :: 0 <= k < |mrs| ==> es[k] == MergeRequestEntry(r, query, mrQuery, exact, mrs[k])
  {
    MapIndexed(mrs, (mr, k) => MergeRequestEntry(r, query, mrQuery, exact, mr))
  }

  /** The body of the flat-mode loop: the entry of the `k`-th project row. */
  method MakeProjectEntry(r: Ranker, query: string, exact: bool, p: ProjectRow, k: int) returns (entry: Entry)
    ensures entry == ProjectEntry(r, query, exact, p, k)
  {
    var identifier := ProjectIdentifier(p.id);
    entry := Entry(identifier, p.name, p.pathWithNamespace, Actions, Wrap32(1000 - k), None, false);
    if query != "" {
      var info := PickProjectFuzzy(r.fuzzy, query, exact, p);
      entry := entry.(score := ScoreProject(r.fuzzy, query, p, exact), fuzzy := Some(info));
    }
    entry := AddUsage(r, query, entry);
  }

  /** Scores the query against the path and the name, and keeps the better one's match. */
  method PickProjectFuzzy(m: Matcher, query: string, exact: bool, p: ProjectRow) returns (info: FuzzyInfo)
    ensures info == ProjectFuzzy(m, query, exact, p)
  {
    var scoreNs, posNs, startNs := MultiWordFuzzyScore(m, query, p.pathWithNamespace, exact);
    var scoreName, posName, startName := MultiWordFuzzyScore(m, query, p.name, exact);
    if scoreName >= scoreNs {
      info := FuzzyInfo(startName, "text", posName);
    } else {
      info := FuzzyInfo(startNs, "subtext", posNs);
    }
  }

  /** The history step of both modes: add the usage score and mark the entry when it is non-zero. */
  method AddUsage(r: Ranker, query: string, e: Entry) returns (h: Entry)
    requires !e.marked
    ensures h == WithHistory(r, query, e)
  {
    h := e;
    if r.history {
      var usageScore := r.usage(query, e.identifier);
      if usageScore != 0 {
        h := h.(marked := true);
      }
      h := h.(score := Wrap32(h.score + usageScore));
    }
  }

  /** The flat-mode loop over the project rows. */
  method BuildProjectEntries(r: Ranker, query: string, exact: bool, rows: seq<ProjectRow>)
    returns (entries: seq<Entry>)
    ensures entries == FlatEntries(r, query, exact, rows)
  {
    entries := [];
    for k := 0 to |rows|
      invariant entries == FlatEntries(r, query, exact, rows[..k])
    {
      var entry := MakeProjectEntry(r, query, exact, rows[k], k);
      FlatEntriesStep(r, query, exact, rows, k);
      entries := entries + [entry];
    }
    assert rows[..|rows|] == rows;
  }

  /** The flat entries of one more row are those before it plus the row's own entry. */
  lemma FlatEntriesStep(r: Ranker, query: string, exact: bool, rows: seq<ProjectRow>, k: int)
    requires 0 <= k < |rows|
    ensures FlatEntries(r, query, exact, rows[..k + 1])
            == FlatEntries(r, query, exact, rows[..k]) + [ProjectEntry(r, query, exact, rows[k], k)]
  {
    MapIndexedStep(rows, (p, k) => ProjectEntry(r, query, exact, p, k), k);
  }

  /** The drill-down loop over the merge-request rows. */
  method BuildMergeRequestEntries(r: Ranker, query: string, mrQuery: string, exact: bool, mrs: seq<MergeRequestRow>)
    returns (entries: seq<Entry>)
    ensures entries == DrillDownEntries(r, query, mrQuery, exact, mrs)
  {
    entries := [];
    for k := 0 to |mrs|
      invariant entries == DrillDownEntries(r, query, mrQuery, exact, mrs[..k])
    {
      var entry := MakeMergeRequestEntry(r, query, mrQuery, exact, mrs[k]);
      DrillDownEntriesStep(r, query, mrQuery, exact, mrs, k);
      entries := entries + [entry];
    }
    assert mrs[..|mrs|] == mrs;
  }

  /** The body of the drill-down loop: the entry of one merge-request row. */
  method MakeMergeRequestEntry(r: Ranker, query: string, mrQuery: string, exact: bool, mr: MergeRequestRow)
    returns (entry: Entry)
    ensures entry == MergeRequestEntry(r, query, mrQuery, exact, mr)
  {
    var identifier := MergeRequestIdentifier(mr.id);
    var subtext := "!" + Decimal(mr.iid) + " \U{B7} " + mr.projectPath + " \U{B7} " + mr.role;
    entry := Entry(identifier, mr.title, subtext, Actions, 0, None, false);
    if mrQuery != "" {
      var score, pos, start := MultiWordFuzzyScore(r.fuzzy, mrQuery, mr.title, exact);
      entry := entry.(score := score, fuzzy := Some(FuzzyInfo(start, "text", pos)));
    }
    entry := AddUsage(r, query, entry);
  }

  /** The drill-down entries of one more row are those before it plus the row's own entry. */
  lemma DrillDownEntriesStep(r: Ranker, query: string, mrQuery: string, exact: bool, mrs: seq<MergeRequestRow>, k: int)
    requires 0 <= k < |mrs|
    ensures DrillDownEntries(r, query, mrQuery, exact, mrs[..k + 1])
            == DrillDownEntries(r, query, mrQuery, exact, mrs[..k]) + [MergeRequestEntry(r, query, mrQuery, exact, mrs[k])]
  {
    MapIndexedStep(mrs, (mr, k) => MergeRequestEntry(r, query, mrQuery, exact, mr), k);
  }

  /** Without a filter and without history, the flat list keeps the read's order with scores 1000, 999, …. */
  lemma FlatScoresFollowRecency(r: Ranker, exact: bool, rows: seq<ProjectRow>)
    requires !r.history && |rows| <= 1000
    ensures forall k :: 0 <= k < |rows| ==> FlatEntries(r, "", exact, rows)[k].score == 1000 - k
    ensures forall i, j :: 0 <= i < j < |rows| ==>
              FlatEntries(r, "", exact, rows)[i].score > FlatEntries(r, "", exact, rows)[j].score
  {
  }

  /** Every flat-mode entry is a project entry naming its row's id; the fuzzy field is the name's exactly when it scores no lower than the path. */
  lemma FlatEntriesAreProjects(r: Ranker, query: string, exact: bool, rows: seq<ProjectRow>)
    ensures forall k :: 0 <= k < |rows| ==>
              var e := FlatEntries(r, query, exact, rows)[k];
              && e.identifier == ProjectIdentifier(rows[k].id)
              && e.text == rows[k].name
              && (query == "" <==> e.fuzzy.None?)
              && (e.marked <==> r.history && r.usage(query, e.identifier) != 0)
  {
  }

  /** Every flat-mode identifier carries the project prefix. */
  lemma FlatEntriesArePrefixed(r: Ranker, query: string, exact: bool, rows: seq<ProjectRow>)
    ensures forall e :: e in FlatEntries(r, query, exact, rows) ==> HasPrefix(e.identifier, ProjectPrefix)
  {
    var es := FlatEntries(r, query, exact, rows);
    forall e | e in es
      ensures HasPrefix(e.identifier, ProjectPrefix)
    {
      var k :| 0 <= k < |es| && es[k] == e;
      assert e.identifier == ProjectPrefix + Decimal(rows[k].id);
    }
  }

  // ---------------------------------------------------------------------
  // Query
  // ---------------------------------------------------------------------

  /** The filter before the first `!`, and the rest after it. */
  function SplitAtBang(query: string): (parts: (string, string))
    requires '!' in query
    ensures '!' !in parts.0
    ensures query == parts.0 + "!" + parts.1
  {
    var idx := IndexOf(query, '!');
    assert query == query[..idx] + "!" + query[idx + 1..];
    (query[..idx], query[idx + 1..])
  }

  /** The project filter before a `!` never contains `!`, so later `!` stay in the merge-request filter. */
  lemma SplitKeepsLaterBangs(pq: string, mq: string)
    requires '!' !in pq
    ensures SplitAtBang(pq + "!" + mq) == (pq, mq)
  {
    var q := pq + "!" + mq;
    var i := IndexOf(q, '!');
    forall j | 0 <= j < |pq|
      ensures q[j] != '!'
    {
      assert q[j] == pq[j];
    }
    assert q[|pq|] == '!';
    assert i == |pq|;
    assert q[..i] == pq;
    assert q[i + 1..] == mq;
  }

  /** The flat mode: the project read, one entry per row. */
  method QueryFlat(store: Store, r: Ranker, query: string, exact: bool, readFails: bool)
    returns (entries: seq<Entry>)
    requires store.Valid()
    ensures readFails ==> entries == []
    ensures !readFails ==> exists rows ::
              && NewestFirst(store.projects, ProjectFilter(query), ActivityOf, Limit(query), rows)
              && entries == FlatEntries(r, query, exact, rows)
    ensures forall e :: e in entries ==> HasPrefix(e.identifier, ProjectPrefix)
  {
    var rows := store.QueryProjects(query, readFails);
    entries := BuildProjectEntries(r, query, exact, rows);
    FlatEntriesArePrefixed(r, query, exact, rows);
  }

  /** The drill-down mode: the best project of the filter before `!`, then its merge requests. */
  method QueryDrillDown(store: Store, r: Ranker, query: string, exact: bool,
                        projectsReadFails: bool, mergeRequestsReadFails: bool)
    returns (entries: seq<Entry>)
    requires store.Valid()
    requires '!' in query
    ensures var (pq, mq) := SplitAtBang(query);
            && (projectsReadFails ==> entries == [])
            && (!projectsReadFails ==> exists rows ::
                  && NewestFirst(store.projects, ProjectFilter(pq), ActivityOf, Limit(pq), rows)
                  && (rows == [] || mergeRequestsReadFails ==> entries == [])
                  && (rows != [] && !mergeRequestsReadFails ==> exists mrs ::
                        && NewestFirst(store.mergeRequests,
                                       DrillDownFilter([BestProject(r.fuzzy, pq, exact, rows).pathWithNamespace], mq),
                                       CreatedOf, Limit(mq), mrs)
                        && entries == DrillDownEntries(r, query, mq, exact, mrs)))
  {
    var idx := IndexOf(query, '!');
    var projectQuery := query[..idx];
    var mrQuery := query[idx + 1..];
    assert SplitAtBang(query) == (projectQuery, mrQuery);
    var projects := store.QueryProjects(projectQuery, projectsReadFails);
    if |projects| == 0 {
      return [];
    }
    var best := SelectBest(r.fuzzy, projectQuery, exact, projects);
    var paths := [best.pathWithNamespace];
    var mrs := store.QueryMergeRequestsForProjects(paths, mrQuery, mergeRequestsReadFails);
    entries := BuildMergeRequestEntries(r, query, mrQuery, exact, mrs);
    if mergeRequestsReadFails {
      assert entries == [];
    }
  }

  /**
   * The query handler: nothing without a store, the drill-down mode when
   * the query holds a `!`, else the flat project list — which never holds
   * a merge request.
   */
  method Query(store: Store?, r: Ranker, query: string, exact: bool,
               projectsReadFails: bool, mergeRequestsReadFails: bool)
    returns (entries: seq<Entry>)
    requires store != null ==> store.Valid()
    ensures store == null ==> entries == []
    ensures store != null && '!' !in query ==>
              (projectsReadFails ==> entries == [])
              && (!projectsReadFails ==> exists rows ::
                    && NewestFirst(store.projects, ProjectFilter(query), ActivityOf, Limit(query), rows)
                    && entries == FlatEntries(r, query, exact, rows))
    ensures store != null && '!' !in query ==>
              forall e :: e in entries ==> HasPrefix(e.identifier, ProjectPrefix)
    ensures store != null && '!' in query ==>
              var (pq, mq) := SplitAtBang(query);
              && (projectsReadFails ==> entries == [])
              && (!projectsReadFails ==> exists rows ::
                    && NewestFirst(store.projects, ProjectFilter(pq), ActivityOf, Limit(pq), rows)
                    && (rows == [] || mergeRequestsReadFails ==> entries == [])
                    && (rows != [] && !mergeRequestsReadFails ==> exists mrs ::
                          && NewestFirst(store.mergeRequests,
                                         DrillDownFilter([BestProject(r.fuzzy, pq, exact, rows).pathWithNamespace], mq),
                                         CreatedOf, Limit(mq), mrs)
                          && entries == DrillDownEntries(r, query, mq, exact, mrs)))
  {
    if store == null {
      return [];
    }
    if '!' in query {
      entries := QueryDrillDown(store, r, query, exact, projectsReadFails, mergeRequestsReadFails);
      return;
    }
    entries := QueryFlat(store, r, query, exact, projectsReadFails);
  }
}
