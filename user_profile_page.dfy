/**
 * `UserProfilePage`'s statistics tab: a user's submissions grouped by
 * problem (best score, number of attempts, solved flag), and the totals,
 * difficulty buckets and success rates computed from the groups.
 */
module UserProfilePage {
  import opened Wrappers
  import opened Dtos
  import Lists
  import JsMath

  /** One value of `problemMap`. */
  datatype ProblemStat = ProblemStat(problem: ProblemView, bestScore: int, submissionCount: nat, solved: bool)

  function Max(a: int, b: int): int {
    if a >= b then a else b
  }

  /** The keys of the entries, in entry order. */
  function StatIds(stats: seq<ProblemStat>): (ids: seq<Option<int>>)
    ensures |ids| == |stats|
    ensures forall i :: 0 <= i < |stats| ==> ids[i] == stats[i].problem.id
  {
    seq(|stats|, i requires 0 <= i < |stats| => stats[i].problem.id)
  }

  /** `submission.problem.id` of every submission, in order. */
  function ProblemIds(subs: seq<SubmissionView>): (ids: seq<Option<int>>)
    ensures |ids| == |subs|
    ensures forall i :: 0 <= i < |subs| ==> ids[i] == subs[i].problem.id
  {
    seq(|subs|, i requires 0 <= i < |subs| => subs[i].problem.id)
  }

  /** The scores of a list of submissions, in order. */
  function Scores(subs: seq<SubmissionView>): (scores: seq<int>)
    ensures |scores| == |subs|
    ensures forall i :: 0 <= i < |subs| ==> scores[i] == subs[i].score
  {
    seq(|subs|, i requires 0 <= i < |subs| => subs[i].score)
  }

  /** `problemMap.has(id)` and `problemMap.get(id)`: where the entry for `id` is. */
  function Find(stats: seq<ProblemStat>, id: Option<int>): (k: Option<nat>)
    ensures k.None? <==> id !in StatIds(stats)
    ensures k.Some? ==> k.value < |stats| && stats[k.value].problem.id == id
    decreases |stats|
  {
    if stats == [] then None
    else
      assert StatIds(stats) == [stats[0].problem.id] + StatIds(stats[1..]);
      if stats[0].problem.id == id then Some(0)
      else
        match Find(stats[1..], id)
        case None => None
        case Some(k) => Some(k + 1)
  }

  /** The entry a problem's first submission creates. */
  function FirstStat(s: SubmissionView): ProblemStat {
    ProblemStat(s.problem, s.score, 1, s.score == 100)
  }

  /** The entry after one more submission for its problem. */
  function Updated(current: ProblemStat, s: SubmissionView): ProblemStat {
    current.(bestScore := Max(current.bestScore, s.score),
             submissionCount := current.submissionCount + 1,
             solved := current.solved || s.score == 100)
  }

  /** One step of the `forEach`: create the problem's entry at the end, or update it in place. */
  function Record(stats: seq<ProblemStat>, s: SubmissionView): seq<ProblemStat> {
    match Find(stats, s.problem.id)
    case None => stats + [FirstStat(s)]
    case Some(k) => stats[k := Updated(stats[k], s)]
  }

  /** `Array.from(problemMap.values())` after the submissions were recorded in order. */
  function Stats(subs: seq<SubmissionView>): seq<ProblemStat>
    decreases |subs|
  {
    if subs == [] then [] else Record(Stats(subs[..|subs| - 1]), subs[|subs| - 1])
  }

  predicate DistinctIds(stats: seq<ProblemStat>) {
    forall i, j :: 0 <= i < j < |stats| ==> stats[i].problem.id != stats[j].problem.id
  }

  /**
   * `getSubmissionStats`: a `Map` keyed by problem id, filled by one pass
   * over the submissions; `Map` keeps its keys in insertion order.
   */
  method GetSubmissionStats(subs: seq<SubmissionView>) returns (stats: seq<ProblemStat>)
    ensures stats == Stats(subs)
  {
    var problemMap: map<Option<int>, nat> := map[];
    stats := [];
    for i := 0 to |subs|
      invariant stats == Stats(subs[..i])
      invariant DistinctIds(stats)
      invariant forall id :: id in problemMap <==> id in StatIds(stats)
      invariant forall id :: id in problemMap ==> problemMap[id] < |stats| && stats[problemMap[id]].problem.id == id
    {
      var submission := subs[i];
      var problemId := submission.problem.id;
      StatsStep(subs, i);
      var before := stats;
      if problemId !in problemMap {
        problemMap := problemMap[problemId := |stats|];
        stats := stats + [FirstStat(submission)];
        RecordIds(before, submission);
        NewIdKeepsDistinct(before, FirstStat(submission));
      } else {
        var k := problemMap[problemId];
        FindDistinct(before, problemId, k);
        stats := stats[k := Updated(stats[k], submission)];
        RecordIds(before, submission);
        UpdateKeepsDistinct(before, k, Updated(before[k], submission));
      }
    }
    assert subs[..|subs|] == subs;
  }

  /** The stats of one more submission are the stats so far with that submission recorded. */
  lemma StatsStep(subs: seq<SubmissionView>, i: nat)
    requires i < |subs|
    ensures Stats(subs[..i + 1]) == Record(Stats(subs[..i]), subs[i])
  {
    assert subs[..i + 1][..i] == subs[..i];
  }

  /** With distinct ids, the entry holding an id is the one found. */
  lemma FindDistinct(stats: seq<ProblemStat>, id: Option<int>, k: nat)
    requires DistinctIds(stats) && k < |stats| && stats[k].problem.id == id
    ensures Find(stats, id) == Some(k)
  {
    assert StatIds(stats)[k] == id;
  }

  lemma NewIdKeepsDistinct(stats: seq<ProblemStat>, e: ProblemStat)
    requires DistinctIds(stats) && e.problem.id !in StatIds(stats)
    ensures DistinctIds(stats + [e])
  {
    forall i | 0 <= i < |stats|
      ensures stats[i].problem.id != e.problem.id
    {
      assert StatIds(stats)[i] == stats[i].problem.id;
    }
  }

  lemma UpdateKeepsDistinct(stats: seq<ProblemStat>, k: nat, e: ProblemStat)
    requires DistinctIds(stats) && k < |stats| && e.problem.id == stats[k].problem.id
    ensures DistinctIds(stats[k := e])
  {
  }

  /** The entries have distinct problem ids, and a problem has an entry exactly when some submission is for it. */
  lemma {:induction false} StatsKeys(subs: seq<SubmissionView>)
    ensures DistinctIds(Stats(subs))
    ensures forall id :: id in StatIds(Stats(subs)) <==> id in ProblemIds(subs)
    decreases |subs|
  {
    if subs != [] {
      var prefix, s := subs[..|subs| - 1], subs[|subs| - 1];
      StatsKeys(prefix);
      assert subs == prefix + [s];
      assert ProblemIds(subs) == ProblemIds(prefix) + [s.problem.id];
      var st := Stats(prefix);
      assert Stats(subs) == Record(st, s);
      RecordIds(st, s);
      match Find(st, s.problem.id)
      case None =>
        NewIdKeepsDistinct(st, FirstStat(s));
      case Some(k) =>
        UpdateKeepsDistinct(st, k, Updated(st[k], s));
    }
  }

  /** The test `submission.problem.id === id`. */
  function OfProblem(id: Option<int>): SubmissionView -> bool {
    (s: SubmissionView) => s.problem.id == id
  }

  /** A problem's submissions, in order. */
  function Attempts(subs: seq<SubmissionView>, id: Option<int>): seq<SubmissionView> {
    Lists.Filter(subs, OfProblem(id))
  }

  /** The highest score among some submissions. */
  function MaxScore(subs: seq<SubmissionView>): (m: int)
    requires subs != []
    ensures forall i :: 0 <= i < |subs| ==> subs[i].score <= m
    ensures m in Scores(subs)
    decreases |subs|
  {
    if |subs| == 1 then subs[0].score
    else
      var prefix := subs[..|subs| - 1];
      var m := MaxScore(prefix);
      assert Scores(subs) == Scores(prefix) + [subs[|subs| - 1].score];
      Max(m, subs[|subs| - 1].score)
  }

  /** Position of a problem's first submission. */
  function FirstAt(subs: seq<SubmissionView>, id: Option<int>): (k: nat)
    requires id in ProblemIds(subs)
    ensures k < |subs| && subs[k].problem.id == id
    ensures forall j :: 0 <= j < k ==> subs[j].problem.id != id
    decreases |subs|
  {
    if subs[0].problem.id == id then 0
    else
      assert id in ProblemIds(subs[1..]) by {
        var k :| 0 <= k < |subs| && ProblemIds(subs)[k] == id;
        assert ProblemIds(subs[1..])[k - 1] == id;
      }
      FirstAt(subs[1..], id) + 1
  }

  /**
   * What an entry should hold, stated against the submissions directly: the
   * problem object of the problem's first submission, the highest score,
   * the number of submissions, and whether any scored exactly 100.
   */
  predicate Summarises(subs: seq<SubmissionView>, e: ProblemStat) {
    e.problem.id in ProblemIds(subs)
    && SummaryOf(e, subs[FirstAt(subs, e.problem.id)].problem, Attempts(subs, e.problem.id))
  }

  /** An entry for the problem object `first` and the submissions `attempts`. */
  predicate SummaryOf(e: ProblemStat, first: ProblemView, attempts: seq<SubmissionView>) {
    attempts != []
    && e.problem == first
    && e.bestScore == MaxScore(attempts)
    && e.submissionCount == |attempts|
    && (e.solved <==> 100 in Scores(attempts))
  }

  lemma {:induction false} AttemptsSnoc(prefix: seq<SubmissionView>, s: SubmissionView, id: Option<int>)
    ensures Attempts(prefix + [s], id) == Attempts(prefix, id) + (if s.problem.id == id then [s] else [])
  {
    Lists.FilterAppend(prefix, [s], OfProblem(id));
    assert Lists.Filter([s], OfProblem(id)) == (if s.problem.id == id then [s] else []) + Lists.Filter([], OfProblem(id));
  }

  lemma {:induction false} FirstAtSnoc(prefix: seq<SubmissionView>, s: SubmissionView, id: Option<int>)
    requires id in ProblemIds(prefix)
    ensures ProblemIds(prefix + [s]) == ProblemIds(prefix) + [s.problem.id]
    ensures FirstAt(prefix + [s], id) == FirstAt(prefix, id)
  {
    assert ProblemIds(prefix + [s]) == ProblemIds(prefix) + [s.problem.id];
    var k := FirstAt(prefix, id);
    var k' := FirstAt(prefix + [s], id);
    assert (prefix + [s])[k] == prefix[k];
  }

  lemma {:induction false} FirstAtNew(prefix: seq<SubmissionView>, s: SubmissionView)
    requires s.problem.id !in ProblemIds(prefix)
    ensures ProblemIds(prefix + [s]) == ProblemIds(prefix) + [s.problem.id]
    ensures s.problem.id in ProblemIds(prefix + [s])
    ensures FirstAt(prefix + [s], s.problem.id) == |prefix|
  {
    var subs := prefix + [s];
    assert ProblemIds(subs) == ProblemIds(prefix) + [s.problem.id];
    assert forall j :: 0 <= j < |prefix| ==> subs[j].problem.id == ProblemIds(prefix)[j] != s.problem.id;
  }

  /** An entry for another problem than the new submission's keeps summarising. */
  lemma {:induction false} SummaryOfOtherProblem(prefix: seq<SubmissionView>, s: SubmissionView, e: ProblemStat)
    requires Summarises(prefix, e) && e.problem.id != s.problem.id
    ensures Summarises(prefix + [s], e)
  {
    var id := e.problem.id;
    AttemptsSnoc(prefix, s, id);
    assert Attempts(prefix + [s], id) == Attempts(prefix, id);
    FirstProblemSnoc(prefix, s, id);
  }

  /** One more submission leaves a problem's first submission where it was. */
  lemma FirstProblemSnoc(prefix: seq<SubmissionView>, s: SubmissionView, id: Option<int>)
    requires id in ProblemIds(prefix)
    ensures id in ProblemIds(prefix + [s])
    ensures (prefix + [s])[FirstAt(prefix + [s], id)].problem == prefix[FirstAt(prefix, id)].problem
  {
    FirstAtSnoc(prefix, s, id);
    assert (prefix + [s])[FirstAt(prefix, id)] == prefix[FirstAt(prefix, id)];
  }

  /** Updating the entry of the new submission's problem keeps it summarising. */
  lemma {:induction false} SummaryOfUpdated(prefix: seq<SubmissionView>, s: SubmissionView, e: ProblemStat)
    requires Summarises(prefix, e) && e.problem.id == s.problem.id
    ensures Summarises(prefix + [s], Updated(e, s))
  {
    var id := e.problem.id;
    AttemptsSnoc(prefix, s, id);
    assert Attempts(prefix + [s], id) == Attempts(prefix, id) + [s];
    FirstProblemSnoc(prefix, s, id);
    UpdatedSummary(e, prefix[FirstAt(prefix, id)].problem, Attempts(prefix, id), s);
  }

  /** The updated entry summarises the attempts with the new submission added. */
  lemma UpdatedSummary(e: ProblemStat, first: ProblemView, attempts: seq<SubmissionView>, s: SubmissionView)
    requires SummaryOf(e, first, attempts)
    ensures SummaryOf(Updated(e, s), first, attempts + [s])
  {
    var grown := attempts + [s];
    assert grown[..|grown| - 1] == attempts;
    assert Scores(grown) == Scores(attempts) + [s.score];
  }

  /** A problem no submission is for has no attempts. */
  lemma {:induction false} NoAttempts(subs: seq<SubmissionView>, id: Option<int>)
    requires id !in ProblemIds(subs)
    ensures Attempts(subs, id) == []
  {
    forall i | 0 <= i < |subs|
      ensures !OfProblem(id)(subs[i])
    {
      assert ProblemIds(subs)[i] == subs[i].problem.id;
    }
    Lists.FilterDropsAll(subs, OfProblem(id));
  }

  lemma {:induction false} SingleAttempt(s: SubmissionView)
    ensures MaxScore([s]) == s.score
    ensures Scores([s]) == [s.score]
  {
  }

  /** The entry a problem's first submission creates summarises it. */
  lemma {:induction false} SummaryOfFirst(prefix: seq<SubmissionView>, s: SubmissionView)
    requires s.problem.id !in ProblemIds(prefix)
    ensures Summarises(prefix + [s], FirstStat(s))
  {
    var id := s.problem.id;
    AttemptsSnoc(prefix, s, id);
    NoAttempts(prefix, id);
    FirstAtNew(prefix, s);
    SingleAttempt(s);
    assert (prefix + [s])[|prefix|] == s;
  }

  /**
   * Every entry of `getSubmissionStats` summarises its problem's submissions:
   * it keeps the problem object first seen, the best score, the number of
   * submissions, and whether any of them scored 100.
   */
  lemma {:induction false} StatsSummarise(subs: seq<SubmissionView>)
    ensures forall i :: 0 <= i < |Stats(subs)| ==> Summarises(subs, Stats(subs)[i])
    decreases |subs|
  {
    if subs != [] {
      var prefix, s := subs[..|subs| - 1], subs[|subs| - 1];
      assert subs == prefix + [s];
      StatsSummarise(prefix);
      StatsKeys(prefix);
      assert Stats(subs) == Record(Stats(prefix), s);
      RecordSummarises(prefix, s, Stats(prefix));
    }
  }

  /** Recording one more submission keeps every entry summarising its problem. */
  lemma RecordSummarises(prefix: seq<SubmissionView>, s: SubmissionView, st: seq<ProblemStat>)
    requires forall i :: 0 <= i < |st| ==> Summarises(prefix, st[i])
    requires DistinctIds(st) && KeysAreProblems(prefix, st)
    ensures forall i :: 0 <= i < |Record(st, s)| ==> Summarises(prefix + [s], Record(st, s)[i])
  {
    var next := Record(st, s);
    forall i | 0 <= i < |next|
      ensures Summarises(prefix + [s], next[i])
    {
      match Find(st, s.problem.id)
      case None =>
        if i < |st| {
          assert next[i] == st[i];
          assert StatIds(st)[i] == st[i].problem.id;
          SummaryOfOtherProblem(prefix, s, st[i]);
        } else {
          assert next[i] == FirstStat(s);
          SummaryOfFirst(prefix, s);
        }
      case Some(k) =>
        if i == k {
          assert next[i] == Updated(st[k], s);
          SummaryOfUpdated(prefix, s, st[k]);
        } else {
          assert next[i] == st[i];
          SummaryOfOtherProblem(prefix, s, st[i]);
        }
    }
  }

  /** Each entry's problem has a submission, and entries come in the order of their problems' first submissions. */
  predicate InFirstSeenOrder(subs: seq<SubmissionView>, stats: seq<ProblemStat>) {
    forall i, j :: 0 <= i < j < |stats| ==> SeenBefore(subs, stats[i].problem.id, stats[j].problem.id)
  }

  /** Both problems have a submission, and `a`'s first one comes before `b`'s. */
  predicate SeenBefore(subs: seq<SubmissionView>, a: Option<int>, b: Option<int>) {
    a in ProblemIds(subs) && b in ProblemIds(subs) && FirstAt(subs, a) < FirstAt(subs, b)
  }

  /** Entries appear in the order of their problems' first submissions. */
  lemma {:induction false} StatsInFirstSeenOrder(subs: seq<SubmissionView>)
    ensures InFirstSeenOrder(subs, Stats(subs))
    decreases |subs|
  {
    if subs != [] {
      var prefix, s := subs[..|subs| - 1], subs[|subs| - 1];
      StatsInFirstSeenOrder(prefix);
      StatsKeys(prefix);
      assert subs == prefix + [s];
      RecordKeepsOrder(prefix, s, Stats(prefix));
    }
  }

  /** A problem has an entry exactly when some submission is for it. */
  ghost predicate KeysAreProblems(subs: seq<SubmissionView>, stats: seq<ProblemStat>) {
    forall id :: id in StatIds(stats) <==> id in ProblemIds(subs)
  }

  /** Recording one more submission keeps the entries in first-seen order. */
  lemma RecordKeepsOrder(prefix: seq<SubmissionView>, s: SubmissionView, st: seq<ProblemStat>)
    requires InFirstSeenOrder(prefix, st) && KeysAreProblems(prefix, st)
    ensures InFirstSeenOrder(prefix + [s], Record(st, s))
  {
    var next := Record(st, s);
    RecordIds(st, s);
    forall i, j | 0 <= i < j < |next|
      ensures SeenBefore(prefix + [s], next[i].problem.id, next[j].problem.id)
    {
      assert next[i].problem.id == StatIds(next)[i] == StatIds(st)[i] == st[i].problem.id;
      if j < |st| {
        assert next[j].problem.id == StatIds(next)[j] == StatIds(st)[j] == st[j].problem.id;
        OldPairKeepsOrder(prefix, s, st[i].problem.id, st[j].problem.id);
      } else {
        assert Find(st, s.problem.id).None? && j == |st|;
        assert st[i].problem.id in StatIds(st);
        assert next[j].problem.id == StatIds(next)[j] == s.problem.id && s.problem.id !in StatIds(st);
        NewEntryComesLast(prefix, s, st[i].problem.id);
      }
    }
    assert InFirstSeenOrder(prefix + [s], next);
  }

  /** Recording a submission adds its problem's key at the end, or keeps the keys. */
  lemma RecordIds(st: seq<ProblemStat>, s: SubmissionView)
    ensures Find(st, s.problem.id).None? ==> StatIds(Record(st, s)) == StatIds(st) + [s.problem.id]
    ensures Find(st, s.problem.id).Some? ==> StatIds(Record(st, s)) == StatIds(st)
  {
  }

  /** Two problems seen before the new submission keep the order of their first submissions. */
  lemma OldPairKeepsOrder(prefix: seq<SubmissionView>, s: SubmissionView, a: Option<int>, b: Option<int>)
    requires SeenBefore(prefix, a, b)
    ensures SeenBefore(prefix + [s], a, b)
  {
    FirstAtSnoc(prefix, s, a);
    FirstAtSnoc(prefix, s, b);
  }

  /** A problem first seen in the new submission comes after every problem seen before. */
  lemma NewEntryComesLast(prefix: seq<SubmissionView>, s: SubmissionView, a: Option<int>)
    requires a in ProblemIds(prefix) && s.problem.id !in ProblemIds(prefix)
    ensures SeenBefore(prefix + [s], a, s.problem.id)
  {
    FirstAtSnoc(prefix, s, a);
    FirstAtNew(prefix, s);
  }

  /** The sum of the attempt counts. */
  function SumCounts(stats: seq<ProblemStat>): nat
    decreases |stats|
  {
    if stats == [] then 0 else SumCounts(stats[..|stats| - 1]) + stats[|stats| - 1].submissionCount
  }

  lemma {:induction false} SumCountsUpdate(stats: seq<ProblemStat>, k: nat, e: ProblemStat)
    requires k < |stats|
    ensures SumCounts(stats[k := e]) == SumCounts(stats) - stats[k].submissionCount + e.submissionCount
    decreases |stats|
  {
    var n := |stats|;
    if k < n - 1 {
      assert stats[k := e][..n - 1] == stats[..n - 1][k := e];
      SumCountsUpdate(stats[..n - 1], k, e);
    } else {
      assert stats[k := e][..n - 1] == stats[..n - 1];
    }
  }

  /** Every submission is counted once: the attempt counts add up to the number of submissions. */
  lemma {:induction false} CountsAddUp(subs: seq<SubmissionView>)
    ensures SumCounts(Stats(subs)) == |subs|
    decreases |subs|
  {
    if subs != [] {
      var prefix, s := subs[..|subs| - 1], subs[|subs| - 1];
      CountsAddUp(prefix);
      var st := Stats(prefix);
      match Find(st, s.problem.id)
      case None =>
        assert (st + [FirstStat(s)])[..|st|] == st;
      case Some(k) =>
        SumCountsUpdate(st, k, Updated(st[k], s));
    }
  }

  /** The cards above the table: `calculateStats()`. */
  datatype Summary = Summary(
    totalProblems: nat,
    solvedProblems: nat,
    easyProblems: nat,
    mediumProblems: nat,
    hardProblems: nat,
    solveRate: int)

  function IsSolved(): ProblemStat -> bool {
    (e: ProblemStat) => e.solved
  }

  /** `s.problem.difficulty === d`: an exact, case-sensitive comparison. */
  function HasDifficulty(d: string): ProblemStat -> bool {
    (e: ProblemStat) => e.problem.difficulty == d
  }

  function SolvedWithDifficulty(d: string): ProblemStat -> bool {
    (e: ProblemStat) => e.problem.difficulty == d && e.solved
  }

  /**
   * `Math.round(part / whole * 100)` for a positive whole; both callers
   * test the whole before dividing.
   */
  function Percent(part: nat, whole: nat): (r: int)
    requires part <= whole && whole > 0
    ensures r == JsMath.RoundRatio(100 * part, whole)
    ensures 0 <= r <= 100
  {
    JsMath.RoundedPercentInRange(part, whole);
    JsMath.RoundRatio(100 * part, whole)
  }

  /**
   * `calculateStats`: the number of attempted problems, the solved ones,
   * the attempted ones per difficulty, and the rounded solve rate, which is
   * 0 when nothing was attempted.
   */
  function CalculateStats(subs: seq<SubmissionView>): (r: Summary)
    ensures r.totalProblems == |Stats(subs)|
    ensures r.solvedProblems == |Lists.Positions(Stats(subs), IsSolved())|
    ensures r.easyProblems == |Lists.Positions(Stats(subs), HasDifficulty("easy"))|
    ensures r.mediumProblems == |Lists.Positions(Stats(subs), HasDifficulty("medium"))|
    ensures r.hardProblems == |Lists.Positions(Stats(subs), HasDifficulty("hard"))|
    ensures r.solvedProblems <= r.totalProblems
    ensures r.easyProblems + r.mediumProblems + r.hardProblems <= r.totalProblems
    ensures 0 <= r.solveRate <= 100
    ensures r.totalProblems == 0 ==> r.solveRate == 0
    ensures r.totalProblems > 0 ==> r.solveRate == JsMath.RoundRatio(100 * r.solvedProblems, r.totalProblems)
  {
    var stats := Stats(subs);
    var total := |stats|;
    var solved := |Lists.Filter(stats, IsSolved())|;
    var easy := |Lists.Filter(stats, HasDifficulty("easy"))|;
    var medium := |Lists.Filter(stats, HasDifficulty("medium"))|;
    var hard := |Lists.Filter(stats, HasDifficulty("hard"))|;
    Lists.ExclusiveCounts(stats, HasDifficulty("easy"), HasDifficulty("medium"));
    ThreeBucketsAtMostTotal(stats);
    Lists.FilterCountsPositions(stats, IsSolved());
    Lists.FilterCountsPositions(stats, HasDifficulty("easy"));
    Lists.FilterCountsPositions(stats, HasDifficulty("medium"));
    Lists.FilterCountsPositions(stats, HasDifficulty("hard"));
    Summary(total, solved, easy, medium, hard, if total > 0 then Percent(solved, total) else 0)
  }

  /** Problems of three distinct difficulties are counted apart. */
  lemma {:induction false} ThreeBucketsAtMostTotal(stats: seq<ProblemStat>)
    ensures |Lists.Filter(stats, HasDifficulty("easy"))| + |Lists.Filter(stats, HasDifficulty("medium"))|
      + |Lists.Filter(stats, HasDifficulty("hard"))| <= |stats|
    decreases |stats|
  {
    if stats != [] {
      ThreeBucketsAtMostTotal(stats[1..]);
    }
  }

  /** When every difficulty is exactly "easy", "medium" or "hard", the three buckets add up to the total. */
  lemma {:induction false} ThreeBucketsFillTotal(stats: seq<ProblemStat>)
    requires forall i :: 0 <= i < |stats| ==> stats[i].problem.difficulty in {"easy", "medium", "hard"}
    ensures |Lists.Filter(stats, HasDifficulty("easy"))| + |Lists.Filter(stats, HasDifficulty("medium"))|
      + |Lists.Filter(stats, HasDifficulty("hard"))| == |stats|
    decreases |stats|
  {
    if stats != [] {
      ThreeBucketsFillTotal(stats[1..]);
    }
  }

  /** The bucket counts of `calculateStats` add up to the attempted problems when every difficulty is one of the three. */
  lemma {:induction false} BucketsFillTotal(subs: seq<SubmissionView>)
    requires forall i :: 0 <= i < |Stats(subs)| ==> Stats(subs)[i].problem.difficulty in {"easy", "medium", "hard"}
    ensures CalculateStats(subs).easyProblems + CalculateStats(subs).mediumProblems + CalculateStats(subs).hardProblems
      == CalculateStats(subs).totalProblems
  {
    ThreeBucketsFillTotal(Stats(subs));
  }

  /** The attempted problems are the distinct problem ids of the submissions; none means no submissions. */
  lemma {:induction false} TotalIsDistinctProblems(subs: seq<SubmissionView>)
    ensures CalculateStats(subs).totalProblems == |StatIds(Stats(subs))|
    ensures forall id :: id in StatIds(Stats(subs)) <==> id in ProblemIds(subs)
    ensures CalculateStats(subs).totalProblems == 0 <==> subs == []
  {
    StatsKeys(subs);
    if subs != [] {
      assert ProblemIds(subs)[0] in ProblemIds(subs);
    }
  }

  /**
   * A difficulty row's success-rate cell: "N/A" (None) when no problem of
   * that difficulty was attempted, otherwise the rounded share of them
   * that was solved.
   */
  function TierRate(stats: seq<ProblemStat>, d: string): (r: Option<int>)
    ensures r.None? <==> Lists.Filter(stats, HasDifficulty(d)) == []
    ensures r.Some? ==> 0 <= r.value <= 100
    ensures r.Some? ==> r.value == JsMath.RoundRatio(100 * |Lists.Filter(stats, SolvedWithDifficulty(d))|, |Lists.Filter(stats, HasDifficulty(d))|)
  {
    var attempted := |Lists.Filter(stats, HasDifficulty(d))|;
    var solved := |Lists.Filter(stats, SolvedWithDifficulty(d))|;
    Lists.FilterStricterIsShorter(stats, SolvedWithDifficulty(d), HasDifficulty(d));
    if attempted > 0 then Some(Percent(solved, attempted)) else None
  }
}
