/**
 * `HomeworkService`: the grading views of a homework (each student's best
 * submission per problem, counted up to the deadline, and their total) and
 * the maintenance of the problem-to-homework links the service keeps by hand.
 *
 * The link between problems and homeworks is a many-to-many relation whose
 * owning side is each problem's `homeworks` list; the homework's `problems`
 * list is the inverse side. The service edits both and must keep them in step.
 */
module HomeworkService {
  import opened Wrappers
  import opened Model
  import SubmissionRepository

  // ---------------------------------------------------------------------------
  // Best submission per problem
  // ---------------------------------------------------------------------------

  /**
   * The merge function's test: `candidate` replaces `existing` when it scored
   * more, or scored the same and was submitted strictly later.
   */
  predicate Beats(candidate: Submission, existing: Submission) {
    candidate.score > existing.score
    || (candidate.score == existing.score && candidate.submittedAt > existing.submittedAt)
  }

  /** `best.merge(s.getProblem().getId(), s, resolver)` for one row. */
  function MergeBest(best: map<int, Submission>, s: Submission): map<int, Submission> {
    if s.problemId in best && !Beats(s, best[s.problemId]) then best
    else best[s.problemId := s]
  }

  /** The map the merge loop builds from the rows `subs`, visited in order. */
  function BestByProblem(subs: seq<Submission>): (best: map<int, Submission>)
    ensures forall s :: s in subs ==> s.problemId in best
    ensures forall p :: p in best ==> best[p] in subs && best[p].problemId == p
    decreases |subs|
  {
    if subs == [] then map[]
    else
      var prefix := subs[..|subs| - 1];
      assert subs == prefix + [subs[|subs| - 1]];
      MergeBest(BestByProblem(prefix), subs[|subs| - 1])
  }

  /**
   * `subs[j]` is the row kept for problem `p`: it beats every earlier row for
   * `p`, and no later row for `p` beats it.
   */
  ghost predicate KeptAt(subs: seq<Submission>, p: int, j: int) {
    0 <= j < |subs| && subs[j].problemId == p
    && (forall i :: 0 <= i < j && subs[i].problemId == p ==> Beats(subs[j], subs[i]))
    && (forall i :: j < i < |subs| && subs[i].problemId == p ==> !Beats(subs[i], subs[j]))
  }

  lemma KeptAtPastOtherProblem(prefix: seq<Submission>, last: Submission, p: int, j: int)
    requires KeptAt(prefix, p, j) && last.problemId != p
    ensures KeptAt(prefix + [last], p, j)
  {
    var subs := prefix + [last];
    forall i | 0 <= i < |prefix| ensures subs[i] == prefix[i] { }
  }

  lemma KeptAtPastWeakerRow(prefix: seq<Submission>, last: Submission, p: int, j: int)
    requires KeptAt(prefix, p, j) && !Beats(last, prefix[j])
    ensures KeptAt(prefix + [last], p, j)
  {
    var subs := prefix + [last];
    forall i | 0 <= i < |prefix| ensures subs[i] == prefix[i] { }
  }

  lemma KeptAtLast(prefix: seq<Submission>, last: Submission)
    requires forall i :: 0 <= i < |prefix| && prefix[i].problemId == last.problemId ==> Beats(last, prefix[i])
    ensures KeptAt(prefix + [last], last.problemId, |prefix|)
  {
    var subs := prefix + [last];
    forall i | 0 <= i < |prefix| ensures subs[i] == prefix[i] { }
  }

  /** A row that beats the kept row beats every row for its problem. */
  lemma BeatsKeptBeatsAll(subs: seq<Submission>, p: int, j: int, c: Submission)
    requires KeptAt(subs, p, j) && Beats(c, subs[j])
    ensures forall i :: 0 <= i < |subs| && subs[i].problemId == p ==> Beats(c, subs[i])
  {
    forall i | 0 <= i < |subs| && subs[i].problemId == p ensures Beats(c, subs[i]) {
      if i < j {
        assert Beats(subs[j], subs[i]);
      } else if i > j {
        assert !Beats(subs[i], subs[j]);
      }
    }
  }

  /** The kept row is the first row, in visiting order, that no other row for its problem beats. */
  lemma {:induction false} BestIsFirstUnbeaten(subs: seq<Submission>, p: int)
    ensures p in BestByProblem(subs) ==> exists j :: KeptAt(subs, p, j) && subs[j] == BestByProblem(subs)[p]
    decreases |subs|
  {
    if subs != [] {
      var n := |subs|;
      var prefix := subs[..n - 1];
      var last := subs[n - 1];
      assert subs == prefix + [last];
      BestIsFirstUnbeaten(prefix, p);
      var before := BestByProblem(prefix);
      assert BestByProblem(subs) == MergeBest(before, last);
      if last.problemId != p {
        if p in before {
          var j :| KeptAt(prefix, p, j) && prefix[j] == before[p];
          KeptAtPastOtherProblem(prefix, last, p, j);
        }
      } else if p !in before {
        forall i | 0 <= i < |prefix| ensures prefix[i].problemId != p {
          assert prefix[i] in prefix;
        }
        KeptAtLast(prefix, last);
      } else {
        var j :| KeptAt(prefix, p, j) && prefix[j] == before[p];
        if Beats(last, before[p]) {
          BeatsKeptBeatsAll(prefix, p, j, last);
          KeptAtLast(prefix, last);
        } else {
          KeptAtPastWeakerRow(prefix, last, p, j);
        }
      }
    }
  }

  /**
   * What the merge promises: the kept row for a problem has the highest score
   * among its rows, and among rows with that score the latest timestamp.
   */
  lemma BestHasTopScoreThenLatest(subs: seq<Submission>, s: Submission)
    requires s in subs
    ensures s.problemId in BestByProblem(subs)
    ensures var b := BestByProblem(subs)[s.problemId];
      s.score <= b.score && (s.score == b.score ==> s.submittedAt <= b.submittedAt)
  {
    var p := s.problemId;
    BestIsFirstUnbeaten(subs, p);
    var j :| KeptAt(subs, p, j) && subs[j] == BestByProblem(subs)[p];
    var k :| 0 <= k < |subs| && subs[k] == s;
    if k < j {
      assert Beats(subs[j], subs[k]);
    } else if k > j {
      assert !Beats(subs[k], subs[j]);
    }
  }

  /** The map after one more row is the map so far with that row merged in. */
  lemma BestStep(subs: seq<Submission>, i: nat)
    requires i < |subs|
    ensures BestByProblem(subs[..i + 1]) == MergeBest(BestByProblem(subs[..i]), subs[i])
  {
    assert subs[..i + 1][..i] == subs[..i];
  }

  /** The loop of `getStatusOfStudentHomework` that fills `bestSubmissions`. */
  method FindBestSubmissions(subs: seq<Submission>) returns (best: map<int, Submission>)
    ensures best == BestByProblem(subs)
  {
    best := map[];
    for i := 0 to |subs|
      invariant best == BestByProblem(subs[..i])
    {
      var s := subs[i];
      BestStep(subs, i);
      if s.problemId in best {
        var existing := best[s.problemId];
        if s.score > existing.score {
          best := best[s.problemId := s];
        } else if s.score == existing.score && s.submittedAt > existing.submittedAt {
          best := best[s.problemId := s];
        }
      } else {
        best := best[s.problemId := s];
      }
    }
    assert subs[..|subs|] == subs;
  }

  /** `map.getOrDefault(userId, Collections.emptyMap())`. */
  function BestOf(byUser: map<int, map<int, Submission>>, userId: int): map<int, Submission> {
    if userId in byUser then byUser[userId] else map[]
  }

  /** `computeIfAbsent(userId, new HashMap).merge(...)` for one row. */
  function MergeByUser(byUser: map<int, map<int, Submission>>, s: Submission): map<int, map<int, Submission>> {
    byUser[s.userId := MergeBest(BestOf(byUser, s.userId), s)]
  }

  /** The nested map the roster view builds, visiting `subs` in order. */
  function BestByUserAndProblem(subs: seq<Submission>): map<int, map<int, Submission>>
    decreases |subs|
  {
    if subs == [] then map[]
    else MergeByUser(BestByUserAndProblem(subs[..|subs| - 1]), subs[|subs| - 1])
  }

  /** Grouping by user first gives each user the map the single-student merge builds from their rows alone. */
  lemma {:induction false} GroupingByUserIsPerUserBest(subs: seq<Submission>, userId: int)
    ensures BestOf(BestByUserAndProblem(subs), userId)
         == BestByProblem(SubmissionRepository.OfUser(subs, userId))
    decreases |subs|
  {
    if subs != [] {
      var prefix := subs[..|subs| - 1];
      var last := subs[|subs| - 1];
      GroupingByUserIsPerUserBest(prefix, userId);
      var grouped := BestByUserAndProblem(prefix);
      assert BestByUserAndProblem(subs) == MergeByUser(grouped, last);
      var mine := SubmissionRepository.OfUser(prefix, userId);
      if last.userId == userId {
        assert SubmissionRepository.OfUser(subs, userId) == mine + [last];
        assert (mine + [last])[..|mine|] == mine;
        assert BestByProblem(mine + [last]) == MergeBest(BestByProblem(mine), last);
      } else {
        assert SubmissionRepository.OfUser(subs, userId) == mine;
      }
    }
  }

  /** The loop of `getStatusOfStudentsHomework` that fills the nested map. */
  method GroupBestSubmissions(subs: seq<Submission>) returns (byUser: map<int, map<int, Submission>>)
    ensures byUser == BestByUserAndProblem(subs)
  {
    byUser := map[];
    for i := 0 to |subs|
      invariant byUser == BestByUserAndProblem(subs[..i])
    {
      assert subs[..i + 1][..i] == subs[..i];
      var s := subs[i];
      if s.userId !in byUser {
        byUser := byUser[s.userId := map[]];
      }
      var mine := byUser[s.userId];
      if s.problemId in mine {
        var existing := mine[s.problemId];
        if s.score > existing.score
          || (s.score == existing.score && s.submittedAt > existing.submittedAt) {
          mine := mine[s.problemId := s];
        }
      } else {
        mine := mine[s.problemId := s];
      }
      byUser := byUser[s.userId := mine];
    }
    assert subs[..|subs|] == subs;
  }

  // ---------------------------------------------------------------------------
  // Totals
  // ---------------------------------------------------------------------------

  /** The best rows, in the homework's problem order, for the problems that have one. */
  function Chosen(problemIds: seq<int>, best: map<int, Submission>): (chosen: seq<Submission>)
    ensures |chosen| <= |problemIds|
    decreases |problemIds|
  {
    if problemIds == [] then []
    else Chosen(problemIds[..|problemIds| - 1], best) + ChosenFor(problemIds[|problemIds| - 1], best)
  }

  function ChosenFor(p: int, best: map<int, Submission>): seq<Submission> {
    if p in best then [best[p]] else []
  }

  /** The listed rows are exactly the best rows of the homework's problems that have one. */
  lemma {:induction false} ChosenMembers(problemIds: seq<int>, best: map<int, Submission>)
    ensures forall p :: p in problemIds && p in best ==> best[p] in Chosen(problemIds, best)
    ensures forall s :: s in Chosen(problemIds, best) ==> exists p :: p in problemIds && p in best && best[p] == s
    ensures Chosen(problemIds, best) == [] <==> forall p :: p in problemIds ==> p !in best
    decreases |problemIds|
  {
    if problemIds != [] {
      var prefix := problemIds[..|problemIds| - 1];
      var q := problemIds[|problemIds| - 1];
      assert problemIds == prefix + [q];
      ChosenMembers(prefix, best);
      var chosen := Chosen(prefix, best) + ChosenFor(q, best);
      assert Chosen(problemIds, best) == chosen;
      assert forall s :: s in chosen <==> s in Chosen(prefix, best) || (q in best && s == best[q]);
      assert forall p :: p in problemIds <==> p in prefix || p == q;
    }
  }

  /** The sum of the scores of `ss`. */
  function SumScores(ss: seq<Submission>): int
    decreases |ss|
  {
    if ss == [] then 0 else SumScores(ss[..|ss| - 1]) + ss[|ss| - 1].score
  }

  /** Every score lies in the range the evaluators produce. */
  predicate ScoresInRange(ss: seq<Submission>) {
    forall s :: s in ss ==> 0 <= s.score <= 100
  }

  lemma {:induction false} SumScoresBounded(ss: seq<Submission>)
    requires ScoresInRange(ss)
    ensures 0 <= SumScores(ss) <= 100 * |ss|
    decreases |ss|
  {
    if ss != [] {
      assert ss[..|ss| - 1] + [ss[|ss| - 1]] == ss;
      SumScoresBounded(ss[..|ss| - 1]);
    }
  }

  /** The totals loop: the chosen rows and the sum of their scores. */
  method CollectBest(problemIds: seq<int>, best: map<int, Submission>) returns (total: int, chosen: seq<Submission>)
    ensures chosen == Chosen(problemIds, best)
    ensures total == SumScores(chosen)
  {
    total := 0;
    chosen := [];
    for i := 0 to |problemIds|
      invariant chosen == Chosen(problemIds[..i], best)
      invariant total == SumScores(chosen)
    {
      assert problemIds[..i + 1][..i] == problemIds[..i];
      var p := problemIds[i];
      assert Chosen(problemIds[..i + 1], best) == chosen + ChosenFor(p, best);
      if p in best {
        assert (chosen + [best[p]])[..|chosen|] == chosen;
        total := total + best[p].score;
        chosen := chosen + [best[p]];
      } else {
        assert chosen + [] == chosen;
      }
    }
    assert problemIds[..|problemIds|] == problemIds;
  }

  /** A student's line in either view. */
  datatype HomeworkStatus = HomeworkStatus(studentId: int, submissions: seq<Submission>, totalScore: int)

  function StatusFrom(studentId: int, problemIds: seq<int>, best: map<int, Submission>): HomeworkStatus {
    var chosen := Chosen(problemIds, best);
    HomeworkStatus(studentId, chosen, SumScores(chosen))
  }

  /** The rows a student's status is computed from. */
  function CountedRows(subs: seq<Submission>, studentId: int, hw: Homework): seq<Submission> {
    SubmissionRepository.FindByUserIdsAndProblemIdsAndDeadline(subs, [studentId], hw.problems, hw.deadline)
  }

  /**
   * With scores in 0..100 a homework total lies between 0 and 100 per problem,
   * and at most one row per problem is listed.
   */
  lemma TotalIsBounded(subs: seq<Submission>, studentId: int, hw: Homework)
    requires ScoresInRange(subs)
    ensures var st := StatusFrom(studentId, hw.problems, BestByProblem(CountedRows(subs, studentId, hw)));
      |st.submissions| <= |hw.problems| && 0 <= st.totalScore <= 100 * |hw.problems|
  {
    var rows := CountedRows(subs, studentId, hw);
    var chosen := Chosen(hw.problems, BestByProblem(rows));
    ChosenMembers(hw.problems, BestByProblem(rows));
    forall s | s in chosen ensures 0 <= s.score <= 100 {
      var p :| p in hw.problems && p in BestByProblem(rows) && BestByProblem(rows)[p] == s;
    }
    SumScoresBounded(chosen);
  }

  /**
   * A student with no row for the homework's problems at or before its
   * deadline (always the case when the deadline is null) lists nothing and totals 0.
   */
  lemma NothingCountedMeansEmptyStatus(subs: seq<Submission>, studentId: int, hw: Homework)
    requires forall s :: s in subs && s.userId == studentId && s.problemId in hw.problems
               ==> !SubmissionRepository.WithinDeadline(s, hw.deadline)
    ensures StatusFrom(studentId, hw.problems, BestByProblem(CountedRows(subs, studentId, hw)))
         == HomeworkStatus(studentId, [], 0)
  {
    ChosenMembers(hw.problems, BestByProblem(CountedRows(subs, studentId, hw)));
  }

  lemma QuerySnoc(prefix: seq<Submission>, last: Submission, userIds: seq<int>, problemIds: seq<int>, deadline: Option<int>)
    ensures SubmissionRepository.FindByUserIdsAndProblemIdsAndDeadline(prefix + [last], userIds, problemIds, deadline)
         == SubmissionRepository.FindByUserIdsAndProblemIdsAndDeadline(prefix, userIds, problemIds, deadline)
            + (if SubmissionRepository.DeadlineQueryMatches(last, userIds, problemIds, deadline) then [last] else [])
  {
    assert (prefix + [last])[..|prefix|] == prefix;
  }

  lemma OfUserSnoc(prefix: seq<Submission>, last: Submission, userId: int)
    ensures SubmissionRepository.OfUser(prefix + [last], userId)
         == SubmissionRepository.OfUser(prefix, userId) + (if last.userId == userId then [last] else [])
  {
    assert (prefix + [last])[..|prefix|] == prefix;
  }

  /** Restricting the roster query to one of its users gives that user's query. */
  lemma {:induction false} RosterQueryRestricts(
    subs: seq<Submission>, userIds: seq<int>, problemIds: seq<int>, deadline: Option<int>, userId: int)
    requires userId in userIds
    ensures SubmissionRepository.OfUser(SubmissionRepository.FindByUserIdsAndProblemIdsAndDeadline(subs, userIds, problemIds, deadline), userId)
         == SubmissionRepository.FindByUserIdsAndProblemIdsAndDeadline(subs, [userId], problemIds, deadline)
    decreases |subs|
  {
    if subs != [] {
      var prefix := subs[..|subs| - 1];
      var last := subs[|subs| - 1];
      assert subs == prefix + [last];
      RosterQueryRestricts(prefix, userIds, problemIds, deadline, userId);
      var all := SubmissionRepository.FindByUserIdsAndProblemIdsAndDeadline(prefix, userIds, problemIds, deadline);
      QuerySnoc(prefix, last, userIds, problemIds, deadline);
      QuerySnoc(prefix, last, [userId], problemIds, deadline);
      RestrictStep(all, SubmissionRepository.FindByUserIdsAndProblemIdsAndDeadline(prefix, [userId], problemIds, deadline),
        last, userIds, problemIds, deadline, userId);
    }
  }

  /** One more stored row keeps the restricted roster query equal to the user's own query. */
  lemma RestrictStep(all: seq<Submission>, own: seq<Submission>, last: Submission,
    userIds: seq<int>, problemIds: seq<int>, deadline: Option<int>, userId: int)
    requires userId in userIds && SubmissionRepository.OfUser(all, userId) == own
    ensures SubmissionRepository.OfUser(all + (if SubmissionRepository.DeadlineQueryMatches(last, userIds, problemIds, deadline) then [last] else []), userId)
         == own + (if SubmissionRepository.DeadlineQueryMatches(last, [userId], problemIds, deadline) then [last] else [])
  {
    if SubmissionRepository.DeadlineQueryMatches(last, userIds, problemIds, deadline) {
      OfUserSnoc(all, last, userId);
    } else {
      assert all + [] == all && own + [] == own;
    }
  }

  /**
   * The teacher's roster view gives every enrolled student exactly the best
   * rows the student's own view gives them.
   */
  lemma RosterRowMatchesStudentView(subs: seq<Submission>, students: seq<int>, hw: Homework, studentId: int)
    requires studentId in students
    ensures BestOf(BestByUserAndProblem(SubmissionRepository.FindByUserIdsAndProblemIdsAndDeadline(subs, students, hw.problems, hw.deadline)), studentId)
         == BestByProblem(CountedRows(subs, studentId, hw))
  {
    var all := SubmissionRepository.FindByUserIdsAndProblemIdsAndDeadline(subs, students, hw.problems, hw.deadline);
    GroupingByUserIsPerUserBest(all, studentId);
    RosterQueryRestricts(subs, students, hw.problems, hw.deadline, studentId);
  }

  // ---------------------------------------------------------------------------
  // Problem-to-homework links
  // ---------------------------------------------------------------------------

  predicate NoDuplicates(xs: seq<int>) {
    forall i, j :: 0 <= i < j < |xs| ==> xs[i] != xs[j]
  }

  /** Each problem's `homeworks` list holds every homework at most once. */
  predicate LinksNoDuplicates(links: map<int, seq<int>>) {
    forall p :: p in links ==> NoDuplicates(links[p])
  }

  /**
   * Both sides of the relation agree: a problem lists a homework exactly when
   * the homework lists the problem, and neither side names a missing entity.
   */
  ghost predicate Synced(links: map<int, seq<int>>, homeworks: map<int, Homework>) {
    (forall p, h :: p in links && h in links[p] ==> h in homeworks)
    && (forall h, p :: h in homeworks && p in homeworks[h].problems ==> p in links)
    && (forall p, h :: p in links && h in homeworks ==> (h in links[p] <==> p in homeworks[h].problems))
  }

  /** `removeIf(h -> h.getId().equals(homeworkId))` on one list. */
  function RemoveAll(xs: seq<int>, homeworkId: int): (r: seq<int>)
    ensures forall x :: x in r <==> x in xs && x != homeworkId
    ensures NoDuplicates(xs) ==> NoDuplicates(r)
    decreases |xs|
  {
    if xs == [] then []
    else
      var prefix := xs[..|xs| - 1];
      var x := xs[|xs| - 1];
      assert xs == prefix + [x];
      var kept := RemoveAll(prefix, homeworkId);
      if x == homeworkId then kept
      else
        NoDuplicatesSnoc(kept, x);
        kept + [x]
  }

  lemma NoDuplicatesSnoc(xs: seq<int>, x: int)
    ensures NoDuplicates(xs) && x !in xs ==> NoDuplicates(xs + [x])
  {
    if NoDuplicates(xs) && x !in xs {
      forall i, j | 0 <= i < j < |xs + [x]| ensures (xs + [x])[i] != (xs + [x])[j] {
        if j == |xs| {
          assert xs[i] in xs;
        }
      }
    }
  }

  /** Add `homeworkId` to problem `p`'s list unless it is already there; an unknown problem is skipped. */
  function Link(links: map<int, seq<int>>, homeworkId: int, p: int): map<int, seq<int>> {
    if p in links && homeworkId !in links[p] then links[p := links[p] + [homeworkId]] else links
  }

  function LinkAll(links: map<int, seq<int>>, homeworkId: int, problemIds: seq<int>): (r: map<int, seq<int>>)
    ensures r.Keys == links.Keys
    decreases |problemIds|
  {
    if problemIds == [] then links
    else Link(LinkAll(links, homeworkId, problemIds[..|problemIds| - 1]), homeworkId, problemIds[|problemIds| - 1])
  }

  function Unlink(links: map<int, seq<int>>, homeworkId: int, p: int): map<int, seq<int>> {
    if p in links then links[p := RemoveAll(links[p], homeworkId)] else links
  }

  function UnlinkAll(links: map<int, seq<int>>, homeworkId: int, problemIds: seq<int>): (r: map<int, seq<int>>)
    ensures r.Keys == links.Keys
    decreases |problemIds|
  {
    if problemIds == [] then links
    else Unlink(UnlinkAll(links, homeworkId, problemIds[..|problemIds| - 1]), homeworkId, problemIds[|problemIds| - 1])
  }

  /** Linking appends the homework once to each named, existing problem that lacks it, and touches nothing else. */
  lemma {:induction false} LinkAllExact(links: map<int, seq<int>>, homeworkId: int, problemIds: seq<int>)
    ensures forall p :: p in links ==>
      LinkAll(links, homeworkId, problemIds)[p]
        == (if p in problemIds && homeworkId !in links[p] then links[p] + [homeworkId] else links[p])
    decreases |problemIds|
  {
    if problemIds != [] {
      var prefix := problemIds[..|problemIds| - 1];
      var q := problemIds[|problemIds| - 1];
      assert problemIds == prefix + [q];
      LinkAllExact(links, homeworkId, prefix);
    }
  }

  /** Unlinking removes the homework from each named problem's list and touches nothing else. */
  lemma {:induction false} UnlinkAllExact(links: map<int, seq<int>>, homeworkId: int, problemIds: seq<int>)
    ensures forall p :: p in links ==>
      UnlinkAll(links, homeworkId, problemIds)[p]
        == (if p in problemIds then RemoveAll(links[p], homeworkId) else links[p])
    decreases |problemIds|
  {
    if problemIds != [] {
      var prefix := problemIds[..|problemIds| - 1];
      var q := problemIds[|problemIds| - 1];
      assert problemIds == prefix + [q];
      UnlinkAllExact(links, homeworkId, prefix);
      var before := UnlinkAll(links, homeworkId, prefix);
      if q in links && q in prefix {
        var once := RemoveAll(links[q], homeworkId);
        assert RemoveAll(once, homeworkId) == once by {
          RemoveAllOfAbsent(once, homeworkId);
        }
      }
    }
  }

  /** Removing a homework that is not in the list leaves the list as it is. */
  lemma {:induction false} RemoveAllOfAbsent(xs: seq<int>, homeworkId: int)
    requires homeworkId !in xs
    ensures RemoveAll(xs, homeworkId) == xs
    decreases |xs|
  {
    if xs != [] {
      assert xs == xs[..|xs| - 1] + [xs[|xs| - 1]];
      RemoveAllOfAbsent(xs[..|xs| - 1], homeworkId);
    }
  }

  /** Linking keeps every list free of duplicates. */
  lemma LinkAllKeepsNoDuplicates(links: map<int, seq<int>>, homeworkId: int, problemIds: seq<int>)
    requires LinksNoDuplicates(links)
    ensures LinksNoDuplicates(LinkAll(links, homeworkId, problemIds))
  {
    LinkAllExact(links, homeworkId, problemIds);
  }

  /** Unlinking keeps every list free of duplicates. */
  lemma UnlinkAllKeepsNoDuplicates(links: map<int, seq<int>>, homeworkId: int, problemIds: seq<int>)
    requires LinksNoDuplicates(links)
    ensures LinksNoDuplicates(UnlinkAll(links, homeworkId, problemIds))
  {
    UnlinkAllExact(links, homeworkId, problemIds);
  }

  /** Adding a new homework and linking it to its problems keeps both sides in step. */
  lemma AddKeepsSynced(links: map<int, seq<int>>, homeworks: map<int, Homework>,
                       homeworkId: int, hw: Homework, problemIds: seq<int>)
    requires Synced(links, homeworks)
    requires homeworkId !in homeworks
    requires forall p :: p in hw.problems ==> p in links
    requires forall p :: p in links ==> (p in problemIds <==> p in hw.problems)
    ensures Synced(LinkAll(links, homeworkId, problemIds), homeworks[homeworkId := hw])
  {
    LinkAllExact(links, homeworkId, problemIds);
  }

  /**
   * Re-pointing an existing homework at a new problem list keeps both sides in
   * step: clearing its links is a deletion, relinking is an addition.
   */
  lemma UpdateKeepsSynced(links: map<int, seq<int>>, homeworks: map<int, Homework>, homeworkId: int, hw: Homework)
    requires Synced(links, homeworks)
    requires homeworkId in homeworks
    requires forall p :: p in hw.problems ==> p in links
    ensures var cleared := UnlinkAll(links, homeworkId, homeworks[homeworkId].problems);
      Synced(LinkAll(cleared, homeworkId, hw.problems), homeworks[homeworkId := hw])
  {
    var cleared := UnlinkAll(links, homeworkId, homeworks[homeworkId].problems);
    DeleteKeepsSynced(links, homeworks, homeworkId);
    AddKeepsSynced(cleared, homeworks - {homeworkId}, homeworkId, hw, hw.problems);
    assert (homeworks - {homeworkId})[homeworkId := hw] == homeworks[homeworkId := hw];
  }

  /** Unlinking a homework from its problems and dropping it keeps both sides in step, and no list names it any more. */
  lemma DeleteKeepsSynced(links: map<int, seq<int>>, homeworks: map<int, Homework>, homeworkId: int)
    requires Synced(links, homeworks)
    requires homeworkId in homeworks
    ensures var cleared := UnlinkAll(links, homeworkId, homeworks[homeworkId].problems);
      Synced(cleared, homeworks - {homeworkId})
      && forall p :: p in cleared ==> homeworkId !in cleared[p]
  {
    UnlinkAllExact(links, homeworkId, homeworks[homeworkId].problems);
  }

  /** Unlinking from one more requested problem. */
  lemma UnlinkStep(links: map<int, seq<int>>, homeworkId: int, problemIds: seq<int>, i: nat)
    requires i < |problemIds|
    ensures UnlinkAll(links, homeworkId, problemIds[..i + 1]) == Unlink(UnlinkAll(links, homeworkId, problemIds[..i]), homeworkId, problemIds[i])
  {
    assert problemIds[..i + 1][..i] == problemIds[..i];
  }

  /** Linking to one more requested problem, and the known problems among them. */
  lemma LinkStep(links: map<int, seq<int>>, homeworkId: int, problemIds: seq<int>, i: nat)
    requires i < |problemIds|
    ensures LinkAll(links, homeworkId, problemIds[..i + 1]) == Link(LinkAll(links, homeworkId, problemIds[..i]), homeworkId, problemIds[i])
    ensures KnownProblems(problemIds[..i + 1], links)
      == KnownProblems(problemIds[..i], links) + (if problemIds[i] in links then [problemIds[i]] else [])
  {
    assert problemIds[..i + 1][..i] == problemIds[..i];
  }

  /** The loop that takes `homeworkId` off the lists of `problemIds`. */
  method UnlinkFrom(links: map<int, seq<int>>, homeworkId: int, problemIds: seq<int>) returns (r: map<int, seq<int>>)
    ensures r == UnlinkAll(links, homeworkId, problemIds)
  {
    r := links;
    for i := 0 to |problemIds|
      invariant r == UnlinkAll(links, homeworkId, problemIds[..i])
    {
      UnlinkStep(links, homeworkId, problemIds, i);
      var p := problemIds[i];
      if p in r {
        r := r[p := RemoveAll(r[p], homeworkId)];
      }
    }
    assert problemIds[..|problemIds|] == problemIds;
  }

  /**
   * The `createHomework` loop: it keeps the requested problems that exist and
   * links `homeworkId` to each of them; unknown problems are skipped.
   */
  method LinkNew(links: map<int, seq<int>>, homeworkId: int, problemIds: seq<int>)
    returns (r: map<int, seq<int>>, problems: seq<int>)
    ensures r == LinkAll(links, homeworkId, problemIds)
    ensures problems == KnownProblems(problemIds, links)
  {
    r := links;
    problems := [];
    for i := 0 to |problemIds|
      invariant r.Keys == links.Keys
      invariant problems == KnownProblems(problemIds[..i], links)
      invariant r == LinkAll(links, homeworkId, problemIds[..i])
    {
      LinkStep(links, homeworkId, problemIds, i);
      var p := problemIds[i];
      if p in r {
        problems := problems + [p];
        if homeworkId !in r[p] {
          r := r[p := r[p] + [homeworkId]];
        }
      }
    }
    assert problemIds[..|problemIds|] == problemIds;
  }

  /**
   * The `save` loop that links `homeworkId` to each requested problem; it
   * stops at the first unknown problem, which throws.
   */
  method LinkTo(links: map<int, seq<int>>, homeworkId: int, problemIds: seq<int>) returns (r: map<int, seq<int>>, found: bool)
    ensures found <==> forall p :: p in problemIds ==> p in links
    ensures found ==> r == LinkAll(links, homeworkId, problemIds)
  {
    r := links;
    for i := 0 to |problemIds|
      invariant r == LinkAll(links, homeworkId, problemIds[..i])
      invariant forall k :: 0 <= k < i ==> problemIds[k] in links
    {
      LinkStep(links, homeworkId, problemIds, i);
      var p := problemIds[i];
      if p !in r {
        return r, false;
      }
      if homeworkId !in r[p] {
        r := r[p := r[p] + [homeworkId]];
      }
    }
    assert problemIds[..|problemIds|] == problemIds;
    found := true;
  }

  /** The new-homework part of a save request. */
  datatype HomeworkRequest = HomeworkRequest(
    id: Option<int>,
    title: string,
    description: string,
    deadline: Option<int>,
    problems: seq<int>)

  /** The problems of `problemIds` that exist, in request order (`createHomework`'s list). */
  function KnownProblems(problemIds: seq<int>, links: map<int, seq<int>>): (r: seq<int>)
    ensures forall p :: p in r <==> p in problemIds && p in links
    decreases |problemIds|
  {
    if problemIds == [] then []
    else
      var prefix := problemIds[..|problemIds| - 1];
      var p := problemIds[|problemIds| - 1];
      assert problemIds == prefix + [p];
      KnownProblems(prefix, links) + (if p in links then [p] else [])
  }

  // ---------------------------------------------------------------------------
  // The service over its repositories
  // ---------------------------------------------------------------------------

  /**
   * The repositories the service reads and writes: homeworks, classrooms,
   * the ids of existing users, each problem's `homeworks` list, and the
   * submission table.
   */
  class HomeworkStore {
    var homeworks: map<int, Homework>
    var classrooms: map<int, Classroom>
    var users: set<int>
    var problemHomeworks: map<int, seq<int>>
    var submissions: seq<Submission>

    ghost predicate Valid()
      reads this
    {
      LinksNoDuplicates(problemHomeworks) && Synced(problemHomeworks, homeworks)
    }

    constructor (homeworks: map<int, Homework>, classrooms: map<int, Classroom>, users: set<int>,
                 problemHomeworks: map<int, seq<int>>, submissions: seq<Submission>)
      requires LinksNoDuplicates(problemHomeworks) && Synced(problemHomeworks, homeworks)
      ensures Valid()
      ensures this.homeworks == homeworks && this.classrooms == classrooms && this.users == users
      ensures this.problemHomeworks == problemHomeworks && this.submissions == submissions
    {
      this.homeworks := homeworks;
      this.classrooms := classrooms;
      this.users := users;
      this.problemHomeworks := problemHomeworks;
      this.submissions := submissions;
    }

    /**
     * `getStatusOfStudentHomework`: null for an unknown homework, an unknown
     * student or a student outside the classroom; a homework without a
     * classroom fails on the null dereference.
     */
    method GetStatusOfStudentHomework(studentId: int, homeworkId: int) returns (r: Outcome<HomeworkStatus>)
      ensures homeworkId !in homeworks ==> r == Null
      ensures homeworkId in homeworks && studentId !in users ==> r == Null
      ensures homeworkId in homeworks && studentId in users ==>
        var hw := homeworks[homeworkId];
        if hw.classroomId.None? || hw.classroomId.value !in classrooms then r.Thrown?
        else if studentId !in classrooms[hw.classroomId.value].students then r == Null
        else r == Value(StatusFrom(studentId, hw.problems, BestByProblem(CountedRows(submissions, studentId, hw))))
    {
      if homeworkId !in homeworks {
        return Null;
      }
      var hw := homeworks[homeworkId];
      if studentId !in users {
        return Null;
      }
      if hw.classroomId.None? || hw.classroomId.value !in classrooms {
        return Thrown("NullPointerException");
      }
      if studentId !in classrooms[hw.classroomId.value].students {
        return Null;
      }
      var rows := SubmissionRepository.FindByUserIdsAndProblemIdsAndDeadline(submissions, [studentId], hw.problems, hw.deadline);
      var best := FindBestSubmissions(rows);
      var total, chosen := CollectBest(hw.problems, best);
      r := Value(HomeworkStatus(studentId, chosen, total));
    }

    /**
     * `getStatusOfStudentsHomework`: null for an unknown homework, otherwise
     * one line per enrolled student, in roster order.
     */
    method GetStatusOfStudentsHomework(homeworkId: int) returns (r: Outcome<seq<HomeworkStatus>>)
      ensures homeworkId !in homeworks ==> r == Null
      ensures homeworkId in homeworks ==>
        var hw := homeworks[homeworkId];
        if hw.classroomId.None? || hw.classroomId.value !in classrooms then r.Thrown?
        else
          var students := classrooms[hw.classroomId.value].students;
          r.Value? && |r.value| == |students|
          && forall i :: 0 <= i < |students| ==>
               r.value[i] == StatusFrom(students[i], hw.problems, BestByProblem(CountedRows(submissions, students[i], hw)))
    {
      if homeworkId !in homeworks {
        return Null;
      }
      var hw := homeworks[homeworkId];
      if hw.classroomId.None? || hw.classroomId.value !in classrooms {
        return Thrown("NullPointerException");
      }
      var students := classrooms[hw.classroomId.value].students;
      var rows := SubmissionRepository.FindByUserIdsAndProblemIdsAndDeadline(submissions, students, hw.problems, hw.deadline);
      var byUser := GroupBestSubmissions(rows);
      var lines: seq<HomeworkStatus> := [];
      for i := 0 to |students|
        invariant |lines| == i
        invariant forall k :: 0 <= k < i ==>
          lines[k] == StatusFrom(students[k], hw.problems, BestByProblem(CountedRows(submissions, students[k], hw)))
      {
        RosterRowMatchesStudentView(submissions, students, hw, students[i]);
        var total, chosen := CollectBest(hw.problems, BestOf(byUser, students[i]));
        lines := lines + [HomeworkStatus(students[i], chosen, total)];
      }
      r := Value(lines);
    }

    /**
     * `createHomework`: null when the classroom is unknown; otherwise the
     * homework is stored under the generated key `newId` with the requested
     * problems that exist, and each of them lists it once.
     */
    method CreateHomework(classroomId: int, request: HomeworkRequest, newId: int) returns (created: Option<int>)
      requires Valid()
      requires newId !in homeworks
      modifies this
      ensures Valid()
      ensures classrooms == old(classrooms) && users == old(users) && submissions == old(submissions)
      ensures classroomId !in classrooms ==>
        created == None && homeworks == old(homeworks) && problemHomeworks == old(problemHomeworks)
      ensures classroomId in classrooms ==>
        created == Some(newId)
        && homeworks == old(homeworks)[newId := Homework(request.title, request.description, request.deadline,
                                                         Some(classroomId), KnownProblems(request.problems, old(problemHomeworks)))]
        && problemHomeworks == LinkAll(old(problemHomeworks), newId, request.problems)
    {
      if classroomId !in classrooms {
        return None;
      }
      var links, problems := LinkNew(problemHomeworks, newId, request.problems);
      var hw := Homework(request.title, request.description, request.deadline, Some(classroomId), problems);
      LinkAllKeepsNoDuplicates(problemHomeworks, newId, request.problems);
      AddKeepsSynced(problemHomeworks, homeworks, newId, hw, request.problems);
      homeworks := homeworks[newId := hw];
      problemHomeworks := links;
      created := Some(newId);
    }

    /**
     * `save`: with an id, re-points that homework at the requested problems
     * and copies title, description and deadline; without one, stores a new
     * homework under `newId`. An unknown homework or problem throws and the
     * transaction leaves every repository as it was.
     */
    method Save(request: HomeworkRequest, newId: int) returns (r: Outcome<int>)
      requires Valid()
      requires newId !in homeworks
      modifies this
      ensures Valid()
      ensures classrooms == old(classrooms) && users == old(users) && submissions == old(submissions)
      ensures request.id.Some? && request.id.value !in old(homeworks) ==>
        r == Thrown("Homework not found") && homeworks == old(homeworks) && problemHomeworks == old(problemHomeworks)
      ensures (request.id.None? || request.id.value in old(homeworks))
              && (exists p :: p in request.problems && p !in old(problemHomeworks)) ==>
        r == Thrown("Problem not found") && homeworks == old(homeworks) && problemHomeworks == old(problemHomeworks)
      ensures request.id.Some? && request.id.value in old(homeworks)
              && (forall p :: p in request.problems ==> p in old(problemHomeworks)) ==>
        var h := request.id.value;
        var before := old(homeworks)[h];
        r == Value(h)
        && homeworks == old(homeworks)[h := Homework(request.title, request.description, request.deadline,
                                                     before.classroomId, request.problems)]
        && problemHomeworks == LinkAll(UnlinkAll(old(problemHomeworks), h, before.problems), h, request.problems)
      ensures request.id.None? && (forall p :: p in request.problems ==> p in old(problemHomeworks)) ==>
        r == Value(newId)
        && homeworks == old(homeworks)[newId := Homework(request.title, request.description, request.deadline,
                                                         None, request.problems)]
        && problemHomeworks == LinkAll(old(problemHomeworks), newId, request.problems)
    {
      var h := newId;
      var classroomId: Option<int> := None;
      var cleared := problemHomeworks;
      if request.id.Some? {
        h := request.id.value;
        if h !in homeworks {
          return Thrown("Homework not found");
        }
        classroomId := homeworks[h].classroomId;
        cleared := UnlinkFrom(problemHomeworks, h, homeworks[h].problems);
      }
      var links, found := LinkTo(cleared, h, request.problems);
      if !found {
        // the transaction rolls back: nothing was written
        return Thrown("Problem not found");
      }
      var hw := Homework(request.title, request.description, request.deadline, classroomId, request.problems);
      if request.id.Some? {
        UnlinkAllKeepsNoDuplicates(problemHomeworks, h, homeworks[h].problems);
        LinkAllKeepsNoDuplicates(cleared, h, request.problems);
        UpdateKeepsSynced(problemHomeworks, homeworks, h, hw);
      } else {
        LinkAllKeepsNoDuplicates(problemHomeworks, h, request.problems);
        AddKeepsSynced(problemHomeworks, homeworks, h, hw, request.problems);
      }
      homeworks := homeworks[h := hw];
      problemHomeworks := links;
      r := Value(h);
    }

    /**
     * `delete`: an unknown homework throws; otherwise the homework is taken
     * off every problem's list and removed.
     */
    method Delete(homeworkId: int) returns (r: Outcome<()>)
      requires Valid()
      modifies this
      ensures Valid()
      ensures classrooms == old(classrooms) && users == old(users) && submissions == old(submissions)
      ensures homeworkId !in old(homeworks) ==>
        r == Thrown("Homework not found") && homeworks == old(homeworks) && problemHomeworks == old(problemHomeworks)
      ensures homeworkId in old(homeworks) ==>
        r == Value(())
        && homeworks == old(homeworks) - {homeworkId}
        && problemHomeworks == UnlinkAll(old(problemHomeworks), homeworkId, old(homeworks)[homeworkId].problems)
        && forall p :: p in problemHomeworks ==> homeworkId !in problemHomeworks[p]
    {
      if homeworkId !in homeworks {
        return Thrown("Homework not found");
      }
      var links := UnlinkFrom(problemHomeworks, homeworkId, homeworks[homeworkId].problems);
      UnlinkAllKeepsNoDuplicates(problemHomeworks, homeworkId, homeworks[homeworkId].problems);
      DeleteKeepsSynced(problemHomeworks, homeworks, homeworkId);
      homeworks := homeworks - {homeworkId};
      problemHomeworks := links;
      r := Value(());
    }
  }
}
