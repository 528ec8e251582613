/**
 * `StudentSubmissionsDialog`: a teacher's view of one student's best
 * submissions for a homework, and the homework problems the student has
 * not submitted.
 */
module StudentSubmissionsDialog {
  import opened Wrappers
  import opened Dtos
  import opened Palette
  import Lists

  /** `submissions.map((sub) => sub.problem.id)`. */
  function SubmittedProblemIds(submissions: seq<SubmissionView>): (ids: seq<Option<int>>)
    ensures |ids| == |submissions|
    ensures forall id :: id in ids <==> exists s :: s in submissions && s.problem.id == id
  {
    var ids := seq(|submissions|, i requires 0 <= i < |submissions| => submissions[i].problem.id);
    assert forall i :: 0 <= i < |submissions| ==> ids[i] == submissions[i].problem.id;
    ids
  }

  /** The test `!submittedProblemIds.includes(problem.id)`. */
  function NotSubmitted(ids: seq<Option<int>>): ProblemView -> bool {
    (p: ProblemView) => p.id !in ids
  }

  /** Its negation. */
  function Submitted(ids: seq<Option<int>>): ProblemView -> bool {
    (p: ProblemView) => p.id in ids
  }

  /**
   * `getMissingProblems`: no problems gives none; otherwise the problems
   * whose id (null included) is no submission's problem id, in problem order.
   */
  function MissingProblems(problems: seq<ProblemView>, submissions: seq<SubmissionView>): (missing: seq<ProblemView>)
    ensures problems == [] ==> missing == []
    ensures forall p :: p in missing <==> p in problems && forall s :: s in submissions ==> s.problem.id != p.id
  {
    if |problems| == 0 then []
    else
      var ids := SubmittedProblemIds(submissions);
      Lists.Filter(problems, NotSubmitted(ids))
  }

  /** The problems that do have a submission. */
  function SubmittedProblems(problems: seq<ProblemView>, submissions: seq<SubmissionView>): (done: seq<ProblemView>)
    ensures forall p :: p in done <==> p in problems && exists s :: s in submissions && s.problem.id == p.id
  {
    var ids := SubmittedProblemIds(submissions);
    Lists.Filter(problems, Submitted(ids))
  }

  /** The missing problems keep the order of the homework's problem list. */
  lemma MissingKeepsOrder(problems: seq<ProblemView>, submissions: seq<SubmissionView>)
    ensures Lists.Subsequence(MissingProblems(problems, submissions), problems)
  {
    if |problems| > 0 {
      var ids := SubmittedProblemIds(submissions);
      Lists.FilterIsSubsequence(problems, NotSubmitted(ids));
    }
  }

  /**
   * Missing and submitted problems split the problem list: no problem is in
   * both, and together they hold every problem as often as the list does.
   */
  lemma MissingAndSubmittedPartition(problems: seq<ProblemView>, submissions: seq<SubmissionView>)
    ensures forall p :: !(p in MissingProblems(problems, submissions) && p in SubmittedProblems(problems, submissions))
    ensures multiset(MissingProblems(problems, submissions)) + multiset(SubmittedProblems(problems, submissions)) == multiset(problems)
    ensures |MissingProblems(problems, submissions)| + |SubmittedProblems(problems, submissions)| == |problems|
  {
    var ids := SubmittedProblemIds(submissions);
    Lists.FilterPartition(problems, Submitted(ids), NotSubmitted(ids));
  }

  /** With no submissions every problem is missing. */
  lemma NoSubmissionsAllMissing(problems: seq<ProblemView>)
    ensures MissingProblems(problems, []) == problems
  {
    if |problems| > 0 {
      Lists.FilterKeepsAll(problems, NotSubmitted(SubmittedProblemIds([])));
    }
  }

  /** `response.data` of `/homework/status/student/{id}/homework/{id}`, whose `submissions` may be absent. */
  datatype StatusResponse = StatusResponse(user: UserView, submissions: Option<seq<SubmissionView>>, totalScore: int)

  /** The dialog's `status` and `submissions` state. */
  datatype Loaded = Loaded(status: Option<StatusResponse>, submissions: seq<SubmissionView>)

  /**
   * What a successful fetch leaves: no data keeps the old state; data
   * becomes the status and its submissions, an absent list read as empty.
   */
  function Received(data: Option<StatusResponse>, before: Loaded): (after: Loaded)
    ensures data.None? ==> after == before
    ensures data.Some? ==> after.status == data
    ensures data.Some? && data.value.submissions.None? ==> after.submissions == []
    ensures data.Some? && data.value.submissions.Some? ==> after.submissions == data.value.submissions.value
  {
    match data
    case None => before
    case Some(d) => Loaded(data, if d.submissions.Some? then d.submissions.value else [])
  }

  /** The row's status chip: "Completed" in success colour for a full score, otherwise "Attempted" in warning colour. */
  function StatusChip(score: int): (chip: (string, Color))
    ensures chip.0 == "Completed" <==> score == 100
    ensures chip.0 == "Attempted" <==> score != 100
    ensures chip.1 == (if score == 100 then Success else Warning)
  {
    if score == 100 then ("Completed", Success) else ("Attempted", Warning)
  }
}
