/**
 * `HomeworkDetailsPage`: the deadline test and countdown, the
 * not-started / in-progress / completed classification of a student's
 * progress, the average score and its colour, and the per-problem status.
 * "Now" is a parameter, in milliseconds, as is the deadline.
 */
module HomeworkDetailsPage {
  import opened Wrappers
  import opened Dtos
  import opened Palette
  import Text
  import JsMath
  import UserProfilePage

  const MsPerMinute := 60000
  const MsPerHour := 3600000
  const MsPerDay := 86400000

  /** `isDeadlinePassed`: false without a homework or a deadline; otherwise whether now is strictly after it. */
  predicate IsDeadlinePassed(homework: Option<HomeworkView>, now: int) {
    homework.Some? && homework.value.deadline.Some? && now > homework.value.deadline.value
  }

  /** Once the deadline has passed it stays passed, and the deadline instant itself is not passed. */
  lemma DeadlineStaysPassed(homework: Option<HomeworkView>, now1: int, now2: int)
    requires IsDeadlinePassed(homework, now1) && now1 <= now2
    ensures IsDeadlinePassed(homework, now2)
    ensures !IsDeadlinePassed(homework, homework.value.deadline.value)
  {
  }

  /** What `getTimeRemaining` shows. */
  datatype Remaining = NotApplicable | DeadlinePassed | Left(days: int, hours: int, minutes: int)

  /**
   * `getTimeRemaining`: "N/A" without a deadline, "Deadline passed" once
   * now is after it, otherwise the whole days, hours and minutes of
   * `deadline - now` by floor division and remainder.
   */
  function TimeRemaining(homework: Option<HomeworkView>, now: int): (r: Remaining)
    ensures r == NotApplicable <==> homework.None? || homework.value.deadline.None?
    ensures r == DeadlinePassed <==> IsDeadlinePassed(homework, now)
    ensures r.Left? ==>
      var diff := homework.value.deadline.value - now;
      0 <= r.days && 0 <= r.hours <= 23 && 0 <= r.minutes <= 59
      && r.days * MsPerDay + r.hours * MsPerHour + r.minutes * MsPerMinute <= diff
      < r.days * MsPerDay + r.hours * MsPerHour + r.minutes * MsPerMinute + MsPerMinute
  {
    if homework.None? || homework.value.deadline.None? then NotApplicable
    else if now > homework.value.deadline.value then DeadlinePassed
    else
      var diff := homework.value.deadline.value - now;
      var days := diff / MsPerDay;
      var hours := (diff % MsPerDay) / MsPerHour;
      var minutes := (diff % MsPerHour) / MsPerMinute;
      BreakdownBounds(diff);
      Left(days, hours, minutes)
  }

  /** Division by an hour with a remainder in range. */
  lemma DivModHour(x: int, q: int, r: int)
    requires 0 <= r < MsPerHour && x == q * MsPerHour + r
    ensures x / MsPerHour == q && x % MsPerHour == r
  {
  }

  /** Division by a minute with a remainder in range. */
  lemma DivModMinute(x: int, q: int, r: int)
    requires 0 <= r < MsPerMinute && x == q * MsPerMinute + r
    ensures x / MsPerMinute == q && x % MsPerMinute == r
  {
  }

  /** The breakdown of a non-negative difference, and its total in whole minutes. */
  lemma BreakdownBounds(diff: int)
    requires diff >= 0
    ensures var days, hours, minutes := diff / MsPerDay, (diff % MsPerDay) / MsPerHour, (diff % MsPerHour) / MsPerMinute;
      0 <= days && 0 <= hours <= 23 && 0 <= minutes <= 59
      && days * MsPerDay + hours * MsPerHour + minutes * MsPerMinute == (diff / MsPerMinute) * MsPerMinute
      && days * 1440 + hours * 60 + minutes == diff / MsPerMinute
  {
    var days, rest := diff / MsPerDay, diff % MsPerDay;
    assert diff == days * MsPerDay + rest && 0 <= rest < MsPerDay;
    var hours, inHour := rest / MsPerHour, rest % MsPerHour;
    assert rest == hours * MsPerHour + inHour && 0 <= inHour < MsPerHour;
    assert 0 <= hours <= 23;
    DivModHour(diff, days * 24 + hours, inHour);
    var minutes, inMinute := inHour / MsPerMinute, inHour % MsPerMinute;
    assert inHour == minutes * MsPerMinute + inMinute && 0 <= inMinute < MsPerMinute;
    assert 0 <= minutes <= 59;
    DivModMinute(diff, days * 1440 + hours * 60 + minutes, inMinute);
  }

  /** The countdown in whole minutes. */
  function MinutesLeft(r: Remaining): int
    requires r.Left?
  {
    r.days * 1440 + r.hours * 60 + r.minutes
  }

  /**
   * As now advances the countdown never goes up: a later instant that still
   * shows time left shows at most as many whole minutes, and an earlier
   * instant showed time left too.
   */
  lemma RemainingNeverIncreases(homework: Option<HomeworkView>, now1: int, now2: int)
    requires now1 <= now2 && TimeRemaining(homework, now2).Left?
    ensures TimeRemaining(homework, now1).Left?
    ensures MinutesLeft(TimeRemaining(homework, now2)) <= MinutesLeft(TimeRemaining(homework, now1))
  {
    var deadline := homework.value.deadline.value;
    BreakdownBounds(deadline - now1);
    BreakdownBounds(deadline - now2);
  }

  /** The text `getTimeRemaining` returns; a breakdown, as `TimeRemaining` gives it, has no negative part. */
  function RemainingText(r: Remaining): (text: string)
    requires r.Left? ==> r.days >= 0 && r.hours >= 0 && r.minutes >= 0
    ensures r.NotApplicable? ==> text == "N/A"
    ensures r.DeadlinePassed? ==> text == "Deadline passed"
    ensures r.Left? ==>
      text == Text.DecimalString(r.days) + "d " + Text.DecimalString(r.hours) + "h " + Text.DecimalString(r.minutes) + "m remaining"
  {
    match r
    case NotApplicable => "N/A"
    case DeadlinePassed => "Deadline passed"
    case Left(d, h, m) =>
      Text.DecimalString(d) + "d " + Text.DecimalString(h) + "h " + Text.DecimalString(m) + "m remaining"
  }

  /** `homework.problems?.length || 0`. */
  function ProblemCount(homework: HomeworkView): nat {
    |homework.problems|
  }

  /** A student's progress on a homework. */
  datatype Progress = NotStarted | InProgress | Completed

  /**
   * The status column and the student's status card: no submissions is not
   * started, fewer than the problems is in progress, anything else completed.
   */
  function TableStatus(completed: nat, total: nat): (p: Progress)
    ensures p == NotStarted <==> completed == 0
    ensures p == InProgress <==> 0 < completed < total
    ensures p == Completed <==> 0 < completed && total <= completed
  {
    if completed == 0 then NotStarted
    else if completed < total then InProgress
    else Completed
  }

  function ProgressLabel(p: Progress): string {
    match p
    case NotStarted => "Not Started"
    case InProgress => "In Progress"
    case Completed => "Completed"
  }

  function ProgressColor(p: Progress): Color {
    match p
    case NotStarted => Default
    case InProgress => Warning
    case Completed => Success
  }

  /** Distinct statuses have distinct labels, so every count shows exactly one label. */
  lemma ProgressLabelsDistinct(p: Progress, q: Progress)
    requires p != q
    ensures ProgressLabel(p) != ProgressLabel(q)
  {
    var lp, lq := ProgressLabel(p), ProgressLabel(q);
    assert lp[0] != lq[0];
  }

  /** The student's header chip: its label and colour. */
  function HeaderChip(completed: nat, total: nat): (chip: (string, Color))
    ensures chip.0 == "Not Started" <==> completed == 0
    ensures chip.0 == "Completed" <==> completed != 0 && completed == total
    ensures completed != 0 && completed != total ==>
      chip.0 == Text.DecimalString(completed) + "/" + Text.DecimalString(total) + " Completed"
    ensures chip.1 == (if completed == 0 then Default else if completed == total then Success else Warning)
  {
    if completed == 0 then ("Not Started", Default)
    else if completed == total then ("Completed", Success)
    else
      var text := Text.DecimalString(completed) + "/" + Text.DecimalString(total) + " Completed";
      assert text[0] == Text.DecimalString(completed)[0];
      (text, Warning)
  }

  /**
   * With no more submissions than problems the header chip agrees with the
   * status column: the same colour, and "Completed" exactly when the column
   * says completed; in progress, it spells the count out instead.
   */
  lemma HeaderAgreesWithTable(completed: nat, total: nat)
    requires completed <= total
    ensures HeaderChip(completed, total).1 == ProgressColor(TableStatus(completed, total))
    ensures TableStatus(completed, total) != InProgress ==>
      HeaderChip(completed, total).0 == ProgressLabel(TableStatus(completed, total))
  {
  }

  /** More submissions than problems: the column says completed, the header a count in warning colour. */
  lemma HeaderDisagreesWhenOverfull(completed: nat, total: nat)
    requires completed > total
    ensures TableStatus(completed, total) == Completed
    ensures HeaderChip(completed, total).1 == Warning
  {
  }

  /** The teacher table's "Completed Problems" chip colour. */
  function CountChipColor(completed: nat, total: nat): (c: Color)
    ensures c == Success <==> completed == total
    ensures c == Warning <==> completed != total && completed > 0
    ensures c == Default <==> completed != total && completed == 0
  {
    if completed == total then Success else if completed > 0 then Warning else Default
  }

  /** A homework without problems shows its count chip in success colour while the status column says not started. */
  lemma EmptyHomeworkCountChip()
    ensures CountChipColor(0, 0) == Success && TableStatus(0, 0) == NotStarted
  {
  }

  /** `total || 1`: the divisor of the average, never 0. */
  function AverageDivisor(total: nat): (d: nat)
    ensures d >= 1 && (total > 0 ==> d == total) && (total == 0 ==> d == 1)
  {
    if total == 0 then 1 else total
  }

  /** `Math.round(totalScore / (total || 1))`, the percentage shown. */
  function AveragePercent(totalScore: int, total: nat): (r: int)
    ensures 2 * AverageDivisor(total) * r <= 2 * totalScore + AverageDivisor(total) < 2 * AverageDivisor(total) * (r + 1)
  {
    JsMath.RoundRatio(totalScore, AverageDivisor(total))
  }

  /** `getScoreColor` of the exact average. */
  function AverageColor(totalScore: int, total: nat): (c: Color)
    ensures c == Success <==> totalScore >= 80 * AverageDivisor(total)
    ensures c == Warning <==> 50 * AverageDivisor(total) <= totalScore < 80 * AverageDivisor(total)
    ensures c == Error <==> totalScore < 50 * AverageDivisor(total)
  {
    RatioColor(totalScore, AverageDivisor(total))
  }

  /** The encouragement chip under the student's average. */
  function AverageLabel(totalScore: int, total: nat): (text: string)
    ensures text == "Excellent!" <==> totalScore >= 80 * AverageDivisor(total)
    ensures text == "Good progress" <==> 50 * AverageDivisor(total) <= totalScore < 80 * AverageDivisor(total)
    ensures text == "Keep practicing" <==> totalScore < 50 * AverageDivisor(total)
  {
    var d := AverageDivisor(total);
    if totalScore >= 80 * d then "Excellent!"
    else if totalScore >= 50 * d then "Good progress"
    else "Keep practicing"
  }

  /** The label and its colour use the same thresholds. */
  lemma AverageLabelMatchesColor(totalScore: int, total: nat)
    ensures AverageLabel(totalScore, total) == "Excellent!" <==> AverageColor(totalScore, total) == Success
    ensures AverageLabel(totalScore, total) == "Good progress" <==> AverageColor(totalScore, total) == Warning
    ensures AverageLabel(totalScore, total) == "Keep practicing" <==> AverageColor(totalScore, total) == Error
  {
  }

  /**
   * The colour is taken before rounding: a success colour always shows at
   * least 80%, an error colour at most 50%, and 79.5 shows "80%" in warning.
   */
  lemma ShownPercentAndColor(totalScore: int, total: nat)
    ensures AverageColor(totalScore, total) == Success ==> AveragePercent(totalScore, total) >= 80
    ensures AverageColor(totalScore, total) == Error ==> AveragePercent(totalScore, total) <= 50
    ensures AveragePercent(159, 2) == 80 && AverageColor(159, 2) == Warning
  {
    var d := AverageDivisor(total);
    JsMath.RoundWhole(80, d);
    JsMath.RoundWhole(50, d);
    if totalScore >= 80 * d {
      JsMath.RoundMonotone(80 * d, totalScore, d);
    }
    if totalScore < 50 * d {
      JsMath.RoundMonotone(totalScore, 50 * d, d);
    }
    assert JsMath.RoundRatio(159, 2) == 80;
  }

  /** An empty homework never divides by zero: the average is the total score itself. */
  lemma EmptyHomeworkAverage(totalScore: int)
    ensures AveragePercent(totalScore, 0) == totalScore
  {
    JsMath.RoundWhole(totalScore, 1);
  }

  /**
   * `submissions.find((sub) => sub.problem.id === problem.id)`: nothing
   * when no submission is for the problem, otherwise the first one that is.
   */
  function FindSubmission(subs: seq<SubmissionView>, id: Option<int>): (r: Option<SubmissionView>)
    ensures r.None? <==> id !in UserProfilePage.ProblemIds(subs)
    ensures r.Some? ==> r.value == subs[UserProfilePage.FirstAt(subs, id)]
    decreases |subs|
  {
    if subs == [] then None
    else
      assert UserProfilePage.ProblemIds(subs) == [subs[0].problem.id] + UserProfilePage.ProblemIds(subs[1..]);
      if subs[0].problem.id == id then Some(subs[0])
      else FindSubmission(subs[1..], id)
  }

  /** The status of one problem for the student. */
  datatype ProblemState = NotAttempted | Attempted | Solved

  /**
   * The "Problem Status" table: the first submission for the problem
   * decides, "Completed" for a score of exactly 100, "Attempted" otherwise,
   * "Not Started" without one.
   */
  function ProblemStatus(subs: seq<SubmissionView>, id: Option<int>): (st: ProblemState)
    ensures st == NotAttempted <==> id !in UserProfilePage.ProblemIds(subs)
    ensures st == Solved <==>
      id in UserProfilePage.ProblemIds(subs) && subs[UserProfilePage.FirstAt(subs, id)].score == 100
  {
    match FindSubmission(subs, id)
    case None => NotAttempted
    case Some(s) => if s.score == 100 then Solved else Attempted
  }

  /** `submissions.some((submission) => submission.problem.id === problem.id)`. */
  predicate SomeFor(subs: seq<SubmissionView>, id: Option<int>) {
    exists s :: s in subs && s.problem.id == id
  }

  /** The problem card's badge: `some` first, then `find(...)?.score === 100`. */
  function CardStatus(subs: seq<SubmissionView>, id: Option<int>): ProblemState {
    if SomeFor(subs, id) then
      if FindSubmission(subs, id).Some? && FindSubmission(subs, id).value.score == 100 then Solved else Attempted
    else NotAttempted
  }

  /** The card badge and the table row always agree. */
  lemma CardAgreesWithTable(subs: seq<SubmissionView>, id: Option<int>)
    ensures CardStatus(subs, id) == ProblemStatus(subs, id)
  {
    var ids := UserProfilePage.ProblemIds(subs);
    if SomeFor(subs, id) {
      var s :| s in subs && s.problem.id == id;
      var k :| 0 <= k < |subs| && subs[k] == s;
      assert ids[k] == id;
    }
  }

  /**
   * When the list holds at most one submission per problem, as the status
   * the server returns does, a problem is solved exactly when some
   * submission for it scored 100.
   */
  lemma SolvedIffFullScore(subs: seq<SubmissionView>, id: Option<int>)
    requires forall i, j :: 0 <= i < j < |subs| ==> subs[i].problem.id != subs[j].problem.id
    ensures ProblemStatus(subs, id) == Solved <==> exists k :: 0 <= k < |subs| && subs[k].problem.id == id && subs[k].score == 100
  {
    if exists k :: 0 <= k < |subs| && subs[k].problem.id == id && subs[k].score == 100 {
      var k :| 0 <= k < |subs| && subs[k].problem.id == id && subs[k].score == 100;
      assert UserProfilePage.ProblemIds(subs)[k] == id;
      assert UserProfilePage.FirstAt(subs, id) == k;
    }
  }

  /** The labels the card and the table give each status. */
  function CardLabel(st: ProblemState): string {
    match st
    case NotAttempted => "Not Attempted"
    case Attempted => "Attempted"
    case Solved => "Completed"
  }

  function TableLabel(st: ProblemState): string {
    match st
    case NotAttempted => "Not Started"
    case Attempted => "Attempted"
    case Solved => "Completed"
  }

  function ProblemStateColor(st: ProblemState): (c: Color)
    ensures c == Success <==> st == Solved
    ensures c == Warning <==> st == Attempted
    ensures c == Default <==> st == NotAttempted
  {
    match st
    case NotAttempted => Default
    case Attempted => Warning
    case Solved => Success
  }
}
