/**
 * `SubmissionService.submit`: look up the problem and the user, evaluate the
 * code, turn the passed and total test counts into a 0-100 score, and store
 * the submission with the evaluator's report.
 */
module SubmissionService {
  import opened Wrappers
  import opened Model
  import opened Evaluator

  /** Java's `(int)` cast of the quotient `num / den`, which truncates toward zero. */
  function TruncatedQuotient(num: int, den: int): int
    requires den > 0
  {
    if num >= 0 then num / den else -((-num) / den)
  }

  /**
   * The score formula: `passed / tests * 100`, truncated, when the test count
   * is present and positive and the passed count is present; 0 otherwise.
   */
  function Score(noOfTests: Option<int>, noOfPassed: Option<int>): int {
    if noOfTests.Some? && noOfTests.value > 0 && noOfPassed.Some? then
      TruncatedQuotient(noOfPassed.value * 100, noOfTests.value)
    else 0
  }

  /** Missing or non-positive counts give 0; otherwise the score is the whole part of the percentage. */
  lemma ScoreIsTruncatedPercentage(noOfTests: Option<int>, noOfPassed: Option<int>)
    ensures noOfTests.None? || noOfTests.value <= 0 || noOfPassed.None? ==> Score(noOfTests, noOfPassed) == 0
    ensures noOfTests.Some? && noOfTests.value > 0 && noOfPassed.Some? && noOfPassed.value >= 0 ==>
      var t, p, s := noOfTests.value, noOfPassed.value, Score(noOfTests, noOfPassed);
      s * t <= 100 * p < (s + 1) * t
  {
  }

  /** With `0 <= passed <= tests` the score lies in 0..100, and all tests passing gives exactly 100. */
  lemma ScoreInRange(tests: int, passed: int)
    requires 0 <= passed <= tests
    ensures 0 <= Score(Some(tests), Some(passed)) <= 100
    ensures passed == tests && tests > 0 ==> Score(Some(tests), Some(passed)) == 100
  {
    if tests > 0 {
      DivMonotone(passed * 100, tests * 100, tests);
      assert (tests * 100) / tests == 100;
    }
  }

  /** Passing more tests out of the same total never lowers the score. */
  lemma ScoreMonotone(tests: int, p1: int, p2: int)
    requires 0 <= p1 <= p2
    ensures Score(Some(tests), Some(p1)) <= Score(Some(tests), Some(p2))
  {
    if tests > 0 {
      DivMonotone(p1 * 100, p2 * 100, tests);
    }
  }

  lemma DivMonotone(a: int, b: int, d: int)
    requires 0 <= a <= b && d > 0
    ensures a / d <= b / d
  {
    var qa, qb := a / d, b / d;
    assert qa * d <= a;
    assert b < (qb + 1) * d;
    MulCancel(qa, qb + 1, d);
  }

  lemma MulCancel(x: int, y: int, d: int)
    requires d > 0 && x * d < y * d
    ensures x < y
  {
  }

  /** The request body of `submit`. */
  datatype NewSubmission = NewSubmission(userId: int, problemId: int, code: string, language: string)

  /**
   * The repositories `submit` uses: each problem's test cases, the ids of the
   * existing users, and the submission table.
   */
  class SubmissionStore {
    var problemTests: map<int, seq<TestCase>>
    var users: set<int>
    var submissions: seq<Submission>

    constructor (problemTests: map<int, seq<TestCase>>, users: set<int>, submissions: seq<Submission>)
      ensures this.problemTests == problemTests && this.users == users && this.submissions == submissions
    {
      this.problemTests := problemTests;
      this.users := users;
      this.submissions := submissions;
    }

    /**
     * `submit`. The evaluators are parameters: `python` and `cpp` give what
     * each would return for the code and the problem's tests. `newId` is the
     * generated key and `now` the time the row is persisted.
     */
    method Submit(request: NewSubmission,
                  python: (string, seq<TestCase>) -> EvaluationResult,
                  cpp: (string, seq<TestCase>) -> EvaluationResult,
                  newId: int, now: int) returns (r: Outcome<Submission>)
      modifies this
      ensures problemTests == old(problemTests) && users == old(users)
      ensures request.problemId !in problemTests ==>
        r == Thrown("Problem not found") && submissions == old(submissions)
      ensures request.problemId in problemTests && request.userId !in users ==>
        r == Thrown("User not found") && submissions == old(submissions)
      ensures request.problemId in problemTests && request.userId in users
              && request.language != "python" && request.language != "cpp" ==>
        r.Thrown? && submissions == old(submissions)
      ensures request.problemId in problemTests && request.userId in users
              && (request.language == "python" || request.language == "cpp") ==>
        var tests := problemTests[request.problemId];
        var result := if request.language == "python" then python(request.code, tests) else cpp(request.code, tests);
        var s := Submission(newId, request.userId, request.problemId, Score(result.noOfTests, result.noOfPassed),
                            now, request.code, request.language, result.report);
        r == Value(s) && submissions == old(submissions) + [s]
    {
      if request.problemId !in problemTests {
        return Thrown("Problem not found");
      }
      if request.userId !in users {
        return Thrown("User not found");
      }
      var tests := problemTests[request.problemId];
      var result := Dispatch(request.language, python(request.code, tests), cpp(request.code, tests));
      if result.None? {
        // `result.noOfTests()` on the null result
        return Thrown("NullPointerException");
      }
      var score := Score(result.value.noOfTests, result.value.noOfPassed);
      var s := Submission(newId, request.userId, request.problemId, score, now,
                          request.code, request.language, result.value.report);
      submissions := submissions + [s];
      r := Value(s);
    }
  }

  /** A completed evaluation stores a score in 0..100 that is 100 exactly when every test passed. */
  lemma CompletedEvaluationScore(runs: seq<TestRun>)
    requires TimedOut !in runs && |runs| > 0
    ensures var s := Score(Some(|runs|), Some(PassedCount(runs)));
      0 <= s <= 100 && (s == 100 <==> PassedCount(runs) == |runs|)
  {
    var t, p := |runs|, PassedCount(runs);
    ScoreInRange(t, p);
    ScoreIsTruncatedPercentage(Some(t), Some(p));
  }
}
