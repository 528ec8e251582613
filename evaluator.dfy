/**
 * The code evaluators: `SubmissionEvaluator` picks an evaluator by language,
 * and the Python and C++ evaluators run the code once per test case and
 * write the same line-per-test report. Running a process is not modelled:
 * each test run's outcome (matched, mismatched, timed out) is an input.
 */
module Evaluator {
  import opened Wrappers
  import Text

  /** `EvaluationResult`; the counts are null when evaluation stopped early. */
  datatype EvaluationResult = EvaluationResult(
    success: bool,
    report: string,
    noOfTests: Option<int>,
    noOfPassed: Option<int>)

  /** A test case as the evaluators receive it. */
  datatype TestCase = TestCase(input: string, output: string)

  /** What running the code on one test case gave: whether the trimmed output matched, or a timeout. */
  datatype TestRun = Finished(matched: bool) | TimedOut

  /** The report line of the test case at `index`. */
  function CaseLine(index: nat, passed: bool): string {
    "Test case " + Text.DecimalString(index) + (if passed then ": pass" else ": failed")
  }

  /** The closing `Test case count: p/n` line. */
  function CountLine(passed: nat, total: nat): string {
    "Test case count: " + Text.DecimalString(passed) + "/" + Text.DecimalString(total)
  }

  /** The number of runs that matched. */
  function PassedCount(runs: seq<TestRun>): (n: nat)
    ensures n <= |runs|
    decreases |runs|
  {
    if runs == [] then 0
    else PassedCount(runs[..|runs| - 1]) + (if runs[|runs| - 1] == Finished(true) then 1 else 0)
  }

  /** One report line per test case, in order. */
  function CaseLines(runs: seq<TestRun>): (lines: seq<string>)
    ensures |lines| == |runs|
    ensures forall i :: 0 <= i < |runs| ==> lines[i] == CaseLine(i, runs[i] == Finished(true))
    decreases |runs|
  {
    if runs == [] then []
    else CaseLines(runs[..|runs| - 1]) + [CaseLine(|runs| - 1, runs[|runs| - 1] == Finished(true))]
  }

  /** The lines of a complete report: one per test case, then the count line. */
  function ReportLines(runs: seq<TestRun>): seq<string> {
    CaseLines(runs) + [CountLine(PassedCount(runs), |runs|)]
  }

  /** Text built by a `StringBuilder` that appends each line followed by "\n". */
  function Lines(lines: seq<string>): string
    decreases |lines|
  {
    if lines == [] then "" else Lines(lines[..|lines| - 1]) + lines[|lines| - 1] + "\n"
  }

  /** Appending every line with its newline is joining the lines and a final empty one on "\n". */
  lemma LinesIsJoin(lines: seq<string>)
    ensures Lines(lines) == Text.Join(lines + [""], '\n')
  {
    if lines != [] {
      LinesIsJoinNonEmpty(lines);
      JoinSnoc(lines, "");
    }
  }

  lemma {:induction false} LinesIsJoinNonEmpty(lines: seq<string>)
    requires |lines| >= 1
    ensures Lines(lines) == Text.Join(lines, '\n') + "\n"
    decreases |lines|
  {
    var prefix := lines[..|lines| - 1];
    var last := lines[|lines| - 1];
    if prefix != [] {
      LinesIsJoinNonEmpty(prefix);
      assert lines == prefix + [last];
      JoinSnoc(prefix, last);
    }
  }

  lemma {:induction false} JoinSnoc(parts: seq<string>, s: string)
    requires |parts| >= 1
    ensures Text.Join(parts + [s], '\n') == Text.Join(parts, '\n') + "\n" + s
    decreases |parts|
  {
    if |parts| > 1 {
      assert (parts + [s])[1..] == parts[1..] + [s];
      JoinSnoc(parts[1..], s);
    }
  }

  /** The report of a run where every test finished. */
  function CompleteReport(runs: seq<TestRun>): string {
    Lines(ReportLines(runs))
  }

  /**
   * `PhytonEvaluator.evaluate` / `CPPEvaluator.evaluate` after compilation:
   * a timeout on any test ends evaluation with "Time limit exceeded" and no
   * counts; otherwise the report lists every test case and the passed count.
   */
  method Evaluate(runs: seq<TestRun>) returns (result: EvaluationResult)
    ensures TimedOut in runs ==> result == EvaluationResult(false, "Time limit exceeded", None, None)
    ensures TimedOut !in runs ==>
      result == EvaluationResult(true, CompleteReport(runs), Some(|runs|), Some(PassedCount(runs)))
  {
    var report := "";
    var passed := 0;
    var index := 0;
    while index < |runs|
      invariant 0 <= index <= |runs|
      invariant TimedOut !in runs[..index]
      invariant passed == PassedCount(runs[..index])
      invariant report == Lines(CaseLines(runs[..index]))
    {
      match runs[index]
      case TimedOut =>
        return EvaluationResult(false, "Time limit exceeded", None, None);
      case Finished(matched) =>
        RecordedRun(runs, index);
        if !matched {
          report := report + CaseLine(index, false) + "\n";
        } else {
          report := report + CaseLine(index, true) + "\n";
          passed := passed + 1;
        }
      index := index + 1;
    }
    assert runs[..index] == runs;
    CountLineCloses(runs);
    report := report + CountLine(passed, |runs|) + "\n";
    result := EvaluationResult(true, report, Some(|runs|), Some(passed));
  }

  /** One more finished run adds its case line and, when it matched, one to the count. */
  lemma RecordedRun(runs: seq<TestRun>, index: nat)
    requires index < |runs| && runs[index].Finished? && TimedOut !in runs[..index]
    ensures TimedOut !in runs[..index + 1]
    ensures PassedCount(runs[..index + 1]) == PassedCount(runs[..index]) + (if runs[index].matched then 1 else 0)
    ensures Lines(CaseLines(runs[..index + 1])) == Lines(CaseLines(runs[..index])) + CaseLine(index, runs[index].matched) + "\n"
  {
    assert runs[..index + 1][..index] == runs[..index];
    var done := CaseLines(runs[..index]);
    assert (done + [CaseLine(index, runs[index].matched)])[..|done|] == done;
  }

  /** After every case line, the count line completes the report. */
  lemma CountLineCloses(runs: seq<TestRun>)
    ensures CompleteReport(runs) == Lines(CaseLines(runs)) + CountLine(PassedCount(runs), |runs|) + "\n"
  {
    var lines := ReportLines(runs);
    assert lines[..|runs|] == CaseLines(runs);
  }

  /** When every test matched, the passed count is the number of tests. */
  lemma {:induction false} AllMatchedMeansAllPassed(runs: seq<TestRun>)
    ensures (forall i :: 0 <= i < |runs| ==> runs[i] == Finished(true)) ==> PassedCount(runs) == |runs|
    decreases |runs|
  {
    if runs != [] {
      AllMatchedMeansAllPassed(runs[..|runs| - 1]);
    }
  }

  /** `SubmissionEvaluator.evaluate`: only "python" and "cpp" have an evaluator; any other language yields null. */
  function Dispatch(language: string, python: EvaluationResult, cpp: EvaluationResult): (r: Option<EvaluationResult>)
    ensures r.Some? <==> language == "python" || language == "cpp"
    ensures language == "python" ==> r == Some(python)
    ensures language == "cpp" ==> r == Some(cpp)
  {
    if language == "python" then Some(python)
    else if language == "cpp" then Some(cpp)
    else None
  }
}
