/**
 * `SubmissionDetailsDialog.parseTestResults`: the report is split into
 * lines, blank lines are dropped, and each remaining line is coloured by
 * whether it mentions "pass" or "fail". `SubmissionHistoryComponent` has a
 * copy of the same function, so this module models both.
 */
module SubmissionDetailsDialog {
  import Text
  import Lists
  import Evaluator
  import opened Palette

  /** One rendered report line: its text unchanged, its colour and its React key. */
  datatype ReportEntry = ReportEntry(text: string, color: Color, key: nat)

  /** `line.trim()` is truthy. */
  predicate Kept(line: string) {
    Text.Trim(line) != ""
  }

  /** `report.split("\n").filter((line) => line.trim())`. */
  function KeptLines(report: string): (lines: seq<string>)
    ensures forall l :: l in lines <==> l in Text.Split(report, '\n') && !Text.Blank(l)
  {
    forall l ensures Kept(l) <==> !Text.Blank(l) {
      Text.TrimEmptyIffBlank(l);
    }
    Lists.Filter(Text.Split(report, '\n'), Kept)
  }

  /** A line mentioning "pass" in any case is success; failing that, one mentioning "fail" is error. */
  function LineColor(line: string): (c: Color)
    ensures c == Success <==> Text.Includes(Text.Lower(line), "pass")
    ensures c == Error <==> !Text.Includes(Text.Lower(line), "pass") && Text.Includes(Text.Lower(line), "fail")
    ensures c == Success || c == Error || c == Default
  {
    var lower := Text.Lower(line);
    if Text.Includes(lower, "pass") then Success
    else if Text.Includes(lower, "fail") then Error
    else Default
  }

  /** `parseTestResults(report)`: one entry per kept line, keyed by its position. */
  function ParseTestResults(report: string): (entries: seq<ReportEntry>)
    ensures |entries| == |KeptLines(report)|
    ensures forall i :: 0 <= i < |entries| ==>
      entries[i].text == KeptLines(report)[i] && entries[i].key == i && entries[i].color == LineColor(entries[i].text)
  {
    var lines := KeptLines(report);
    seq(|lines|, i requires 0 <= i < |lines| => ReportEntry(lines[i], LineColor(lines[i]), i))
  }

  /**
   * The entries' texts are exactly the report's non-blank lines: in their
   * order in the report, and each as many times as the report holds it.
   */
  lemma EntriesAreNonBlankLinesInOrder(report: string)
    ensures Lists.Subsequence(KeptLines(report), Text.Split(report, '\n'))
    ensures forall l :: multiset(KeptLines(report))[l] == if Text.Blank(l) then 0 else multiset(Text.Split(report, '\n'))[l]
    ensures forall i :: 0 <= i < |ParseTestResults(report)| ==> !Text.Blank(ParseTestResults(report)[i].text)
    ensures forall l :: l in Text.Split(report, '\n') && !Text.Blank(l) ==> exists i :: 0 <= i < |ParseTestResults(report)| && ParseTestResults(report)[i].text == l
  {
    Lists.FilterIsSubsequence(Text.Split(report, '\n'), Kept);
    forall l ensures multiset(KeptLines(report))[l] == if Text.Blank(l) then 0 else multiset(Text.Split(report, '\n'))[l] {
      KeptLineCount(report, l);
    }
    forall l | l in Text.Split(report, '\n') && !Text.Blank(l)
      ensures exists i :: 0 <= i < |ParseTestResults(report)| && ParseTestResults(report)[i].text == l
    {
      NonBlankLineHasEntry(report, l);
    }
    EntryTextsAreNonBlank(report);
  }

  /** No entry's text is blank. */
  lemma EntryTextsAreNonBlank(report: string)
    ensures forall i :: 0 <= i < |ParseTestResults(report)| ==> !Text.Blank(ParseTestResults(report)[i].text)
  {
    var entries := ParseTestResults(report);
    forall i | 0 <= i < |entries|
      ensures !Text.Blank(entries[i].text)
    {
      assert entries[i].text in KeptLines(report);
    }
  }

  /** A non-blank line of the report is the text of some entry. */
  lemma NonBlankLineHasEntry(report: string, l: string)
    requires l in Text.Split(report, '\n') && !Text.Blank(l)
    ensures exists i :: 0 <= i < |ParseTestResults(report)| && ParseTestResults(report)[i].text == l
  {
    var entries := ParseTestResults(report);
    var lines := KeptLines(report);
    var i :| 0 <= i < |lines| && lines[i] == l;
    assert entries[i].text == l;
  }

  /** A line occurs among the kept lines as often as in the report, or not at all when it is blank. */
  lemma KeptLineCount(report: string, l: string)
    ensures multiset(KeptLines(report))[l] == if Text.Blank(l) then 0 else multiset(Text.Split(report, '\n'))[l]
  {
    Lists.FilterMultiplicity(Text.Split(report, '\n'), Kept, l);
    Text.TrimEmptyIffBlank(l);
  }

  /** A report made of whitespace only, the empty report among them, yields no entries. */
  lemma BlankReportHasNoEntries(report: string)
    requires Text.Blank(report)
    ensures ParseTestResults(report) == []
  {
    var parts := Text.Split(report, '\n');
    Text.SplitOfBlankIsBlank(report, '\n');
    forall k | 0 <= k < |parts|
      ensures !Kept(parts[k])
    {
      Text.TrimEmptyIffBlank(parts[k]);
    }
    Lists.FilterDropsAll(parts, Kept);
  }

  /** "pass" decides even when the line also says "fail". */
  lemma PassWinsOverFail(line: string)
    requires Text.Includes(Text.Lower(line), "fail")
    ensures LineColor(line) == Success <==> Text.Includes(Text.Lower(line), "pass")
    ensures LineColor(line) == Error <==> !Text.Includes(Text.Lower(line), "pass")
  {
  }

  /** A lower-case word found in `s` is found in `Lower(s)` at the same place. */
  lemma LowerKeepsWord(s: string, w: string, i: nat)
    requires i + |w| <= |s| && s[i..i + |w|] == w
    requires forall k :: 0 <= k < |w| ==> !('A' <= w[k] <= 'Z')
    ensures Text.Includes(Text.Lower(s), w)
  {
    var lower := Text.Lower(s);
    assert lower[i..i + |w|] == w;
    Text.IncludesAt(lower, w, i);
  }

  /** A letter that occurs in `s` in neither case does not occur in `Lower(s)`. */
  lemma LowerLacksLetter(s: string, c: char)
    requires 'a' <= c <= 'z'
    requires forall k :: 0 <= k < |s| ==> s[k] != c && s[k] != (c as int - 32) as char
    ensures c !in Text.Lower(s)
  {
  }

  /** Digits contain no letter. */
  lemma DigitsAreNotLetters(d: string, c: char)
    requires forall k :: 0 <= k < |d| ==> '0' <= d[k] <= '9'
    requires 'A' <= c <= 'z'
    ensures c !in d
  {
  }

  /** A passed test's line is success. */
  lemma PassedCaseLineIsSuccess(index: nat)
    ensures LineColor(Evaluator.CaseLine(index, true)) == Success
  {
    var d := Text.DecimalString(index);
    var s := Evaluator.CaseLine(index, true);
    assert s == "Test case " + d + ": pass";
    var at := 10 + |d| + 2;
    assert s[at..at + 4] == "pass";
    LowerKeepsWord(s, "pass", at);
  }

  /** A failed test's line is error: it says "failed" and has no 'p' at all. */
  lemma FailedCaseLineIsError(index: nat)
    ensures LineColor(Evaluator.CaseLine(index, false)) == Error
  {
    var d := Text.DecimalString(index);
    var s := Evaluator.CaseLine(index, false);
    assert s == "Test case " + d + ": failed";
    var at := 10 + |d| + 2;
    assert s[at..at + 4] == "fail";
    LowerKeepsWord(s, "fail", at);
    DigitsAreNotLetters(d, 'p');
    DigitsAreNotLetters(d, 'P');
    forall k | 0 <= k < |s|
      ensures s[k] != 'p' && s[k] != 'P'
    {
      if 10 <= k < 10 + |d| {
        assert s[k] == d[k - 10];
      }
    }
    LowerLacksLetter(s, 'p');
    Text.MissingFirstCharNotIncluded(Text.Lower(s), "pass");
  }

  /** The closing count line has neither a 'p' nor an 'f', so it is default. */
  lemma CountLineIsDefault(passed: nat, total: nat)
    ensures LineColor(Evaluator.CountLine(passed, total)) == Default
  {
    var d1 := Text.DecimalString(passed);
    var d2 := Text.DecimalString(total);
    var s := Evaluator.CountLine(passed, total);
    assert s == "Test case count: " + d1 + "/" + d2;
    DigitsAreNotLetters(d1, 'p');
    DigitsAreNotLetters(d1, 'P');
    DigitsAreNotLetters(d1, 'f');
    DigitsAreNotLetters(d1, 'F');
    DigitsAreNotLetters(d2, 'p');
    DigitsAreNotLetters(d2, 'P');
    DigitsAreNotLetters(d2, 'f');
    DigitsAreNotLetters(d2, 'F');
    forall k | 0 <= k < |s|
      ensures s[k] != 'p' && s[k] != 'P' && s[k] != 'f' && s[k] != 'F'
    {
      if 17 <= k < 17 + |d1| {
        assert s[k] == d1[k - 17];
      } else if 18 + |d1| <= k {
        assert s[k] == d2[k - 18 - |d1|];
      }
    }
    LowerLacksLetter(s, 'p');
    LowerLacksLetter(s, 'f');
    Text.MissingFirstCharNotIncluded(Text.Lower(s), "pass");
    Text.MissingFirstCharNotIncluded(Text.Lower(s), "fail");
  }

  /** No line the evaluators write contains a newline, and none is blank. */
  lemma ReportLinesAreSingleNonBlankLines(runs: seq<Evaluator.TestRun>)
    ensures forall k :: 0 <= k < |Evaluator.ReportLines(runs)| ==>
      '\n' !in Evaluator.ReportLines(runs)[k] && Kept(Evaluator.ReportLines(runs)[k])
  {
    var lines := Evaluator.ReportLines(runs);
    forall k | 0 <= k < |lines|
      ensures '\n' !in lines[k] && Kept(lines[k])
    {
      if k < |runs| {
        assert lines[k] == Evaluator.CaseLine(k, runs[k] == Evaluator.Finished(true));
        CaseLineIsSingleNonBlankLine(k, runs[k] == Evaluator.Finished(true));
      } else {
        assert lines[k] == Evaluator.CountLine(Evaluator.PassedCount(runs), |runs|);
        CountLineIsSingleNonBlankLine(Evaluator.PassedCount(runs), |runs|);
      }
    }
  }

  lemma CaseLineIsSingleNonBlankLine(index: nat, passed: bool)
    ensures '\n' !in Evaluator.CaseLine(index, passed) && Kept(Evaluator.CaseLine(index, passed))
  {
    var line := Evaluator.CaseLine(index, passed);
    var d := Text.DecimalString(index);
    assert line == "Test case " + d + (if passed then ": pass" else ": failed");
    assert '\n' !in d;
    StartsWithLetterIsKept(line);
  }

  lemma CountLineIsSingleNonBlankLine(passed: nat, total: nat)
    ensures '\n' !in Evaluator.CountLine(passed, total) && Kept(Evaluator.CountLine(passed, total))
  {
    var line := Evaluator.CountLine(passed, total);
    var d1, d2 := Text.DecimalString(passed), Text.DecimalString(total);
    assert line == "Test case count: " + d1 + "/" + d2;
    assert '\n' !in d1 && '\n' !in d2;
    StartsWithLetterIsKept(line);
  }

  /** A line that begins with 'T' is not blank, so the filter keeps it. */
  lemma StartsWithLetterIsKept(line: string)
    requires |line| > 0 && line[0] == 'T'
    ensures Kept(line)
  {
    assert !Text.Blank(line);
    Text.TrimEmptyIffBlank(line);
  }

  /**
   * On a complete evaluator report there is one entry per test case and one
   * for the count line: test case i is success when it passed and error when
   * it failed, and the count line is default.
   */
  lemma EvaluatorReportColors(runs: seq<Evaluator.TestRun>)
    ensures |ParseTestResults(Evaluator.CompleteReport(runs))| == |runs| + 1
    ensures forall i :: 0 <= i < |runs| ==>
      ParseTestResults(Evaluator.CompleteReport(runs))[i].color == (if runs[i] == Evaluator.Finished(true) then Success else Error)
    ensures ParseTestResults(Evaluator.CompleteReport(runs))[|runs|].color == Default
  {
    var lines := Evaluator.ReportLines(runs);
    var report := Evaluator.CompleteReport(runs);
    ReportLinesAreSingleNonBlankLines(runs);
    Evaluator.LinesIsJoin(lines);
    Text.SplitJoin(lines + [""], '\n');
    assert Text.Split(report, '\n') == lines + [""];
    Lists.FilterAppend(lines, [""], Kept);
    Lists.FilterKeepsAll(lines, Kept);
    assert !Kept("");
    assert KeptLines(report) == lines;
    var entries := ParseTestResults(report);
    forall i | 0 <= i < |runs|
      ensures entries[i].color == (if runs[i] == Evaluator.Finished(true) then Success else Error)
    {
      if runs[i] == Evaluator.Finished(true) {
        PassedCaseLineIsSuccess(i);
      } else {
        FailedCaseLineIsError(i);
      }
    }
    CountLineIsDefault(Evaluator.PassedCount(runs), |runs|);
  }
}
