/**
 * `SubmissionComponent`: the code editor under a problem. Submitting checks
 * for a logged-in user and for code, then posts a `NewSubmissionDTO`; the
 * returned report is coloured line by line, with a "time limit" rule the
 * details dialog does not have.
 */
module SubmissionComponent {
  import opened Wrappers
  import Text
  import opened Dtos
  import opened Palette
  import SubmissionDetailsDialog

  /** `NewSubmissionDTO`: the request body of `/submission/submit`. */
  datatype NewSubmission = NewSubmission(code: string, language: string, userId: int, problemId: int)

  /** The icon beside a report line: a tick, a cross, or none. */
  datatype Icon = NoIcon | CheckIcon | CancelIcon

  /** One rendered report line. */
  datatype ReportEntry = ReportEntry(text: string, color: Color, icon: Icon, key: nat)

  const NotLoggedIn := "Please log in to submit solutions."
  const NoCode := "Please write some code before submitting."
  const SubmitFailed := "Failed to submit your solution. Please try again."

  /** `getUserId`: the stored user's id, or null when no user is stored or the stored text is "null". */
  function GetUserId(stored: Stored): (id: Option<int>)
    ensures stored.UserJson? ==> id == stored.user.id
    ensures !stored.UserJson? ==> id == None
  {
    match LoggedIn(stored)
    case Some(user) => user.id
    case None => None
  }

  /** Whether the line mentions "pass"; failing that, whether it mentions "fail" or "time limit". */
  function LineColor(line: string): (c: Color)
    ensures c == Success <==> Text.Includes(Text.Lower(line), "pass")
    ensures c == Error <==>
      !Text.Includes(Text.Lower(line), "pass")
      && (Text.Includes(Text.Lower(line), "fail") || Text.Includes(Text.Lower(line), "time limit"))
    ensures c == Success || c == Error || c == Default
  {
    var lower := Text.Lower(line);
    if Text.Includes(lower, "pass") then Success
    else if Text.Includes(lower, "fail") || Text.Includes(lower, "time limit") then Error
    else Default
  }

  /** The icon set together with the colour. */
  function LineIcon(c: Color): Icon {
    match c
    case Success => CheckIcon
    case Error => CancelIcon
    case _ => NoIcon
  }

  /**
   * `parseTestResults(report)`: the kept lines as in the details dialog, each
   * with its colour and an icon exactly when the colour is success or error.
   */
  function ParseTestResults(report: string): (entries: seq<ReportEntry>)
    ensures |entries| == |SubmissionDetailsDialog.KeptLines(report)|
    ensures forall i :: 0 <= i < |entries| ==>
      entries[i].text == SubmissionDetailsDialog.KeptLines(report)[i] && entries[i].key == i
      && entries[i].color == LineColor(entries[i].text)
      && (entries[i].icon != NoIcon <==> entries[i].color == Success || entries[i].color == Error)
  {
    var lines := SubmissionDetailsDialog.KeptLines(report);
    seq(|lines|, i requires 0 <= i < |lines| => ReportEntry(lines[i], LineColor(lines[i]), LineIcon(LineColor(lines[i])), i))
  }

  /** On a line that does not mention "time limit" both parsers give the same colour. */
  lemma AgreesWithDetailsDialog(line: string)
    requires !Text.Includes(Text.Lower(line), "time limit")
    ensures LineColor(line) == SubmissionDetailsDialog.LineColor(line)
  {
  }

  /** The evaluators' timeout report is an error here but a plain line in the details dialog. */
  lemma TimeoutReportDiffers()
    ensures LineColor("Time limit exceeded") == Error
    ensures SubmissionDetailsDialog.LineColor("Time limit exceeded") == Default
  {
    var report := "Time limit exceeded";
    TimeoutMentionsTimeLimit();
    SubmissionDetailsDialog.LowerLacksLetter(report, 'p');
    SubmissionDetailsDialog.LowerLacksLetter(report, 'f');
    Text.MissingFirstCharNotIncluded(Text.Lower(report), "pass");
    Text.MissingFirstCharNotIncluded(Text.Lower(report), "fail");
  }

  /** The lower-cased timeout report begins with "time limit". */
  lemma TimeoutMentionsTimeLimit()
    ensures Text.Includes(Text.Lower("Time limit exceeded"), "time limit")
  {
    var report, head := "Time limit exceeded", "Time limit";
    assert report[..10] == head;
    assert Text.Lower(report)[..10] == Text.Lower(head);
    LowerTimeLimit();
    Text.IncludesAt(Text.Lower(report), "time limit", 0);
  }

  lemma LowerTimeLimit()
    ensures Text.Lower("Time limit") == "time limit"
  {
  }

  /**
   * The checks in `handleSubmit`: first a logged-in user with a truthy id,
   * then code that is not all whitespace; only then is a request built.
   */
  function CheckSubmit(stored: Stored, code: string, language: string, problemId: int): (r: Checked<NewSubmission>)
    ensures r == Refused(NotLoggedIn) <==> !Truthy(GetUserId(stored))
    ensures r == Refused(NoCode) <==> Truthy(GetUserId(stored)) && Text.Blank(code)
    ensures r.Proceed? <==> Truthy(GetUserId(stored)) && !Text.Blank(code)
    ensures r.Proceed? ==> r.request == NewSubmission(code, language, GetUserId(stored).value, problemId)
  {
    Text.TrimEmptyIffBlank(code);
    var userId := GetUserId(stored);
    if !Truthy(userId) then Refused(NotLoggedIn)
    else if Text.Trim(code) == "" then Refused(NoCode)
    else Proceed(NewSubmission(code, language, userId.value, problemId))
  }

  /** Without a logged-in user the login message wins, whatever the code. */
  lemma LoginCheckedBeforeCode(stored: Stored, code: string, language: string, problemId: int)
    requires LoggedIn(stored).None?
    ensures CheckSubmit(stored, code, language, problemId) == Refused(NotLoggedIn)
  {
  }

  /** The component's state. */
  class SubmissionForm {
    var code: string
    var language: string
    var isSubmitting: bool
    var error: string
    var submission: Option<SubmissionView>

    /** The initial state: no code, Python selected, no error, no result. */
    constructor ()
      ensures code == "" && language == "python" && !isSubmitting && error == "" && submission == None
    {
      code := "";
      language := "python";
      isSubmitting := false;
      error := "";
      submission := None;
    }

    /**
     * `handleSubmit`. A refused check sets its message and changes nothing
     * else. Otherwise the request is sent; `response` is what the server
     * answered, None when the request failed. Either way submitting ends.
     */
    method HandleSubmit(stored: Stored, problemId: int, response: Option<SubmissionView>) returns (sent: Option<NewSubmission>)
      modifies this`error, this`isSubmitting, this`submission
      ensures code == old(code) && language == old(language)
      ensures CheckSubmit(stored, code, language, problemId).Refused? ==>
        sent == None && error == CheckSubmit(stored, code, language, problemId).message
        && submission == old(submission) && isSubmitting == old(isSubmitting)
      ensures CheckSubmit(stored, code, language, problemId).Proceed? ==>
        sent == Some(CheckSubmit(stored, code, language, problemId).request) && !isSubmitting
        && submission == response && error == (if response.Some? then "" else SubmitFailed)
    {
      var checked := CheckSubmit(stored, code, language, problemId);
      if checked.Refused? {
        error := checked.message;
        return None;
      }
      isSubmitting := true;
      error := "";
      submission := None;
      sent := Some(checked.request);
      if response.Some? {
        submission := response;
      } else {
        error := SubmitFailed;
      }
      isSubmitting := false;
    }
  }
}
