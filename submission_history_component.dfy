/**
 * `SubmissionHistoryComponent`: the logged-in user's submissions for one
 * problem, numbered from the newest, with a details dialog. Its
 * `parseTestResults` is the details dialog's, modelled in
 * `SubmissionDetailsDialog`.
 */
module SubmissionHistoryComponent {
  import opened Wrappers
  import opened Dtos

  const NotLoggedIn := "Please log in to view submissions"
  const LoadFailed := "Failed to load submissions. Please try again later."

  /** The "Submission #" column: row `index` shows `submissions.length - index`. */
  function RowLabels(n: nat): (labels: seq<int>)
    ensures |labels| == n
    ensures forall i :: 0 <= i < n ==> labels[i] == n - i
  {
    seq(n, i requires 0 <= i < n => n - i)
  }

  /** The labels count down from n to 1: every one of 1..n appears once, in strictly decreasing order. */
  lemma RowLabelsCountDown(n: nat)
    ensures forall i, j :: 0 <= i < j < n ==> RowLabels(n)[i] > RowLabels(n)[j]
    ensures forall k :: 1 <= k <= n <==> k in RowLabels(n)
  {
    var labels := RowLabels(n);
    forall k | 1 <= k <= n
      ensures k in labels
    {
      assert labels[n - k] == k;
    }
  }

  /** The status chip: "Accepted" for a full score, "Failed" for anything else. */
  function StatusLabel(score: int): (status: string)
    ensures status == "Accepted" <==> score == 100
    ensures status == "Failed" <==> score != 100
  {
    if score == 100 then "Accepted" else "Failed"
  }

  /** The request `fetchSubmissions` sends: `/user/submissions/{user.id}/{problemId}`. */
  datatype SubmissionsRequest = SubmissionsRequest(userId: Option<int>, problemId: int)

  /** The component's state. */
  class SubmissionHistory {
    var submissions: seq<SubmissionView>
    var isLoading: bool
    var error: string
    var selected: Option<SubmissionView>
    var isDialogOpen: bool
    var complexity: Option<string>

    /** The initial state: loading, nothing selected, dialog closed. */
    constructor ()
      ensures submissions == [] && isLoading && error == "" && selected == None && !isDialogOpen && complexity == None
    {
      submissions := [];
      isLoading := true;
      error := "";
      selected := None;
      isDialogOpen := false;
      complexity := None;
    }

    /**
     * `fetchSubmissions`: with no logged-in user the error is set and nothing
     * is requested. Otherwise the user's submissions are requested;
     * `response` is the answer, None when the request failed.
     */
    method FetchSubmissions(stored: Stored, problemId: int, response: Option<seq<SubmissionView>>)
      returns (sent: Option<SubmissionsRequest>)
      modifies this`isLoading, this`error, this`submissions
      ensures !isLoading
      ensures selected == old(selected) && isDialogOpen == old(isDialogOpen) && complexity == old(complexity)
      ensures LoggedIn(stored).None? ==> sent == None && error == NotLoggedIn && submissions == old(submissions)
      ensures LoggedIn(stored).Some? ==>
        sent == Some(SubmissionsRequest(stored.user.id, problemId))
        && (response.Some? ==> submissions == response.value && error == "")
        && (response.None? ==> submissions == old(submissions) && error == LoadFailed)
    {
      isLoading := true;
      error := "";
      var user := LoggedIn(stored);
      if user.None? {
        error := NotLoggedIn;
        isLoading := false;
        return None;
      }
      sent := Some(SubmissionsRequest(user.value.id, problemId));
      if response.Some? {
        submissions := response.value;
      } else {
        error := LoadFailed;
      }
      isLoading := false;
    }

    /** `handleViewSubmission`: select the submission, forget the old complexity, open the dialog. */
    method ViewSubmission(submission: SubmissionView)
      modifies this`selected, this`complexity, this`isDialogOpen
      ensures selected == Some(submission) && complexity == None && isDialogOpen
      ensures submissions == old(submissions) && isLoading == old(isLoading) && error == old(error)
    {
      selected := Some(submission);
      complexity := None;
      isDialogOpen := true;
    }

    /** `handleCloseDialog`: clear the selection and the complexity, close the dialog. */
    method CloseDialog()
      modifies this`selected, this`complexity, this`isDialogOpen
      ensures selected == None && complexity == None && !isDialogOpen
      ensures submissions == old(submissions) && isLoading == old(isLoading) && error == old(error)
    {
      selected := None;
      complexity := None;
      isDialogOpen := false;
    }
  }
}
