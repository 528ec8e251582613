/**
 * `AddProblemPage`: the form an author fills to add a problem. Test cases
 * are drafted one at a time and appended to the form; topics are chosen by
 * title; an uploaded image is checked for its type and size first.
 */
module AddProblemPage {
  import opened Wrappers
  import opened Dtos
  import Text
  import Lists

  const NotAnImage := "Please select an image file"
  const ImageTooLarge := "Image size should not exceed 5MB"
  const AddFailed := "Failed to add problem. Please try again."
  /** 5 MB, the largest accepted image. */
  const MaxImageBytes := 5 * 1024 * 1024

  /** `ProblemDTO` as the form holds it. */
  datatype ProblemForm = ProblemForm(
    id: Option<int>,
    title: string,
    author: string,
    description: string,
    constraints: string,
    difficulty: string,
    image: Option<string>,
    tests: seq<TestCaseView>,
    topics: seq<TopicView>,
    officialSolution: Option<string>)

  /** `${user.firstName} ${user.lastName}` of a logged-in user, else "". */
  function AuthorName(stored: Stored): (name: string)
    ensures stored.UserJson? ==> name == stored.user.firstName + " " + stored.user.lastName
    ensures !stored.UserJson? ==> name == ""
  {
    match LoggedIn(stored)
    case None => ""
    case Some(user) => user.firstName + " " + user.lastName
  }

  /** The empty form, with the author pre-filled from the session and difficulty "medium". */
  function EmptyForm(stored: Stored): (f: ProblemForm)
    ensures f.tests == [] && f.topics == [] && f.image == None && f.difficulty == "medium"
    ensures f.author == AuthorName(stored) && f.title == "" && f.description == ""
  {
    ProblemForm(None, "", AuthorName(stored), "", "", "medium", None, [], [], None)
  }

  /** The blank test-case draft: no input, no output, marked as an example. */
  const BlankDraft := TestCaseView(None, "", "", true)

  /** `selectedTopicTitles.includes(topic.title)`. */
  function TitleSelected(titles: seq<string>): TopicView -> bool {
    (t: TopicView) => t.title in titles
  }

  /** The available topics whose title was selected, in available order. */
  function TopicsTitled(available: seq<TopicView>, titles: seq<string>): (chosen: seq<TopicView>)
    ensures forall t :: t in chosen <==> t in available && t.title in titles
  {
    Lists.Filter(available, TitleSelected(titles))
  }

  /** The chosen topics keep the available order, and an empty title selection chooses no topic. */
  lemma TopicsKeepAvailableOrder(available: seq<TopicView>, titles: seq<string>)
    ensures Lists.Subsequence(TopicsTitled(available, titles), available)
    ensures |TopicsTitled(available, titles)| <= |available|
    ensures titles == [] ==> TopicsTitled(available, titles) == []
  {
    Lists.FilterIsSubsequence(available, TitleSelected(titles));
    if titles == [] {
      Lists.FilterDropsAll(available, TitleSelected(titles));
    }
  }

  /** `tests.filter((_, i) => i !== index)`. */
  function RemoveAt<T>(s: seq<T>, index: int): (r: seq<T>)
    ensures |r| == if 0 <= index < |s| then |s| - 1 else |s|
    decreases |s|
  {
    if s == [] then []
    else (if index == 0 then [] else [s[0]]) + RemoveAt(s[1..], index - 1)
  }

  /**
   * Removing an index in range splices that element out, the others keeping
   * their order; any other index removes nothing.
   */
  lemma {:induction false} RemoveAtSplices<T>(s: seq<T>, index: int)
    ensures 0 <= index < |s| ==> RemoveAt(s, index) == s[..index] + s[index + 1..]
    ensures !(0 <= index < |s|) ==> RemoveAt(s, index) == s
  {
    if 0 <= index < |s| {
      RemoveInRange(s, index);
    } else {
      RemoveOutOfRange(s, index);
    }
  }

  lemma {:induction false} RemoveInRange<T>(s: seq<T>, index: int)
    requires 0 <= index < |s|
    ensures RemoveAt(s, index) == s[..index] + s[index + 1..]
    decreases |s|
  {
    if index == 0 {
      RemoveOutOfRange(s[1..], -1);
      assert RemoveAt(s, 0) == s[1..];
    } else {
      var rest := s[1..];
      RemoveInRange(rest, index - 1);
      assert RemoveAt(s, index) == [s[0]] + RemoveAt(rest, index - 1);
      Splice(s, index);
    }
  }

  /** Putting the first element back in front of a splice of the rest. */
  lemma Splice<T>(s: seq<T>, index: int)
    requires 0 < index < |s|
    ensures [s[0]] + (s[1..][..index - 1] + s[1..][index..]) == s[..index] + s[index + 1..]
  {
    assert [s[0]] + s[1..][..index - 1] == s[..index];
    assert s[1..][index..] == s[index + 1..];
  }

  lemma {:induction false} RemoveOutOfRange<T>(s: seq<T>, index: int)
    requires !(0 <= index < |s|)
    ensures RemoveAt(s, index) == s
    decreases |s|
  {
    if s != [] {
      RemoveOutOfRange(s[1..], index - 1);
      assert [s[0]] + s[1..] == s;
    }
  }

  /** An uploaded file as the checks see it. */
  datatype ImageFile = ImageFile(mimeType: string, size: nat)

  /** The image checks: no file does nothing, then the type, then the size. */
  datatype ImageCheck = NoFile | Rejected(message: string) | Accepted

  function CheckImage(file: Option<ImageFile>): (c: ImageCheck)
    ensures c == NoFile <==> file.None?
    ensures c == Rejected(NotAnImage) <==> file.Some? && !Text.StartsWith(file.value.mimeType, "image/")
    ensures c == Rejected(ImageTooLarge) <==>
      file.Some? && Text.StartsWith(file.value.mimeType, "image/") && file.value.size > MaxImageBytes
    ensures c == Accepted <==>
      file.Some? && Text.StartsWith(file.value.mimeType, "image/") && file.value.size <= MaxImageBytes
  {
    match file
    case None => NoFile
    case Some(f) =>
      if !Text.StartsWith(f.mimeType, "image/") then Rejected(NotAnImage)
      else if f.size > MaxImageBytes then Rejected(ImageTooLarge)
      else Accepted
  }

  /** The 5 MB bound is inclusive: exactly 5 MB is accepted, one byte more is not. */
  lemma ImageSizeBoundary()
    ensures CheckImage(Some(ImageFile("image/png", 5242880))) == Accepted
    ensures CheckImage(Some(ImageFile("image/png", 5242881))) == Rejected(ImageTooLarge)
    ensures CheckImage(Some(ImageFile("text/plain", 1))) == Rejected(NotAnImage)
  {
    assert "image/png"[..6] == "image/";
    assert "text/plain"[0] != "image/"[0];
  }

  /** The submit button is disabled while saving and while there is no test case. */
  predicate SubmitDisabled(isLoading: bool, form: ProblemForm) {
    isLoading || |form.tests| == 0
  }

  /** The form's state. */
  class ProblemEditor {
    var stored: Stored
    var form: ProblemForm
    var availableTopics: seq<TopicView>
    var selectedTopics: seq<string>
    var newTestCase: TestCaseView
    var previewImage: Option<string>
    var error: string
    var isLoading: bool
    var success: bool

    /** The mounted page: the empty form with the session's author and the fetched topics. */
    constructor (stored: Stored, topics: seq<TopicView>)
      ensures this.stored == stored && form == EmptyForm(stored) && availableTopics == topics
      ensures selectedTopics == [] && newTestCase == BlankDraft && previewImage == None
      ensures error == "" && !isLoading && !success
    {
      this.stored := stored;
      form := EmptyForm(stored);
      availableTopics := topics;
      selectedTopics := [];
      newTestCase := BlankDraft;
      previewImage := None;
      error := "";
      isLoading := false;
      success := false;
    }

    /** `handleTopicChange`: the titles as chosen, and the form's topics the available ones with those titles. */
    method HandleTopicChange(titles: seq<string>)
      modifies this`selectedTopics, this`form
      ensures selectedTopics == titles
      ensures form == old(form).(topics := TopicsTitled(availableTopics, titles))
      ensures availableTopics == old(availableTopics) && newTestCase == old(newTestCase) && error == old(error)
    {
      selectedTopics := titles;
      form := form.(topics := TopicsTitled(availableTopics, titles));
    }

    /** `handleTestCaseChange` and the example checkbox: the draft as edited. */
    method EditDraft(draft: TestCaseView)
      modifies this`newTestCase
      ensures newTestCase == draft && form == old(form) && selectedTopics == old(selectedTopics)
    {
      newTestCase := draft;
    }

    /**
     * `handleAddTestCase`: nothing while the draft's input or output is
     * empty; otherwise the draft is appended after the existing cases and
     * the draft is blanked.
     */
    method HandleAddTestCase()
      modifies this`form, this`newTestCase
      ensures old(newTestCase.input) == "" || old(newTestCase.output) == "" ==>
        form == old(form) && newTestCase == old(newTestCase)
      ensures old(newTestCase.input) != "" && old(newTestCase.output) != "" ==>
        form == old(form).(tests := old(form.tests) + [old(newTestCase)]) && newTestCase == BlankDraft
      ensures selectedTopics == old(selectedTopics) && availableTopics == old(availableTopics) && error == old(error)
    {
      if newTestCase.input == "" || newTestCase.output == "" {
        return;
      }
      form := form.(tests := form.tests + [newTestCase]);
      newTestCase := BlankDraft;
    }

    /** `handleRemoveTestCase`: the case at that index is removed, the others keep their order. */
    method HandleRemoveTestCase(index: int)
      modifies this`form
      ensures form == old(form).(tests := RemoveAt(old(form.tests), index))
      ensures newTestCase == old(newTestCase) && selectedTopics == old(selectedTopics) && error == old(error)
    {
      form := form.(tests := RemoveAt(form.tests, index));
    }

    /**
     * `handleImageUpload`: a missing file changes nothing; a file that is
     * not an image or is larger than 5 MB sets the matching error; an
     * accepted one becomes the preview and the form's image, as the data
     * URL the reader produced.
     */
    method HandleImageUpload(file: Option<ImageFile>, dataUrl: string)
      modifies this`error, this`previewImage, this`form
      ensures CheckImage(file).Rejected? ==> error == CheckImage(file).message && form == old(form) && previewImage == old(previewImage)
      ensures CheckImage(file) == NoFile ==> error == old(error) && form == old(form) && previewImage == old(previewImage)
      ensures CheckImage(file) == Accepted ==> error == old(error) && form == old(form).(image := Some(dataUrl)) && previewImage == Some(dataUrl)
      ensures newTestCase == old(newTestCase) && selectedTopics == old(selectedTopics)
    {
      var check := CheckImage(file);
      match check
      case NoFile =>
      case Rejected(message) =>
        error := message;
      case Accepted =>
        previewImage := Some(dataUrl);
        form := form.(image := Some(dataUrl));
    }

    /**
     * `handleSubmit`, once the server has answered: on success the form is
     * emptied but for the session's author, the topic selection and preview
     * are cleared and the success notice shows; on failure the server's
     * message, or the default one when it has none, is the error and the
     * form is kept. Either way loading ends.
     */
    method HandleSubmit(saved: bool, serverMessage: string) returns (sent: ProblemForm)
      modifies this`isLoading, this`error, this`success, this`form, this`selectedTopics, this`previewImage
      ensures sent == old(form) && !isLoading
      ensures saved ==> form == EmptyForm(stored) && selectedTopics == [] && previewImage == None && success && error == ""
      ensures !saved ==>
        form == old(form) && selectedTopics == old(selectedTopics) && previewImage == old(previewImage)
        && success == old(success) && error == (if serverMessage != "" then serverMessage else AddFailed)
      ensures newTestCase == old(newTestCase) && stored == old(stored)
    {
      isLoading := true;
      error := "";
      sent := form;
      if saved {
        success := true;
        form := EmptyForm(stored);
        selectedTopics := [];
        previewImage := None;
      } else {
        error := if serverMessage != "" then serverMessage else AddFailed;
      }
      isLoading := false;
    }
  }

  /** A successful submit leaves a form whose submit button is disabled until a test case is added. */
  lemma SubmittedFormNeedsATest(stored: Stored, isLoading: bool)
    ensures SubmitDisabled(isLoading, EmptyForm(stored))
    ensures SubmitDisabled(false, EmptyForm(stored).(tests := [TestCaseView(None, "1", "1", true)])) == false
  {
  }
}
