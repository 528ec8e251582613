/**
 * `AddClassroomPage`: the teacher's form for creating or editing a
 * classroom. Students are chosen by username; the enrolment key can be
 * generated from eight random draws.
 */
module AddClassroomPage {
  import opened Wrappers
  import opened Dtos
  import Lists

  /** The 62 characters a generated key is drawn from. */
  const KeyAlphabet := "ABCDEFGHIJKLMNOPQRSTUVWXYZabcdefghijklmnopqrstuvwxyz0123456789"
  /** The length of a generated key. */
  const KeyLength := 8

  /** A `Math.random()` result. */
  predicate IsDraw(r: real) {
    0.0 <= r < 1.0
  }

  /** `Math.floor(r * chars.length)`: a draw picks a position of the alphabet. */
  function KeyIndex(r: real): (i: int)
    requires IsDraw(r)
    ensures 0 <= i < |KeyAlphabet|
  {
    (r * |KeyAlphabet| as real).Floor
  }

  /**
   * The key that eight draws produce, one character per draw: whatever the
   * draws, eight characters of the 62-character alphabet.
   */
  function KeyFrom(draws: seq<real>): (key: seq<char>)
    requires |draws| == KeyLength && forall i :: 0 <= i < |draws| ==> IsDraw(draws[i])
    ensures |key| == 8 && |KeyAlphabet| == 62
    ensures forall i :: 0 <= i < 8 ==> key[i] in KeyAlphabet
  {
    seq(KeyLength, i requires 0 <= i < KeyLength => KeyAlphabet[KeyIndex(draws[i])])
  }

  /** Every alphabet character can be drawn: the draw j/62 picks position j. */
  lemma EveryCharacterCanBeDrawn(j: int)
    requires 0 <= j < |KeyAlphabet|
    ensures IsDraw(j as real / 62.0) && KeyIndex(j as real / 62.0) == j
  {
    assert (j as real / 62.0) * 62.0 == j as real;
  }

  /** `ClassroomDTO` as the form holds it, with the teacher the page sets. */
  datatype ClassroomForm = ClassroomForm(
    id: Option<int>,
    name: string,
    description: string,
    enrollmentKey: string,
    students: seq<UserView>,
    teacher: Option<UserView>)

  /** The form's free-text inputs. */
  datatype TextField = Name | Description | EnrollmentKey

  /** Where the page goes on load. */
  datatype Gate = RedirectTo(path: string) | Load(editMode: bool, teacher: UserView)

  /**
   * The load effect: home for anyone but a logged-in teacher or admin;
   * otherwise the form with that user as teacher, in edit mode when a
   * classroom id is given.
   */
  function OnLoad(stored: Stored, classroomId: string): (g: Gate)
    ensures g.RedirectTo? <==> !(stored.UserJson? && stored.user.userType in {"teacher", "admin"})
    ensures g.RedirectTo? ==> g.path == "/"
    ensures g.Load? ==> g.teacher == stored.user && g.editMode == (classroomId != "")
  {
    match LoggedIn(stored)
    case None => RedirectTo("/")
    case Some(user) =>
      if user.userType != "teacher" && user.userType != "admin" then RedirectTo("/")
      else Load(classroomId != "", user)
  }

  /** `selectedUsernames.includes(student.username)`. */
  function UsernameSelected(usernames: seq<string>): UserView -> bool {
    (u: UserView) => u.username in usernames
  }

  /** The fetched students whose username was selected, in fetched order. */
  function StudentsNamed(fetched: seq<UserView>, usernames: seq<string>): (chosen: seq<UserView>)
    ensures forall u :: u in chosen <==> u in fetched && u.username in usernames
  {
    Lists.Filter(fetched, UsernameSelected(usernames))
  }

  /** The chosen students keep the fetched order, and an empty selection chooses nobody. */
  lemma StudentsKeepFetchedOrder(fetched: seq<UserView>, usernames: seq<string>)
    ensures Lists.Subsequence(StudentsNamed(fetched, usernames), fetched)
    ensures usernames == [] ==> StudentsNamed(fetched, usernames) == []
  {
    Lists.FilterIsSubsequence(fetched, UsernameSelected(usernames));
    if usernames == [] {
      Lists.FilterDropsAll(fetched, UsernameSelected(usernames));
    }
  }

  /** The submit button: disabled while saving, or while the name, description or key is empty. */
  predicate SubmitDisabled(isLoading: bool, form: ClassroomForm) {
    isLoading || form.name == "" || form.description == "" || form.enrollmentKey == ""
  }

  /** The form after a create: cleared, keeping the teacher. */
  function ClearedForm(teacher: Option<UserView>): (f: ClassroomForm)
    ensures f.teacher == teacher && f.students == [] && f.id == None
    ensures f.name == "" && f.description == "" && f.enrollmentKey == ""
  {
    ClassroomForm(None, "", "", "", [], teacher)
  }

  /**
   * Generating a key makes the key part of the submit rule hold: with a
   * name and a description the form can be submitted, and a cleared form
   * cannot.
   */
  lemma GeneratedKeyEnablesSubmit(form: ClassroomForm, draws: seq<real>)
    requires |draws| == KeyLength && forall i :: 0 <= i < |draws| ==> IsDraw(draws[i])
    requires form.name != "" && form.description != ""
    ensures !SubmitDisabled(false, form.(enrollmentKey := KeyFrom(draws)))
    ensures SubmitDisabled(false, ClearedForm(form.teacher).(enrollmentKey := KeyFrom(draws)))
  {
  }

  const UpdateFailed := "Failed to update classroom. Please try again."
  const CreateFailed := "Failed to create classroom. Please try again."

  /** The form's state. */
  class ClassroomEditor {
    var form: ClassroomForm
    var students: seq<UserView>
    var selectedStudents: seq<string>
    var isEditMode: bool
    var isLoading: bool
    var success: bool
    var error: string

    /** The loaded page: an empty form with the logged-in teacher and the fetched students. */
    constructor (teacher: UserView, fetched: seq<UserView>, editMode: bool)
      ensures form == ClearedForm(Some(teacher)) && students == fetched && selectedStudents == []
      ensures isEditMode == editMode && !isLoading && !success && error == ""
    {
      form := ClearedForm(Some(teacher));
      students := fetched;
      selectedStudents := [];
      isEditMode := editMode;
      isLoading := false;
      success := false;
      error := "";
    }

    /** `handleChange` on one of the text inputs. */
    method HandleChange(field: TextField, value: string)
      modifies this`form
      ensures form == (match field
        case Name => old(form).(name := value)
        case Description => old(form).(description := value)
        case EnrollmentKey => old(form).(enrollmentKey := value))
      ensures students == old(students) && selectedStudents == old(selectedStudents) && error == old(error)
    {
      match field
      case Name => form := form.(name := value);
      case Description => form := form.(description := value);
      case EnrollmentKey => form := form.(enrollmentKey := value);
    }

    /** `handleStudentChange`: the usernames as chosen, and the form's students the fetched ones with those names. */
    method HandleStudentChange(usernames: seq<string>)
      modifies this`selectedStudents, this`form
      ensures selectedStudents == usernames
      ensures form == old(form).(students := StudentsNamed(old(students), usernames))
      ensures students == old(students) && error == old(error) && isLoading == old(isLoading)
    {
      selectedStudents := usernames;
      form := form.(students := StudentsNamed(students, usernames));
    }

    /**
     * `generateEnrollmentKey`: eight characters, one per draw, and nothing
     * in the form but the key changes.
     */
    method GenerateEnrollmentKey(draws: seq<real>) returns (key: string)
      requires |draws| == KeyLength && forall i :: 0 <= i < |draws| ==> IsDraw(draws[i])
      modifies this`form
      ensures key == KeyFrom(draws)
      ensures form == old(form).(enrollmentKey := key)
      ensures students == old(students) && selectedStudents == old(selectedStudents) && error == old(error)
    {
      key := "";
      for i := 0 to KeyLength
        invariant |key| == i
        invariant forall j :: 0 <= j < i ==> key[j] == KeyAlphabet[KeyIndex(draws[j])]
      {
        key := key + [KeyAlphabet[KeyIndex(draws[i])]];
      }
      form := form.(enrollmentKey := key);
    }

    /**
     * `handleSubmit`, once the server has answered. On success the notice
     * shows and, when creating, the form is cleared but for the teacher and
     * the selection emptied; on failure the server's message, or the mode's
     * default one, is the error and the form is kept. Loading ends.
     */
    method HandleSubmit(saved: bool, serverMessage: string) returns (sent: ClassroomForm)
      modifies this`isLoading, this`error, this`success, this`form, this`selectedStudents
      ensures sent == old(form) && !isLoading
      ensures saved && !isEditMode ==> form == ClearedForm(old(form.teacher)) && selectedStudents == [] && success && error == ""
      ensures saved && isEditMode ==> form == old(form) && selectedStudents == old(selectedStudents) && success && error == ""
      ensures !saved ==>
        form == old(form) && selectedStudents == old(selectedStudents) && success == old(success)
        && error == (if serverMessage != "" then serverMessage else if isEditMode then UpdateFailed else CreateFailed)
      ensures isEditMode == old(isEditMode) && students == old(students)
    {
      isLoading := true;
      error := "";
      sent := form;
      if saved {
        success := true;
        if !isEditMode {
          form := ClearedForm(form.teacher);
          selectedStudents := [];
        }
      } else {
        error := if serverMessage != "" then serverMessage else if isEditMode then UpdateFailed else CreateFailed;
      }
      isLoading := false;
    }
  }
}
