/**
 * `ClassroomsPage`: the classroom list of the logged-in user, its search
 * box, the teacher-only create, edit and delete actions, and the student's
 * enrolment dialog.
 */
module ClassroomsPage {
  import opened Wrappers
  import opened Dtos
  import Text
  import Lists

  const CreateDenied := "Only teachers and administrators can create classrooms."
  const EditDenied := "Only teachers and administrators can edit classrooms."
  const DeleteDenied := "Only teachers and administrators can delete classrooms."
  const DeleteFailed := "Failed to delete classroom. Please try again."
  const EnrollFieldsMissing := "Both classroom ID and enrollment key are required"
  const EnrollFailed := "Failed to enroll in classroom. Please check the classroom ID and enrollment key and try again."

  /** `user && (user.type === "teacher" || user.type === "admin")`. */
  predicate IsTeacherOrAdmin(user: Option<UserView>) {
    user.Some? && (user.value.userType == "teacher" || user.value.userType == "admin")
  }

  /** `(classroom.name?.toLowerCase() || "")`, and the same for the description. */
  function LowerOrEmpty(text: Option<string>): string {
    if text.Some? then Text.Lower(text.value) else ""
  }

  /** The search test on one classroom, with the query lower-cased but not trimmed. */
  function MatchesSearch(query: string): ClassroomView -> bool {
    (c: ClassroomView) =>
      Text.Includes(LowerOrEmpty(c.name), Text.Lower(query))
      || Text.Includes(LowerOrEmpty(c.description), Text.Lower(query))
  }

  /**
   * The search effect: a query that trims to nothing shows every classroom;
   * otherwise a classroom is shown when its name or its description contains
   * the query, ignoring case, a missing field reading as "".
   */
  function SearchFilter(classrooms: seq<ClassroomView>, query: string): (shown: seq<ClassroomView>)
    ensures Text.Blank(query) ==> shown == classrooms
    ensures !Text.Blank(query) ==>
      forall c :: c in shown <==> c in classrooms && MatchesSearch(query)(c)
  {
    Text.TrimEmptyIffBlank(query);
    if Text.Trim(query) == "" then classrooms
    else Lists.Filter(classrooms, MatchesSearch(query))
  }

  /** The shown classrooms keep their order in the loaded list. */
  lemma SearchKeepsOrder(classrooms: seq<ClassroomView>, query: string)
    ensures Lists.Subsequence(SearchFilter(classrooms, query), classrooms)
  {
    Text.TrimEmptyIffBlank(query);
    if Text.Blank(query) {
      Lists.SubsequenceOfSelf(classrooms);
    } else {
      Lists.FilterIsSubsequence(classrooms, MatchesSearch(query));
    }
  }

  /** A query of spaces is ignored, but a query with spaces around a word is searched as typed. */
  lemma PaddedQueryIsSearchedAsTyped(classrooms: seq<ClassroomView>)
    ensures SearchFilter(classrooms, "  ") == classrooms
    ensures forall c :: c in SearchFilter(classrooms, " a") ==> c in classrooms && MatchesSearch(" a")(c)
  {
    assert !Text.IsWhitespace(" a"[1]);
  }

  /** The request `fetchClassrooms` sends for a user. */
  datatype ClassroomsRequest = TeacherClassrooms(userId: int) | StudentClassrooms(userId: int)

  /**
   * `fetchClassrooms`: nothing without a user or with a falsy id; the
   * teacher endpoint for admins and teachers; the student endpoint for every
   * other type, "student" or not.
   */
  function FetchRequest(user: Option<UserView>): (r: Option<ClassroomsRequest>)
    ensures r.None? <==> user.None? || !Truthy(user.value.id)
    ensures r.Some? && IsTeacherOrAdmin(user) ==> r.value == TeacherClassrooms(user.value.id.value)
    ensures r.Some? && !IsTeacherOrAdmin(user) ==> r.value == StudentClassrooms(user.value.id.value)
  {
    if user.None? || !Truthy(user.value.id) then None
    else if IsTeacherOrAdmin(user) then Some(TeacherClassrooms(user.value.id.value))
    else Some(StudentClassrooms(user.value.id.value))
  }

  /** `list.filter((c) => c.id !== id)`. */
  function WithoutId(list: seq<ClassroomView>, id: Option<int>): seq<ClassroomView> {
    Lists.Filter(list, (c: ClassroomView) => c.id != id)
  }

  /** After removal no classroom has the id, every other classroom stays, and the order is kept. */
  lemma WithoutIdRemovesExactly(list: seq<ClassroomView>, id: Option<int>)
    ensures forall c :: c in WithoutId(list, id) <==> c in list && c.id != id
    ensures Lists.Subsequence(WithoutId(list, id), list)
  {
    Lists.FilterIsSubsequence(list, (c: ClassroomView) => c.id != id);
  }

  /** `POST /classroom/enroll`'s body; the classroom id is sent as typed (`parseInt` is not modelled). */
  datatype EnrollRequest = EnrollRequest(classroomId: string, userId: Option<int>, key: string)

  /** The server's answer to an enrolment: accepted, or refused with the response's text. */
  datatype EnrollAnswer = Enrolled | Refused(data: string)

  /** The page's state. */
  class ClassroomsState {
    var user: Option<UserView>
    var classrooms: seq<ClassroomView>
    var filteredClassrooms: seq<ClassroomView>
    var error: string
    var selectedClassroom: Option<ClassroomView>
    var deleteDialogOpen: bool
    var enrollDialogOpen: bool
    var enrollClassroomId: string
    var enrollKey: string
    var enrollmentSuccess: bool
    var enrollmentError: string

    /** The state after loading: the user and their classrooms, nothing selected. */
    constructor (user: Option<UserView>, classrooms: seq<ClassroomView>)
      ensures this.user == user && this.classrooms == classrooms && filteredClassrooms == classrooms
      ensures error == "" && selectedClassroom == None && !deleteDialogOpen && !enrollDialogOpen
      ensures enrollClassroomId == "" && enrollKey == "" && !enrollmentSuccess && enrollmentError == ""
    {
      this.user := user;
      this.classrooms := classrooms;
      filteredClassrooms := classrooms;
      error := "";
      selectedClassroom := None;
      deleteDialogOpen := false;
      enrollDialogOpen := false;
      enrollClassroomId := "";
      enrollKey := "";
      enrollmentSuccess := false;
      enrollmentError := "";
    }

    /** `handleCreateClassroom`: teachers and admins go to the create page; anyone else gets an error. */
    method HandleCreateClassroom() returns (target: Option<string>)
      modifies this`error
      ensures IsTeacherOrAdmin(user) ==> target == Some("/add-classroom") && error == old(error)
      ensures !IsTeacherOrAdmin(user) ==> target == None && error == CreateDenied
      ensures user == old(user) && classrooms == old(classrooms) && filteredClassrooms == old(filteredClassrooms)
      ensures selectedClassroom == old(selectedClassroom) && deleteDialogOpen == old(deleteDialogOpen)
    {
      if IsTeacherOrAdmin(user) {
        target := Some("/add-classroom");
      } else {
        error := CreateDenied;
        target := None;
      }
    }

    /** `handleEditClassroom`: teachers and admins go to the edit page; anyone else gets an error. */
    method HandleEditClassroom(classroom: ClassroomView) returns (target: Option<Option<int>>)
      modifies this`error
      ensures IsTeacherOrAdmin(user) ==> target == Some(classroom.id) && error == old(error)
      ensures !IsTeacherOrAdmin(user) ==> target == None && error == EditDenied
      ensures user == old(user) && classrooms == old(classrooms) && filteredClassrooms == old(filteredClassrooms)
      ensures selectedClassroom == old(selectedClassroom) && deleteDialogOpen == old(deleteDialogOpen)
    {
      if IsTeacherOrAdmin(user) {
        target := Some(classroom.id);
      } else {
        error := EditDenied;
        target := None;
      }
    }

    /** `handleDeleteClassroom`: teachers and admins select the classroom and open the dialog; anyone else gets an error. */
    method HandleDeleteClassroom(classroom: ClassroomView)
      modifies this`selectedClassroom, this`deleteDialogOpen, this`error
      ensures IsTeacherOrAdmin(user) ==> selectedClassroom == Some(classroom) && deleteDialogOpen && error == old(error)
      ensures !IsTeacherOrAdmin(user) ==>
        error == DeleteDenied && selectedClassroom == old(selectedClassroom) && deleteDialogOpen == old(deleteDialogOpen)
      ensures user == old(user) && classrooms == old(classrooms) && filteredClassrooms == old(filteredClassrooms)
    {
      if IsTeacherOrAdmin(user) {
        selectedClassroom := Some(classroom);
        deleteDialogOpen := true;
      } else {
        error := DeleteDenied;
      }
    }

    /**
     * `confirmDeleteClassroom`: nothing without a selection. Otherwise the
     * delete is sent; `deleted` is whether the server accepted it. On
     * success the classroom's id leaves both lists and the dialog closes.
     */
    method ConfirmDeleteClassroom(deleted: bool) returns (sent: Option<Option<int>>)
      modifies this`classrooms, this`filteredClassrooms, this`deleteDialogOpen, this`error
      ensures old(selectedClassroom).None? ==>
        sent == None && classrooms == old(classrooms) && filteredClassrooms == old(filteredClassrooms) && error == old(error) && deleteDialogOpen == old(deleteDialogOpen)
      ensures old(selectedClassroom).Some? ==> sent == Some(old(selectedClassroom).value.id)
      ensures old(selectedClassroom).Some? && deleted ==>
        classrooms == WithoutId(old(classrooms), old(selectedClassroom).value.id)
        && filteredClassrooms == WithoutId(old(filteredClassrooms), old(selectedClassroom).value.id)
        && !deleteDialogOpen && error == old(error)
      ensures old(selectedClassroom).Some? && !deleted ==>
        classrooms == old(classrooms) && filteredClassrooms == old(filteredClassrooms)
        && error == DeleteFailed && deleteDialogOpen == old(deleteDialogOpen)
      ensures user == old(user) && selectedClassroom == old(selectedClassroom)
    {
      if selectedClassroom.None? {
        return None;
      }
      var id := selectedClassroom.value.id;
      sent := Some(id);
      if deleted {
        classrooms := WithoutId(classrooms, id);
        filteredClassrooms := WithoutId(filteredClassrooms, id);
        deleteDialogOpen := false;
      } else {
        error := DeleteFailed;
      }
    }

    /** `handleOpenEnrollDialog`: an empty form, no error, the dialog open. */
    method OpenEnrollDialog()
      modifies this`enrollClassroomId, this`enrollKey, this`enrollmentError, this`enrollDialogOpen
      ensures enrollClassroomId == "" && enrollKey == "" && enrollmentError == "" && enrollDialogOpen
      ensures user == old(user) && classrooms == old(classrooms) && enrollmentSuccess == old(enrollmentSuccess)
    {
      enrollClassroomId := "";
      enrollKey := "";
      enrollmentError := "";
      enrollDialogOpen := true;
    }

    /**
     * `handleEnroll`: nothing without a user; an error and no request when
     * the classroom id or the key is empty; otherwise the request is sent
     * and `answer` is the server's reply. Success closes the dialog and
     * clears the form; a refusal shows the server's text, or a generic
     * message when it is empty.
     */
    method HandleEnroll(answer: EnrollAnswer) returns (sent: Option<EnrollRequest>)
      modifies this`enrollmentSuccess, this`enrollDialogOpen, this`enrollClassroomId, this`enrollKey, this`enrollmentError
      ensures user.None? ==> sent == None && enrollmentError == old(enrollmentError) && enrollDialogOpen == old(enrollDialogOpen)
      ensures user.Some? && (old(enrollClassroomId) == "" || old(enrollKey) == "") ==>
        sent == None && enrollmentError == EnrollFieldsMissing && enrollDialogOpen == old(enrollDialogOpen)
        && enrollmentSuccess == old(enrollmentSuccess)
      ensures sent.Some? <==> user.Some? && old(enrollClassroomId) != "" && old(enrollKey) != ""
      ensures sent.Some? ==> sent.value == EnrollRequest(old(enrollClassroomId), user.value.id, old(enrollKey))
      ensures sent.Some? && answer.Enrolled? ==>
        enrollmentSuccess && !enrollDialogOpen && enrollClassroomId == "" && enrollKey == "" && enrollmentError == ""
      ensures sent.Some? && answer.Refused? ==>
        enrollmentError == (if answer.data != "" then answer.data else EnrollFailed)
        && enrollDialogOpen == old(enrollDialogOpen) && enrollmentSuccess == old(enrollmentSuccess)
      ensures !(sent.Some? && answer.Enrolled?) ==> enrollClassroomId == old(enrollClassroomId) && enrollKey == old(enrollKey)
      ensures user == old(user) && classrooms == old(classrooms) && filteredClassrooms == old(filteredClassrooms)
    {
      if user.None? {
        return None;
      }
      if enrollClassroomId == "" || enrollKey == "" {
        enrollmentError := EnrollFieldsMissing;
        return None;
      }
      sent := Some(EnrollRequest(enrollClassroomId, user.value.id, enrollKey));
      match answer
      case Enrolled =>
        enrollmentSuccess := true;
        enrollDialogOpen := false;
        enrollClassroomId := "";
        enrollKey := "";
        enrollmentError := "";
      case Refused(data) =>
        enrollmentError := if data != "" then data else EnrollFailed;
    }
  }
}
