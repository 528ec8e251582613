/**
 * `ClassroomDetailsPage`: who may view a classroom, the homework list's
 * delete, and the "add homework" button.
 */
module ClassroomDetailsPage {
  import opened Wrappers
  import opened Dtos
  import Lists

  const MissingClassroomId := "Cannot create homework: Classroom ID is missing"
  const DeleteFailed := "Failed to delete assignment. Please try again."

  /** `classroom.students?.some((student) => student.id === user.id)`. */
  predicate Enrolled(classroom: ClassroomView, user: UserView) {
    exists s :: s in classroom.students && s.id == user.id
  }

  /**
   * `checkUserAuthorization`: nobody without a user and a classroom; admins
   * and teachers always; students and plain users when they are on the
   * roster; no other type.
   */
  function Authorized(user: Option<UserView>, classroom: Option<ClassroomView>): (ok: bool)
    ensures user.None? || classroom.None? ==> !ok
    ensures user.Some? && classroom.Some? && user.value.userType in {"admin", "teacher"} ==> ok
    ensures user.Some? && classroom.Some? && user.value.userType in {"student", "user"} ==>
      (ok <==> Enrolled(classroom.value, user.value))
    ensures ok ==> user.Some? && user.value.userType in {"admin", "teacher", "student", "user"}
  {
    if user.None? || classroom.None? then false
    else if user.value.userType == "admin" || user.value.userType == "teacher" then true
    else if user.value.userType == "student" || user.value.userType == "user" then Enrolled(classroom.value, user.value)
    else false
  }

  /** Being on a classroom's roster never takes access away: adding a student keeps everyone authorised who was. */
  lemma AuthorizationSurvivesEnrolment(user: UserView, classroom: ClassroomView, newcomer: UserView)
    requires Authorized(Some(user), Some(classroom))
    ensures Authorized(Some(user), Some(classroom.(students := classroom.students + [newcomer])))
    ensures Authorized(Some(newcomer), Some(classroom.(students := classroom.students + [newcomer])))
      <==> newcomer.userType in {"admin", "teacher", "student", "user"}
  {
    var grown := classroom.(students := classroom.students + [newcomer]);
    assert newcomer in grown.students;
    if Enrolled(classroom, user) {
      var s :| s in classroom.students && s.id == user.id;
      assert s in grown.students;
    }
  }

  /** The homework tab's state. */
  datatype HomeworkList = HomeworkList(
    homeworks: seq<HomeworkView>,
    selectedHomeworkId: Option<int>,
    deleteDialogOpen: bool,
    error: string)

  /** `homeworks.filter((hw) => hw.id !== selectedHomeworkId)`. */
  function WithoutHomework(homeworks: seq<HomeworkView>, id: int): (kept: seq<HomeworkView>)
    ensures forall h :: h in kept <==> h in homeworks && h.id != Some(id)
  {
    Lists.Filter(homeworks, (h: HomeworkView) => h.id != Some(id))
  }

  /**
   * `confirmDeleteHomework`: nothing without a (truthy) selection. Otherwise
   * the delete is sent; `deleted` is whether the server accepted it. On
   * success the homeworks with that id leave the list, the dialog closes and
   * the selection is cleared; on failure the error is set and the dialog
   * closes.
   */
  function ConfirmDeleteHomework(state: HomeworkList, deleted: bool): (next: HomeworkList)
    ensures !Truthy(state.selectedHomeworkId) ==> next == state
    ensures Truthy(state.selectedHomeworkId) && deleted ==>
      next == HomeworkList(WithoutHomework(state.homeworks, state.selectedHomeworkId.value), None, false, state.error)
    ensures Truthy(state.selectedHomeworkId) && !deleted ==>
      next == state.(deleteDialogOpen := false, error := DeleteFailed)
  {
    if !Truthy(state.selectedHomeworkId) then state
    else if deleted then
      HomeworkList(WithoutHomework(state.homeworks, state.selectedHomeworkId.value), None, false, state.error)
    else state.(deleteDialogOpen := false, error := DeleteFailed)
  }

  /**
   * A successful delete removes exactly the homeworks with the selected id,
   * keeps the rest in order, and deleting again with no selection changes
   * nothing.
   */
  lemma DeleteRemovesExactlySelected(state: HomeworkList)
    requires Truthy(state.selectedHomeworkId)
    ensures forall h :: h in ConfirmDeleteHomework(state, true).homeworks <==>
      h in state.homeworks && h.id != state.selectedHomeworkId
    ensures Lists.Subsequence(ConfirmDeleteHomework(state, true).homeworks, state.homeworks)
    ensures ConfirmDeleteHomework(ConfirmDeleteHomework(state, true), true) == ConfirmDeleteHomework(state, true)
  {
    Lists.FilterIsSubsequence(state.homeworks, (h: HomeworkView) => h.id != Some(state.selectedHomeworkId.value));
  }

  /** `handleAddHomework`: to the add-homework page of the classroom when it has a (truthy) id, otherwise an error. */
  function AddHomework(classroom: Option<ClassroomView>): (r: Checked<int>)
    ensures r.Proceed? <==> classroom.Some? && Truthy(classroom.value.id)
    ensures r.Proceed? ==> r.request == classroom.value.id.value
    ensures r.Refused? ==> r.message == MissingClassroomId
  {
    if classroom.Some? && Truthy(classroom.value.id) then Proceed(classroom.value.id.value)
    else Refused(MissingClassroomId)
  }
}
