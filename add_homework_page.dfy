/**
 * `AddHomeworkPage`: the teacher's form for creating or editing a homework.
 * The selected problem ids (as strings), the selected problem objects and
 * the form's problem list are three pieces of state that the handlers keep
 * in step; the deadline is the date and time inputs joined into a local
 * date-time.
 */
module AddHomeworkPage {
  import opened Wrappers
  import opened Dtos
  import Text
  import Lists

  const FieldsMissing := "Please fill in all required fields."
  const NoProblems := "Please select at least one problem for the homework."
  const UpdateFailed := "Failed to update homework. Please try again."
  const CreateFailed := "Failed to create homework. Please try again."

  /** `String(id)` of a `number | null` id. */
  function IdString(id: Option<int>): string {
    match id
    case None => "null"
    case Some(n) => if n >= 0 then Text.DecimalString(n) else "-" + Text.DecimalString(-n)
  }

  /** The first character of an id's text tells null, non-negative and negative apart. */
  lemma IdStringHead(id: Option<int>)
    ensures |IdString(id)| > 0
    ensures id.None? ==> IdString(id)[0] == 'n'
    ensures id.Some? && id.value >= 0 ==> '0' <= IdString(id)[0] <= '9'
    ensures id.Some? && id.value < 0 ==> IdString(id)[0] == '-'
  {
  }

  /** Different ids print differently, so comparing `String(id)`s is comparing ids. */
  lemma IdStringInjective(a: Option<int>, b: Option<int>)
    requires IdString(a) == IdString(b)
    ensures a == b
  {
    IdStringHead(a);
    IdStringHead(b);
    if a.Some? && b.Some? && a.value >= 0 && b.value >= 0 {
      Text.DecimalStringInjective(a.value, b.value);
    } else if a.Some? && b.Some? && a.value < 0 && b.value < 0 {
      assert IdString(a)[1..] == Text.DecimalString(-a.value);
      assert IdString(b)[1..] == Text.DecimalString(-b.value);
      Text.DecimalStringInjective(-a.value, -b.value);
    }
  }

  /** `selectedIds.includes(String(problem.id))`. */
  function IdSelected(ids: seq<string>): ProblemView -> bool {
    (p: ProblemView) => IdString(p.id) in ids
  }

  /** The available problems whose `String(id)` is among the selected ids, in available order. */
  function SelectedFrom(available: seq<ProblemView>, ids: seq<string>): (chosen: seq<ProblemView>)
    ensures forall p :: p in chosen <==> p in available && IdString(p.id) in ids
  {
    Lists.Filter(available, IdSelected(ids))
  }

  /** The selection keeps the available order, and ids without an available problem add nothing. */
  lemma SelectionKeepsAvailableOrder(available: seq<ProblemView>, ids: seq<string>, unknown: string)
    requires forall p :: p in available ==> IdString(p.id) != unknown
    ensures Lists.Subsequence(SelectedFrom(available, ids), available)
    ensures SelectedFrom(available, ids + [unknown]) == SelectedFrom(available, ids)
  {
    Lists.FilterIsSubsequence(available, IdSelected(ids));
    forall i | 0 <= i < |available|
      ensures IdSelected(ids + [unknown])(available[i]) == IdSelected(ids)(available[i])
    {
      assert available[i] in available;
    }
    FilterSameOn(available, IdSelected(ids + [unknown]), IdSelected(ids));
  }

  /** Two tests that agree on every element of the list filter it alike. */
  lemma {:induction false} FilterSameOn(s: seq<ProblemView>, p: ProblemView -> bool, q: ProblemView -> bool)
    requires forall i :: 0 <= i < |s| ==> p(s[i]) == q(s[i])
    ensures Lists.Filter(s, p) == Lists.Filter(s, q)
    decreases |s|
  {
    if s != [] {
      FilterSameOn(s[1..], p, q);
    }
  }

  /** The string removal `id !== String(problemIdToRemove)`. */
  function OtherIdText(removed: int): string -> bool {
    (s: string) => s != IdString(Some(removed))
  }

  /** The object removal `problem.id !== problemIdToRemove`. */
  function OtherProblem(removed: int): ProblemView -> bool {
    (p: ProblemView) => p.id != Some(removed)
  }

  /** The form's fields. */
  datatype HomeworkForm = HomeworkForm(
    id: Option<int>,
    title: string,
    description: string,
    deadline: string,
    problems: seq<ProblemView>)

  /** The form's free-text inputs. */
  datatype TextField = Title | Description

  /** `${newDate}T${newTime}:00`. */
  function DeadlineString(date: string, time: string): (s: string)
    ensures |s| == |date| + |time| + 4
    ensures s[..|date|] == date && s[|date|] == 'T' && s[|date| + 1..|date| + 1 + |time|] == time
    ensures s[|date| + 1 + |time|..] == ":00"
  {
    date + "T" + time + ":00"
  }

  predicate IsDigit(c: char) {
    '0' <= c <= '9'
  }

  /** The date input's value: YYYY-MM-DD. */
  predicate IsDate(d: string) {
    |d| == 10 && d[4] == '-' && d[7] == '-'
    && forall i :: 0 <= i < 10 && i != 4 && i != 7 ==> IsDigit(d[i])
  }

  /** The time input's value: hh:mm. */
  predicate IsTime(t: string) {
    |t| == 5 && t[2] == ':' && IsDigit(t[0]) && IsDigit(t[1]) && IsDigit(t[3]) && IsDigit(t[4])
  }

  /**
   * A local date-time in the extended format of section 4.3.2 of
   * ISO 8601:2004, YYYY-MM-DDThh:mm:ss, without a time-zone designator.
   */
  predicate IsLocalDateTime(s: string) {
    |s| == 19 && IsDate(s[..10]) && s[10] == 'T' && IsTime(s[11..16]) && s[16] == ':' && IsDigit(s[17]) && IsDigit(s[18])
  }

  /** The date and time back out of a deadline string. */
  function DeadlineParts(s: string): (string, string)
    requires |s| == 19
  {
    (s[..10], s[11..16])
  }

  /**
   * Well-formed inputs give a well-formed local date-time with zero
   * seconds, and the inputs can be read back from it.
   */
  lemma DeadlineIsLocalDateTime(date: string, time: string)
    requires IsDate(date) && IsTime(time)
    ensures IsLocalDateTime(DeadlineString(date, time))
    ensures DeadlineParts(DeadlineString(date, time)) == (date, time)
  {
    var s := DeadlineString(date, time);
    assert s[..10] == date;
    assert s[11..16] == time;
  }

  /** Where the page goes on load. */
  datatype Gate = RedirectTo(path: string) | Load(editMode: bool)

  /**
   * The load effect: home for anyone but a teacher or an admin, the
   * classroom list without a classroom id, and otherwise a load, in edit
   * mode when a homework id is given.
   */
  function OnLoad(stored: Stored, classroomId: string, homeworkId: string): (g: Gate)
    ensures g == RedirectTo("/") <==> !(stored.UserJson? && stored.user.userType in {"teacher", "admin"})
    ensures g == RedirectTo("/classrooms") <==> stored.UserJson? && stored.user.userType in {"teacher", "admin"} && classroomId == ""
    ensures g.Load? ==> g.editMode == (homeworkId != "")
  {
    match LoggedIn(stored)
    case None => RedirectTo("/")
    case Some(user) =>
      if user.userType != "teacher" && user.userType != "admin" then RedirectTo("/")
      else if classroomId == "" then RedirectTo("/classrooms")
      else Load(homeworkId != "")
  }

  /** `NewHomeworkDTO` and the endpoint it is posted to. */
  datatype SaveRequest = SaveRequest(endpoint: string, classroom: ClassroomView, homework: HomeworkForm)

  /** The form's state. */
  class HomeworkEditor {
    var classroom: Option<ClassroomView>
    var availableProblems: seq<ProblemView>
    var selectedProblemIds: seq<string>
    var selectedProblems: seq<ProblemView>
    var form: HomeworkForm
    var date: string
    var time: string
    var isEditMode: bool
    var isSubmitting: bool
    var error: string

    /** The three selections describe the same problems: the available ones whose id was selected. */
    predicate Synced()
      reads this
    {
      selectedProblems == form.problems && selectedProblems == SelectedFrom(availableProblems, selectedProblemIds)
    }

    /**
     * A loaded form: nothing selected yet, and the deadline one week ahead
     * (its ISO text, date and time are given, the clock being outside the
     * model). `editMode` is the mode `OnLoad` chose, that is whether the
     * route names a homework.
     */
    constructor (classroom: Option<ClassroomView>, available: seq<ProblemView>, weekAhead: string, date: string, time: string, editMode: bool)
      ensures this.classroom == classroom && availableProblems == available && this.date == date && this.time == time
      ensures selectedProblemIds == [] && selectedProblems == [] && form == HomeworkForm(None, "", "", weekAhead, [])
      ensures isEditMode == editMode && !isSubmitting && error == ""
      ensures Synced()
    {
      this.classroom := classroom;
      availableProblems := available;
      selectedProblemIds := [];
      selectedProblems := [];
      form := HomeworkForm(None, "", "", weekAhead, []);
      this.date := date;
      this.time := time;
      isEditMode := editMode;
      isSubmitting := false;
      error := "";
      Lists.FilterDropsAll(available, IdSelected([]));
    }

    /**
     * The fetched homework: its fields in the form, its deadline's date and
     * time in the inputs, and, when it has problems, those problems and
     * their `String(id)`s as the selection. The homework is fetched only
     * when the route names one, which is when edit mode is on.
     */
    method LoadHomework(homework: HomeworkForm, deadlineDate: string, deadlineTime: string)
      requires isEditMode
      modifies this`form, this`date, this`time, this`selectedProblems, this`selectedProblemIds
      ensures form == homework && date == deadlineDate && time == deadlineTime
      ensures homework.problems != [] ==>
        selectedProblems == homework.problems
        && |selectedProblemIds| == |homework.problems|
        && forall i :: 0 <= i < |homework.problems| ==> selectedProblemIds[i] == IdString(homework.problems[i].id)
      ensures homework.problems == [] ==> selectedProblems == old(selectedProblems) && selectedProblemIds == old(selectedProblemIds)
      ensures availableProblems == old(availableProblems) && classroom == old(classroom) && error == old(error)
      ensures isEditMode
    {
      form := homework;
      date := deadlineDate;
      time := deadlineTime;
      if homework.problems != [] {
        selectedProblems := homework.problems;
        selectedProblemIds := seq(|homework.problems|, i requires 0 <= i < |homework.problems| => IdString(homework.problems[i].id));
      }
    }

    /** `handleChange` on the title or the description input. */
    method HandleChange(field: TextField, value: string)
      modifies this`form
      ensures form == (if field == Title then old(form).(title := value) else old(form).(description := value))
      ensures selectedProblemIds == old(selectedProblemIds) && selectedProblems == old(selectedProblems)
      ensures availableProblems == old(availableProblems) && date == old(date) && time == old(time) && error == old(error)
    {
      form := if field == Title then form.(title := value) else form.(description := value);
    }

    /** `handleDateChange`: the new date, and the deadline rebuilt from it and the current time. */
    method HandleDateChange(newDate: string)
      modifies this`date, this`form
      ensures date == newDate && form == old(form).(deadline := DeadlineString(newDate, old(time)))
      ensures time == old(time) && selectedProblemIds == old(selectedProblemIds) && selectedProblems == old(selectedProblems)
      ensures availableProblems == old(availableProblems) && error == old(error)
    {
      date := newDate;
      form := form.(deadline := DeadlineString(newDate, time));
    }

    /** `handleTimeChange`: the new time, and the deadline rebuilt from the current date and it. */
    method HandleTimeChange(newTime: string)
      modifies this`time, this`form
      ensures time == newTime && form == old(form).(deadline := DeadlineString(old(date), newTime))
      ensures date == old(date) && selectedProblemIds == old(selectedProblemIds) && selectedProblems == old(selectedProblems)
      ensures availableProblems == old(availableProblems) && error == old(error)
    {
      time := newTime;
      form := form.(deadline := DeadlineString(date, newTime));
    }

    /**
     * `handleProblemSelection`: the ids as chosen, and both problem lists
     * set to the available problems with those ids.
     */
    method HandleProblemSelection(ids: seq<string>)
      modifies this`selectedProblemIds, this`selectedProblems, this`form
      ensures selectedProblemIds == ids
      ensures selectedProblems == SelectedFrom(old(availableProblems), ids)
      ensures form == old(form).(problems := selectedProblems)
      ensures Synced()
      ensures availableProblems == old(availableProblems) && date == old(date) && time == old(time) && error == old(error)
    {
      selectedProblemIds := ids;
      var chosen := SelectedFrom(availableProblems, ids);
      selectedProblems := chosen;
      form := form.(problems := chosen);
    }

    /**
     * `handleRemoveProblem`: nothing for a null id; otherwise that id leaves
     * the id list and its problem leaves both problem lists, the rest in
     * order. A synced form stays synced.
     */
    method HandleRemoveProblem(removed: Option<int>)
      modifies this`selectedProblemIds, this`selectedProblems, this`form
      ensures removed.None? ==> selectedProblemIds == old(selectedProblemIds) && selectedProblems == old(selectedProblems) && form == old(form)
      ensures removed.Some? ==>
        selectedProblemIds == Lists.Filter(old(selectedProblemIds), OtherIdText(removed.value))
        && selectedProblems == Lists.Filter(old(selectedProblems), OtherProblem(removed.value))
        && form == old(form).(problems := selectedProblems)
      ensures old(Synced()) ==> Synced()
      ensures unchanged(this`availableProblems, this`date, this`time, this`error)
    {
      if removed.None? {
        return;
      }
      ghost var wasSynced := Synced();
      var id := removed.value;
      var ids := Lists.Filter(selectedProblemIds, OtherIdText(id));
      var problems := Lists.Filter(selectedProblems, OtherProblem(id));
      if wasSynced {
        RemovalKeepsSync(availableProblems, selectedProblemIds, id);
        assert problems == SelectedFrom(availableProblems, ids);
      }
      selectedProblemIds := ids;
      selectedProblems := problems;
      form := form.(problems := problems);
    }

    /**
     * `handleSubmit`: nothing without a classroom; an error when the title,
     * description or deadline is empty, or no problem is chosen; otherwise
     * the form is posted to the update endpoint in edit mode and to the save
     * endpoint otherwise. `saved` is whether the server accepted it; a
     * failure sets the mode's message and ends submitting.
     */
    method HandleSubmit(saved: bool) returns (sent: Option<SaveRequest>)
      modifies this`isSubmitting, this`error
      ensures old(classroom).None? ==> sent == None && error == old(error) && isSubmitting == old(isSubmitting)
      ensures old(classroom).Some? && (form.title == "" || form.description == "" || form.deadline == "") ==>
        sent == None && error == FieldsMissing && isSubmitting == old(isSubmitting)
      ensures old(classroom).Some? && form.title != "" && form.description != "" && form.deadline != "" && form.problems == [] ==>
        sent == None && error == NoProblems && isSubmitting == old(isSubmitting)
      ensures sent.Some? <==>
        classroom.Some? && form.title != "" && form.description != "" && form.deadline != "" && form.problems != []
      ensures sent.Some? ==>
        sent.value == SaveRequest(if isEditMode then "/homework/update" else "/homework/save", classroom.value, form)
        && (saved ==> isSubmitting && error == "")
        && (!saved ==> !isSubmitting && error == (if isEditMode then UpdateFailed else CreateFailed))
      ensures classroom == old(classroom) && form == old(form) && isEditMode == old(isEditMode)
      ensures selectedProblemIds == old(selectedProblemIds) && selectedProblems == old(selectedProblems)
    {
      if classroom.None? {
        return None;
      }
      if form.title == "" || form.description == "" || form.deadline == "" {
        error := FieldsMissing;
        return None;
      }
      if form.problems == [] {
        error := NoProblems;
        return None;
      }
      isSubmitting := true;
      error := "";
      sent := Some(SaveRequest(if isEditMode then "/homework/update" else "/homework/save", classroom.value, form));
      if !saved {
        error := if isEditMode then UpdateFailed else CreateFailed;
        isSubmitting := false;
      }
    }
  }

  /**
   * Removing an id from the selected ids and its problem from the selected
   * problems leaves the problems that the remaining ids select.
   */
  lemma RemovalKeepsSync(available: seq<ProblemView>, ids: seq<string>, removed: int)
    ensures Lists.Filter(SelectedFrom(available, ids), OtherProblem(removed))
      == SelectedFrom(available, Lists.Filter(ids, OtherIdText(removed)))
  {
    var remaining := Lists.Filter(ids, OtherIdText(removed));
    forall p: ProblemView
      ensures IdSelected(remaining)(p) == (IdSelected(ids)(p) && OtherProblem(removed)(p))
    {
      if IdString(p.id) == IdString(Some(removed)) {
        IdStringInjective(p.id, Some(removed));
      }
    }
    Lists.FilterBoth(available, IdSelected(ids), OtherProblem(removed), IdSelected(remaining));
  }
}
