/**
 * `EditProfileDialog`: a user edits their profile, optionally with a new
 * password. The password fields are checked before anything is sent, the
 * DTO carries a password only when one is being changed, and after a save
 * the browser's stored session is replaced when it belongs to the edited
 * user.
 */
module EditProfileDialog {
  import opened Wrappers
  import opened Dtos

  const NoNewPassword := "Please enter a new password"
  const PasswordsDiffer := "Passwords do not match"
  const UpdateFailed := "Failed to update profile. Please try again."

  /** The dialog's fields; `password` is `string | null`. */
  datatype ProfileForm = ProfileForm(
    id: Option<int>,
    username: string,
    firstName: string,
    lastName: string,
    email: string,
    userType: string,
    profilePicture: string,
    password: Option<string>,
    confirmPassword: string)

  /** The form the dialog opens with: the user's fields, or blanks as a student; never a password. */
  function InitialForm(user: Option<UserView>): (f: ProfileForm)
    ensures f.password == None && f.confirmPassword == ""
    ensures user.Some? ==> f.id == user.value.id && f.username == user.value.username && f.userType == user.value.userType
    ensures user.None? ==> f.id == None && f.username == "" && f.userType == "student"
  {
    match user
    case Some(u) => ProfileForm(u.id, u.username, u.firstName, u.lastName, u.email, u.userType, u.profilePicture, None, "")
    case None => ProfileForm(None, "", "", "", "", "student", "", None, "")
  }

  /** `!formData.password`: null and "" are falsy. */
  predicate PasswordMissing(password: Option<string>) {
    password.None? || password.value == ""
  }

  /**
   * The password checks of `handleSubmit`, in their order: when changing,
   * a missing password first, then a confirmation that differs.
   */
  function PasswordProblem(changing: bool, form: ProfileForm): (problem: Option<string>)
    ensures !changing ==> problem == None
    ensures problem == Some(NoNewPassword) <==> changing && PasswordMissing(form.password)
    ensures problem == Some(PasswordsDiffer) <==>
      changing && !PasswordMissing(form.password) && form.password.value != form.confirmPassword
    ensures problem == None <==> !changing || (form.password.Some? && form.password.value != "" && form.password.value == form.confirmPassword)
  {
    if !changing then None
    else if PasswordMissing(form.password) then Some(NoNewPassword)
    else if form.password.value != form.confirmPassword then Some(PasswordsDiffer)
    else None
  }

  /** The `UserDTO` sent: the form's fields, with a password only when one is being changed. */
  function OutgoingUser(changing: bool, form: ProfileForm): (dto: UserView)
    ensures dto.password == (if changing then form.password else None)
    ensures dto.id == form.id && dto.username == form.username && dto.firstName == form.firstName
    ensures dto.lastName == form.lastName && dto.email == form.email && dto.userType == form.userType
    ensures dto.profilePicture == form.profilePicture
  {
    UserView(form.id, form.username, if changing then form.password else None,
      form.firstName, form.lastName, form.email, form.profilePicture, form.userType)
  }

  /** A password that passes the checks is the one sent, and it matches its confirmation. */
  lemma CheckedPasswordIsSent(form: ProfileForm)
    requires PasswordProblem(true, form) == None
    ensures OutgoingUser(true, form).password == Some(form.confirmPassword) && form.confirmPassword != ""
  {
  }

  /** What the session step does to `localStorage`, as the source writes it. */
  datatype SessionEffect = Keep | Overwrite(user: UserView) | Throws

  /**
   * The session step as written: any stored text is parsed, so the text
   * "null" that logout stores parses to null and reading its `id` throws;
   * a stored user is overwritten when its id equals the edited user's.
   */
  function SessionEffectAsWritten(stored: Stored, edited: Option<UserView>, saved: UserView): (e: SessionEffect)
    ensures e == Throws <==> stored == NullText
  {
    match stored
    case Absent => Keep
    case NullText => Throws
    case UserJson(u) => if edited.Some? && u.id == edited.value.id then Overwrite(saved) else Keep
  }

  /**
   * After a logout the stored text is "null": a save that the server
   * accepted then throws in the session step, so the dialog reports a
   * failed update and stays open.
   */
  lemma LoggedOutSaveThrows(edited: UserView, saved: UserView)
    ensures SessionEffectAsWritten(NullText, Some(edited), saved) == Throws
  {
  }

  /**
   * The session step as intended: the stored session becomes the saved
   * user exactly when it is the edited user's, and is otherwise left as it
   * is, "null" included.
   */
  function SessionAfterSave(stored: Stored, edited: Option<UserView>, saved: UserView): (after: Stored)
    ensures after == UserJson(saved) || after == stored
    ensures after != stored ==> stored.UserJson? && edited.Some? && stored.user.id == edited.value.id
    ensures stored.UserJson? && edited.Some? && stored.user.id == edited.value.id ==> after == UserJson(saved)
  {
    match stored
    case UserJson(u) => if edited.Some? && u.id == edited.value.id then UserJson(saved) else stored
    case _ => stored
  }

  /** The intended step agrees with the written one wherever that one does not throw. */
  lemma SessionAfterSaveAgrees(stored: Stored, edited: Option<UserView>, saved: UserView)
    ensures SessionEffectAsWritten(stored, edited, saved) == Keep ==> SessionAfterSave(stored, edited, saved) == stored
    ensures SessionEffectAsWritten(stored, edited, saved).Overwrite? ==> SessionAfterSave(stored, edited, saved) == UserJson(saved)
  {
  }

  /** Another user's session is never replaced. */
  lemma OtherSessionKept(stored: Stored, edited: UserView, saved: UserView)
    requires stored.UserJson? && stored.user.id != edited.id
    ensures SessionAfterSave(stored, Some(edited), saved) == stored
  {
  }

  /** The dialog's state. */
  class ProfileEditor {
    const user: Option<UserView>
    var form: ProfileForm
    var isChangingPassword: bool
    var isLoading: bool
    var error: string

    constructor (user: Option<UserView>)
      ensures this.user == user && form == InitialForm(user) && !isChangingPassword && !isLoading && error == ""
    {
      this.user := user;
      form := InitialForm(user);
      isChangingPassword := false;
      isLoading := false;
      error := "";
    }

    /** `handleChange` on a password field. */
    method EditPasswords(password: Option<string>, confirmPassword: string)
      modifies this`form
      ensures form == old(form).(password := password, confirmPassword := confirmPassword)
      ensures isChangingPassword == old(isChangingPassword) && error == old(error)
    {
      form := form.(password := password, confirmPassword := confirmPassword);
    }

    /**
     * `handleTogglePasswordChange`: the flag flips; switching it on clears
     * the password to null and the confirmation to "".
     */
    method TogglePasswordChange()
      modifies this`form, this`isChangingPassword
      ensures isChangingPassword == !old(isChangingPassword)
      ensures !old(isChangingPassword) ==> form == old(form).(password := None, confirmPassword := "")
      ensures old(isChangingPassword) ==> form == old(form)
      ensures error == old(error) && isLoading == old(isLoading)
    {
      if !isChangingPassword {
        form := form.(password := None, confirmPassword := "");
      }
      isChangingPassword := !isChangingPassword;
    }

    /**
     * `handleSubmit`. A failed password check sets its message and sends
     * nothing. Otherwise the DTO is sent; `response` is the saved user the
     * server returned, None when the request failed. On success the stored
     * session is updated and the dialog closes; on failure the server's
     * message, or the default one, is the error.
     */
    method HandleSubmit(stored: Stored, response: Option<UserView>, serverMessage: string)
      returns (sent: Option<UserView>, storedAfter: Stored, closed: bool)
      modifies this`error, this`isLoading
      ensures PasswordProblem(old(isChangingPassword), old(form)).Some? ==>
        sent == None && storedAfter == stored && !closed
        && error == PasswordProblem(old(isChangingPassword), old(form)).value && isLoading == old(isLoading)
      ensures PasswordProblem(old(isChangingPassword), old(form)) == None ==>
        sent == Some(OutgoingUser(isChangingPassword, form)) && !isLoading
      ensures sent.Some? && response.Some? ==>
        storedAfter == SessionAfterSave(stored, user, response.value) && closed && error == ""
      ensures sent.Some? && response.None? ==>
        storedAfter == stored && !closed && error == (if serverMessage != "" then serverMessage else UpdateFailed)
      ensures form == old(form) && isChangingPassword == old(isChangingPassword)
    {
      var problem := PasswordProblem(isChangingPassword, form);
      if problem.Some? {
        error := problem.value;
        return None, stored, false;
      }
      isLoading := true;
      error := "";
      sent := Some(OutgoingUser(isChangingPassword, form));
      if response.Some? {
        storedAfter := SessionAfterSave(stored, user, response.value);
        closed := true;
      } else {
        error := if serverMessage != "" then serverMessage else UpdateFailed;
        storedAfter := stored;
        closed := false;
      }
      isLoading := false;
    }
  }

  /** Toggling the password change on always lands on the missing-password check first. */
  lemma ToggledOnNeedsAPassword(form: ProfileForm)
    ensures PasswordProblem(true, form.(password := None, confirmPassword := "")) == Some(NoNewPassword)
  {
  }
}
