/** The Change Password dialog: `passwordSchema` with its cross-field refinement, and the
    outcome of `auth.updateUser`. The signed-in account's password is the state it changes. */
module Passwords {
  import opened Wrappers
  import opened Ui

  datatype PasswordForm = PasswordForm(newPassword: string, confirmPassword: string)

  /** What `reset()` leaves in the two inputs. */
  const BlankForm: PasswordForm := PasswordForm("", "")

  /** The field rule and the refinement. zod runs the refinement even when the length rule has
      failed, so both errors can be shown together; the mismatch is reported on
      `confirmPassword`. */
  function Validate(f: PasswordForm): (errors: seq<FieldError>)
    ensures FieldError("newPassword", "Password must be at least 6 characters") in errors <==> |f.newPassword| < 6
    ensures FieldError("confirmPassword", "Passwords don't match") in errors <==> f.newPassword != f.confirmPassword
    ensures forall e :: e in errors ==> e.field == "newPassword" || e.field == "confirmPassword"
  {
    Rule(|f.newPassword| < 6, FieldError("newPassword", "Password must be at least 6 characters"))
    + Rule(f.newPassword != f.confirmPassword, FieldError("confirmPassword", "Passwords don't match"))
  }

  /** The form is accepted exactly when the new password has six characters or more and the
      confirmation repeats it. */
  lemma {:induction false} ValidIff(f: PasswordForm)
    ensures Validate(f) == [] <==> |f.newPassword| >= 6 && f.newPassword == f.confirmPassword
  {
    if Validate(f) == [] {
      assert FieldError("newPassword", "Password must be at least 6 characters") !in Validate(f);
      assert FieldError("confirmPassword", "Passwords don't match") !in Validate(f);
    }
  }

  /** The account password, the form, whether the dialog is open, and the toast. */
  datatype Outcome = Outcome(password: string, form: PasswordForm, open: bool, toast: Option<Toast>)

  /** `onSubmit`: an invalid form makes no call; on success the new password is the account's,
      the form is reset and the dialog closed; an error shows the backend's message as is and
      leaves the dialog open with its input. */
  function Submit(password: string, f: PasswordForm, open: bool, reply: Reply): (r: Outcome)
    ensures Validate(f) != [] ==> r == Outcome(password, f, open, None)
    ensures r.password != password ==> r.password == f.newPassword && |r.password| >= 6
    ensures r.toast == Some(Success("Password updated successfully")) <==> Validate(f) == [] && reply.Accepted?
    ensures r.toast == Some(Success("Password updated successfully")) ==>
      r.password == f.newPassword && r.form == BlankForm && !r.open
    ensures Validate(f) == [] && reply.Refused? ==> r == Outcome(password, f, open, Some(Error(reply.message)))
  {
    if Validate(f) != [] then Outcome(password, f, open, None)
    else match reply
      case Accepted => Outcome(f.newPassword, BlankForm, false, Some(Success("Password updated successfully")))
      case Refused(message) => Outcome(password, f, open, Some(Error(message)))
  }
}
