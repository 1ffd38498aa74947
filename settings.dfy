/** The password-change form of the Settings page
    (src/components/Settings.jsx): its two guards, the busy flag around
    the re-authentication and update, and the message each outcome
    leaves. */
module PasswordChange {

  const MISMATCH := "\U{274C} New passwords do not match."
  const TOO_SHORT := "\U{274C} Password must be at least 6 characters long."
  const CHANGED := "\U{2705} Password successfully changed!"
  const GENERIC_FAILURE := "\U{274C} Error changing password. Please check your current password."
  const WRONG_PASSWORD := "\U{274C} Current password is incorrect."

  /** The error code the authentication service gives a wrong current
      password. */
  const WRONG_PASSWORD_CODE := "auth/wrong-password"

  /** The least accepted length of a new password. */
  const MIN_PASSWORD_LENGTH := 6

  /** `s.length`: JavaScript counts UTF-16 code units, so a character
      outside the Basic Multilingual Plane counts twice. */
  function Utf16Length(s: string): nat {
    if s == [] then 0
    else Utf16Length(s[..|s| - 1]) + (if s[|s| - 1] as int > 0xFFFF then 2 else 1)
  }

  /** A JavaScript length is never below the number of characters, and
      not above twice that. */
  lemma {:induction false} Utf16LengthBounds(s: string)
    ensures |s| <= Utf16Length(s) <= 2 * |s|
    ensures (forall i :: 0 <= i < |s| ==> s[i] as int <= 0xFFFF) ==> Utf16Length(s) == |s|
  {
    if s != [] {
      var init := s[..|s| - 1];
      Utf16LengthBounds(init);
      assert forall i :: 0 <= i < |init| ==> init[i] == s[i];
    }
  }

  /** What the guards of `handleChangePassword` decide. */
  datatype Guard = Pass | Refuse(message: string)

  /** The guards in their order: a confirmation that differs from the new
      password, then a new password shorter than 6. */
  function Precheck(newPassword: string, confirmNewPassword: string): Guard {
    if newPassword != confirmNewPassword then Refuse(MISMATCH)
    else if Utf16Length(newPassword) < MIN_PASSWORD_LENGTH then Refuse(TOO_SHORT)
    else Pass
  }

  /** The guards pass exactly for a confirmed password of at least 6
      code units; the mismatch is reported whenever the two differ, even
      when the new password is also too short; and any confirmed password
      of 6 or more characters passes. */
  lemma PrecheckOutcomes(newPassword: string, confirmNewPassword: string)
    ensures Precheck(newPassword, confirmNewPassword) == Pass <==>
      newPassword == confirmNewPassword && Utf16Length(newPassword) >= MIN_PASSWORD_LENGTH
    ensures newPassword != confirmNewPassword ==> Precheck(newPassword, confirmNewPassword) == Refuse(MISMATCH)
    ensures newPassword == confirmNewPassword && Utf16Length(newPassword) < MIN_PASSWORD_LENGTH ==>
      Precheck(newPassword, confirmNewPassword) == Refuse(TOO_SHORT)
    ensures newPassword == confirmNewPassword && |newPassword| >= MIN_PASSWORD_LENGTH ==>
      Precheck(newPassword, confirmNewPassword) == Pass
  {
    Utf16LengthBounds(newPassword);
  }

  /** A confirmed password of fewer than 6 plain characters can still pass
      when it holds characters that count twice. */
  lemma ShortAstralPasswordPasses()
    ensures var p := "\U{1F600}\U{1F600}\U{1F600}";
      |p| == 3 && Precheck(p, p) == Pass
  {
    var p := "\U{1F600}\U{1F600}\U{1F600}";
    var one, two := "\U{1F600}", "\U{1F600}\U{1F600}";
    assert one[..0] == [] && two[..1] == one && p[..2] == two;
    assert Utf16Length(one) == 2;
    assert Utf16Length(two) == 4;
    assert Utf16Length(p) == 6;
  }

  /** Why the re-authentication or the update was rejected: an
      authentication error carries a code, anything else thrown does not. */
  datatype Failure = Coded(code: string) | Uncoded

  /** What the two awaited calls give: `Ok`, or the failure thrown. */
  datatype AuthResult = Ok | Failed(failure: Failure)

  /** The message of the `catch` block: the local `errorMessage` starts
      as the generic text and is replaced only for a wrong password. */
  function FailureMessage(f: Failure): (m: string)
    ensures m == WRONG_PASSWORD <==> f == Coded(WRONG_PASSWORD_CODE)
    ensures m == GENERIC_FAILURE <==> f != Coded(WRONG_PASSWORD_CODE)
  {
    var errorMessage := GENERIC_FAILURE;
    if f.Coded? && f.code == WRONG_PASSWORD_CODE then WRONG_PASSWORD else errorMessage
  }

  /** The passwords a started change sends to the authentication
      service. */
  datatype Request = Request(currentPassword: string, newPassword: string)

  datatype Option<T> = None | Some(value: T)

  /** The form's state. */
  class PasswordForm {
    var currentPassword: string
    var newPassword: string
    var confirmNewPassword: string
    var isChangingPassword: bool
    var passwordMessage: string

    constructor ()
      ensures currentPassword == "" && newPassword == "" && confirmNewPassword == ""
      ensures !isChangingPassword && passwordMessage == ""
    {
      currentPassword, newPassword, confirmNewPassword := "", "", "";
      isChangingPassword := false;
      passwordMessage := "";
    }

    /** `handleChangePassword` up to its first `await`. A refused change
        shows the guard's message and leaves the busy flag and the three
        fields alone; a change that passes sets the busy flag, clears the
        message and sends the current and the new password. */
    method Submit() returns (request: Option<Request>)
      modifies this`passwordMessage, this`isChangingPassword
      ensures match Precheck(old(newPassword), old(confirmNewPassword))
        case Refuse(text) =>
          request == None && passwordMessage == text && isChangingPassword == old(isChangingPassword)
        case Pass =>
          request == Some(Request(currentPassword, newPassword))
          && isChangingPassword && passwordMessage == ""
    {
      if newPassword != confirmNewPassword {
        passwordMessage := MISMATCH;
        return None;
      }
      if Utf16Length(newPassword) < MIN_PASSWORD_LENGTH {
        passwordMessage := TOO_SHORT;
        return None;
      }
      isChangingPassword := true;
      passwordMessage := "";
      request := Some(Request(currentPassword, newPassword));
    }

    /** The rest of `handleChangePassword`, once the re-authentication
        and then (only when that succeeded) the update have answered. On
        success the three fields are emptied; on a failure they are kept
        and the failure's message is shown; either way the busy flag ends
        unset. */
    method Settle(reauthenticated: AuthResult, updated: AuthResult)
      modifies this`passwordMessage, this`isChangingPassword,
               this`currentPassword, this`newPassword, this`confirmNewPassword
      ensures !isChangingPassword
      ensures reauthenticated.Ok? && updated.Ok? ==>
        passwordMessage == CHANGED && currentPassword == "" && newPassword == "" && confirmNewPassword == ""
      ensures reauthenticated.Failed? || updated.Failed? ==>
        && passwordMessage == FailureMessage(if reauthenticated.Failed? then reauthenticated.failure else updated.failure)
        && currentPassword == old(currentPassword) && newPassword == old(newPassword)
        && confirmNewPassword == old(confirmNewPassword)
    {
      var failure: Option<Failure> := None;
      if reauthenticated.Failed? {
        failure := Some(reauthenticated.failure);
      } else if updated.Failed? {
        failure := Some(updated.failure);
      }
      if failure.None? {
        passwordMessage := CHANGED;
        currentPassword := "";
        newPassword := "";
        confirmNewPassword := "";
      } else {
        var errorMessage := GENERIC_FAILURE;
        if failure.value.Coded? && failure.value.code == WRONG_PASSWORD_CODE {
          errorMessage := WRONG_PASSWORD;
        }
        passwordMessage := errorMessage;
      }
      isChangingPassword := false;
    }
  }

  /** The two steps together: a change refused by a guard never reaches
      the service and leaves the form as it was but for the message; one
      that passes ends with the busy flag unset again, whatever the
      service answers. */
  method ChangePassword(form: PasswordForm, reauthenticated: AuthResult, updated: AuthResult)
      returns (request: Option<Request>)
    modifies form
    ensures form.isChangingPassword == (old(form.isChangingPassword) && request.None?)
    ensures request.None? <==> Precheck(old(form.newPassword), old(form.confirmNewPassword)).Refuse?
    ensures request.None? ==>
      && form.passwordMessage == Precheck(old(form.newPassword), old(form.confirmNewPassword)).message
      && form.currentPassword == old(form.currentPassword) && form.newPassword == old(form.newPassword)
      && form.confirmNewPassword == old(form.confirmNewPassword)
    ensures request.Some? ==>
      && request.value == Request(old(form.currentPassword), old(form.newPassword))
      && (form.passwordMessage == CHANGED <==> reauthenticated.Ok? && updated.Ok?)
    ensures request.Some? && reauthenticated.Ok? && updated.Ok? ==>
      form.currentPassword == "" && form.newPassword == "" && form.confirmNewPassword == ""
    ensures request.Some? && (reauthenticated.Failed? || updated.Failed?) ==>
      && form.passwordMessage ==
           FailureMessage(if reauthenticated.Failed? then reauthenticated.failure else updated.failure)
      && form.currentPassword == old(form.currentPassword) && form.newPassword == old(form.newPassword)
      && form.confirmNewPassword == old(form.confirmNewPassword)
  {
    request := form.Submit();
    if request.Some? {
      form.Settle(reauthenticated, updated);
    }
  }
}
