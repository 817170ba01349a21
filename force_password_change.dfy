/** The first-login dialog of KeyWorkerApp/force_password_change_window.py:
    the new password and its confirmation are checked in a fixed order
    before the store is asked to change it. `parentDestroyed` stands for
    the application being torn down. */
module ForcedChange {
  import opened Common
  import opened Tables
  import opened Credentials
  import opened ActivityLog
  import opened Store

  /** The shortest password the dialog accepts. */
  const MinPasswordLength := 6

  /** Which check of attempt_password_change stops the attempt, if any. */
  datatype Verdict = Missing | TooShort | Mismatch | Accepted

  /** The checks in the order they run: both fields filled, the new one
      long enough, the two equal. A password is accepted exactly when it
      is at least six characters and confirmed, and each rejection names
      the first check that fails (a short password is reported as short
      even when the confirmation differs). */
  function CheckPasswords(newPassword: string, confirmPassword: string): (v: Verdict)
    ensures v == Missing <==> newPassword == "" || confirmPassword == ""
    ensures v == Accepted <==> |newPassword| >= MinPasswordLength && newPassword == confirmPassword
    ensures v == TooShort <==> newPassword != "" && confirmPassword != "" && |newPassword| < MinPasswordLength
    ensures v == Mismatch <==>
      newPassword != "" && confirmPassword != "" && |newPassword| >= MinPasswordLength && newPassword != confirmPassword
  {
    if newPassword == "" || confirmPassword == "" then Missing
    else if |newPassword| < MinPasswordLength then TooShort
    else if newPassword != confirmPassword then Mismatch
    else Accepted
  }

  class ForcePasswordChangeWindow {
    const db: Database
    const user: Session
    var newPassword: string
    var confirmPassword: string
    var passwordChangedSuccessfully: bool
    var closed: bool
    var parentDestroyed: bool

    /** ForcePasswordChangeWindow.__init__. */
    constructor (db: Database, user: Session)
      ensures this.db == db && this.user == user
      ensures newPassword == "" && confirmPassword == ""
      ensures !passwordChangedSuccessfully && !closed && !parentDestroyed
    {
      this.db := db;
      this.user := user;
      newPassword := "";
      confirmPassword := "";
      passwordChangedSuccessfully := false;
      closed := false;
      parentDestroyed := false;
    }

    /** Typing into the two entries. */
    method Enter(newText: string, confirmText: string)
      modifies this`newPassword, this`confirmPassword
      ensures newPassword == newText && confirmPassword == confirmText
    {
      newPassword := newText;
      confirmPassword := confirmText;
    }

    /** attempt_password_change: a short password clears both entries, a
        mismatch clears the confirmation; an accepted one is stored with
        first_login 0 and, if the store reports success, logged, flagged
        and the window closes. `storageFails` is a database error. */
    method AttemptPasswordChange(storageFails: bool)
      requires db.Valid()
      modifies this`newPassword, this`confirmPassword, this`passwordChangedSuccessfully, this`closed
      modifies db`users, db`log
      ensures db.Valid()
      ensures var verdict := CheckPasswords(old(newPassword), old(confirmPassword));
        && (verdict != Accepted ==>
              && db.users == old(db.users) && db.log == old(db.log)
              && passwordChangedSuccessfully == old(passwordChangedSuccessfully) && closed == old(closed))
        && (verdict == Missing ==> newPassword == old(newPassword) && confirmPassword == old(confirmPassword))
        && (verdict == TooShort ==> newPassword == "" && confirmPassword == "")
        && (verdict == Mismatch ==> newPassword == old(newPassword) && confirmPassword == "")
        && (verdict == Accepted ==> newPassword == old(newPassword) && confirmPassword == old(confirmPassword))
        && (verdict == Accepted && !storageFails ==>
              && db.users == SetPassword(old(db.users), user.id, db.hash(old(newPassword)), 0)
              && db.log == Append(old(db.log), user.username, "PASSWORD CHANGE", "User changed their initial password.")
              && passwordChangedSuccessfully && closed)
        && (verdict == Accepted && storageFails ==>
              && db.users == old(db.users) && db.log == old(db.log)
              && passwordChangedSuccessfully == old(passwordChangedSuccessfully) && closed == old(closed))
    {
      if newPassword == "" || confirmPassword == "" {
        return;
      }
      if |newPassword| < MinPasswordLength {
        newPassword := "";
        confirmPassword := "";
        return;
      }
      if newPassword != confirmPassword {
        confirmPassword := "";
        return;
      }
      var ok := db.ChangeUserPassword(user.id, newPassword, storageFails);
      if ok {
        db.LogActivity(user.username, "PASSWORD CHANGE", "User changed their initial password.");
        passwordChangedSuccessfully := true;
        closed := true;
      }
    }

    /** on_close: leaving without a successful change is logged and ends
        the application. */
    method OnClose()
      requires db.Valid()
      modifies this`closed, this`parentDestroyed, db`log
      ensures db.Valid() && closed
      ensures !passwordChangedSuccessfully ==>
        && parentDestroyed
        && db.log == Append(old(db.log), user.username, "PASSWORD CHANGE",
             "User cancelled initial password change. Application terminated.")
      ensures passwordChangedSuccessfully ==> parentDestroyed == old(parentDestroyed) && db.log == old(db.log)
    {
      if !passwordChangedSuccessfully {
        db.LogActivity(user.username, "PASSWORD CHANGE", "User cancelled initial password change. Application terminated.");
        parentDestroyed := true;
      }
      closed := true;
    }
  }
}
