/** The login dialog of KeyWorkerApp/login_window.py. The two entries
    arrive as the parameters of an attempt; `closed` stands for the window
    having been destroyed. */
module Login {
  import opened Common
  import opened Tables
  import opened Credentials
  import opened ActivityLog
  import opened Store

  class LoginWindow {
    const db: Database
    var userInfo: Option<Session>
    var closed: bool

    /** LoginWindow.__init__: nobody is logged in yet. */
    constructor (db: Database)
      ensures this.db == db && userInfo == None && !closed
    {
      this.db := db;
      userInfo := None;
      closed := false;
    }

    /** on_close: closing the window discards any session. */
    method OnClose()
      modifies this`userInfo, this`closed
      ensures userInfo == None && closed
    {
      userInfo := None;
      closed := true;
    }

    /** attempt_login: both fields are required; a verified user becomes
        the session and the window closes with a "LOGIN" entry under the
        stored username; otherwise "LOGIN FAILED" is logged under the name
        typed and the window stays. */
    method AttemptLogin(username: string, password: string)
      requires db.Valid()
      modifies this`userInfo, this`closed, db`log
      ensures db.Valid()
      ensures username == "" || password == "" ==>
        userInfo == old(userInfo) && closed == old(closed) && db.log == old(db.log)
      ensures username != "" && password != "" ==>
        var verified := Credentials.VerifyUser(db.users, db.hash, username, password);
        if verified.Some? then
          && userInfo == verified && closed
          && db.log == Append(old(db.log), verified.value.username, "LOGIN", "Successful login.")
        else
          && userInfo == old(userInfo) && closed == old(closed)
          && db.log == Append(old(db.log), username, "LOGIN FAILED", "Incorrect credentials provided.")
    {
      if username == "" || password == "" {
        return;
      }
      var userData := db.VerifyUser(username, password);
      if userData.Some? {
        userInfo := userData;
        db.LogActivity(userData.value.username, "LOGIN", "Successful login.");
        closed := true;
      } else {
        db.LogActivity(username, "LOGIN FAILED", "Incorrect credentials provided.");
      }
    }
  }
}
