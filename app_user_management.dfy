/** The supervisor's app-user screen of
    KeyWorkerApp/app_user_management_window.py: add a user under a derived
    username, reset a password, delete a user. The entries are fields; the
    confirmation box and the password prompt arrive as parameters ("" for a
    cancelled prompt). */
module AppUserAdmin {
  import opened Common
  import opened Tables
  import opened Credentials
  import opened ActivityLog
  import opened Store

  /** A row of the user list: whether it offers Reset and Delete. */
  datatype UserRowView = UserRowView(id: int, username: string, role: string, actions: bool)

  /** The username add_user derives: "first.last", each part stripped and
      lower-cased. */
  function Username(first: string, last: string): string
  {
    Lower(Strip(first)) + "." + Lower(Strip(last))
  }

  lemma NotInStrip(s: string, c: char)
    requires c !in s
    ensures c !in Strip(s)
  {
    var l := StripLeft(s);
    var r := StripRight(l);
    forall i | 0 <= i < |r| ensures r[i] != c {
      assert r[i] == l[i] == s[|s| - |l| + i];
    }
  }

  /** Normalising a name without a dot gives a name without a dot. */
  lemma NoDotNormalised(name: string)
    requires '.' !in name
    ensures '.' !in Lower(Strip(name))
  {
    NotInStrip(name, '.');
    var n := Lower(Strip(name));
    forall i | 0 <= i < |n| ensures n[i] != '.' {
      assert n[i] == LowerChar(Strip(name)[i]);
    }
  }

  /** Names without a dot give a username that splits back at its one dot
      into the two normalised names. */
  lemma UsernameSplits(first: string, last: string)
    requires '.' !in first && '.' !in last
    ensures Split(Username(first, last), '.') == [Lower(Strip(first)), Lower(Strip(last))]
  {
    NoDotNormalised(first);
    NoDotNormalised(last);
    SplitDotted(Lower(Strip(first)), Lower(Strip(last)));
  }

  /** Two names without a dot, joined by one, split back into the two. */
  lemma SplitDotted(f: string, l: string)
    requires '.' !in f && '.' !in l
    ensures Split(f + "." + l, '.') == [f, l]
  {
    assert Join(".", [f, l]) == f + "." + l;
    SplitJoin([f, l], '.');
  }

  /** The list refresh_user_list shows for table `t`: the users in strictly
      ascending username order (ORDER BY username over unique usernames),
      each row offering its actions exactly when it is not the logged-in
      user's. */
  ghost predicate RowsShow(rows: seq<UserRowView>, t: UserTable, currentUsername: string)
  {
    && (forall i, j :: 0 <= i < j < |rows| ==> LexLess(rows[i].username, rows[j].username))
    && (forall k :: 0 <= k < |rows| ==>
          && rows[k].id in t && rows[k].username == t[rows[k].id].username && rows[k].role == t[rows[k].id].role
          && (rows[k].actions <==> rows[k].username != currentUsername))
    && (forall id :: id in t ==> exists k :: 0 <= k < |rows| && rows[k].id == id)
  }

  /** Nobody is offered a reset or a delete of their own account. */
  lemma OwnRowHasNoActions(rows: seq<UserRowView>, t: UserTable, current: Session, k: int)
    requires RowsShow(rows, t, current.username)
    requires current.id in t && t[current.id].username == current.username
    requires 0 <= k < |rows| && rows[k].actions
    ensures rows[k].id != current.id
  {
  }

  class AppUserManagementWindow {
    const db: Database
    const currentUser: Session
    var firstName: string
    var lastName: string
    var password: string
    var rows: seq<UserRowView>

    /** AppUserManagementWindow.__init__: empty entries and the list. */
    constructor (db: Database, currentUser: Session)
      requires db.Valid()
      ensures this.db == db && this.currentUser == currentUser
      ensures firstName == "" && lastName == "" && password == ""
      ensures RowsShow(rows, db.users, currentUser.username)
    {
      this.db := db;
      this.currentUser := currentUser;
      firstName := "";
      lastName := "";
      password := "";
      rows := [];
      new;
      RefreshUserList();
    }

    /** refresh_user_list. */
    method RefreshUserList()
      requires db.Valid()
      modifies this`rows
      ensures RowsShow(rows, db.users, currentUser.username)
    {
      var users := db.GetAllAppUsers();
      rows := seq(|users|, k requires 0 <= k < |users| =>
        UserRowView(users[k].id, users[k].username, users[k].role, users[k].username != currentUser.username));
      forall id | id in db.users ensures exists k :: 0 <= k < |rows| && rows[k].id == id {
        var k :| 0 <= k < |users| && users[k] == AppUserListing(id, db.users[id].username, db.users[id].role);
        assert rows[k].id == id;
      }
    }

    /** Typing into the three entries. */
    method Enter(first: string, last: string, pw: string)
      modifies this`firstName, this`lastName, this`password
      ensures firstName == first && lastName == last && password == pw
    {
      firstName := first;
      lastName := last;
      password := pw;
    }

    /** add_user: all three fields are required (the names after strip and
        lower); the derived username is added with first_login 1, then
        logged, the entries cleared and the list refreshed. A taken name
        changes nothing. */
    method AddUser(role: string)
      requires db.Valid()
      modifies this`firstName, this`lastName, this`password, this`rows, db`users, db`log
      ensures db.Valid()
      ensures var username := Username(old(firstName), old(lastName));
        var accepted := Lower(Strip(old(firstName))) != "" && Lower(Strip(old(lastName))) != "" && old(password) != ""
          && !UsernameTaken(old(db.users), username);
        && (!accepted ==>
              && db.users == old(db.users) && db.log == old(db.log)
              && firstName == old(firstName) && lastName == old(lastName) && password == old(password)
              && rows == old(rows))
        && (accepted ==>
              && db.users == Credentials.AddUser(old(db.users), username, db.hash(old(password)), role)
              && db.log == Append(old(db.log), currentUser.username, "ADD APP USER",
                   "Added user: " + username + " with role: " + role)
              && firstName == "" && lastName == "" && password == ""
              && RowsShow(rows, db.users, currentUser.username))
    {
      if Lower(Strip(firstName)) == "" || Lower(Strip(lastName)) == "" || password == "" {
        return;
      }
      Register(Username(firstName, lastName), role);
    }

    /** The second half of add_user, once the fields are filled: add the
        user under `username` with the typed password; on success log it,
        clear the entries and refresh the list. */
    method Register(username: string, role: string)
      requires db.Valid()
      modifies this`firstName, this`lastName, this`password, this`rows, db`users, db`log
      ensures db.Valid()
      ensures UsernameTaken(old(db.users), username) ==>
        && db.users == old(db.users) && db.log == old(db.log)
        && firstName == old(firstName) && lastName == old(lastName) && password == old(password)
        && rows == old(rows)
      ensures !UsernameTaken(old(db.users), username) ==>
        && db.users == Credentials.AddUser(old(db.users), username, db.hash(old(password)), role)
        && db.log == Append(old(db.log), currentUser.username, "ADD APP USER",
             "Added user: " + username + " with role: " + role)
        && firstName == "" && lastName == "" && password == ""
        && RowsShow(rows, db.users, currentUser.username)
    {
      var ok := db.AddAppUser(username, password, role);
      if ok {
        db.LogActivity(currentUser.username, "ADD APP USER", "Added user: " + username + " with role: " + role);
        firstName := "";
        lastName := "";
        password := "";
        RefreshUserList();
      }
    }

    /** delete_user: after confirmation the user is deleted and the deletion
        logged; the button exists only on rows offering actions. */
    method DeleteUser(id: int, username: string, confirm: bool)
      requires db.Valid()
      requires exists k :: 0 <= k < |rows| && rows[k] == UserRowView(id, username, rows[k].role, true)
      modifies this`rows, db`users, db`log
      ensures db.Valid()
      ensures !confirm ==> db.users == old(db.users) && db.log == old(db.log) && rows == old(rows)
      ensures confirm ==>
        && db.users == Credentials.DeleteUser(old(db.users), id)
        && db.log == Append(old(db.log), currentUser.username, "DELETE APP USER",
             "Deleted user: " + username + " (ID: " + IntToString(id) + ")")
        && RowsShow(rows, db.users, currentUser.username)
    {
      if confirm {
        db.DeleteAppUser(id);
        db.LogActivity(currentUser.username, "DELETE APP USER", "Deleted user: " + username + " (ID: " + IntToString(id) + ")");
        RefreshUserList();
      }
    }

    /** reset_password: an empty answer to the prompt cancels; otherwise
        the password is reset with first_login 1 and, on success, logged. */
    method ResetPassword(id: int, username: string, newPassword: string, storageFails: bool)
      requires db.Valid()
      requires exists k :: 0 <= k < |rows| && rows[k] == UserRowView(id, username, rows[k].role, true)
      modifies db`users, db`log
      ensures db.Valid()
      ensures newPassword == "" || storageFails ==> db.users == old(db.users) && db.log == old(db.log)
      ensures newPassword != "" && !storageFails ==>
        && db.users == SetPassword(old(db.users), id, db.hash(newPassword), 1)
        && db.log == Append(old(db.log), currentUser.username, "RESET PASSWORD", "Reset password for user: " + username)
    {
      if newPassword == "" {
        return;
      }
      var ok := db.ResetAppUserPassword(id, newPassword, storageFails);
      if ok {
        db.LogActivity(currentUser.username, "RESET PASSWORD", "Reset password for user: " + username);
      }
    }
  }
}
