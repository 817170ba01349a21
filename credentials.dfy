/** The users table of KeyWorkerApp/database_utils.py: verify_user,
    add_app_user, reset_app_user_password, change_user_password and
    delete_app_user. hash_password (SHA-256 in hex) is a parameter `hash`:
    the model assumes nothing about it beyond being a function, the one
    function database.py and database_utils.py both compute. */
module Credentials {
  import opened Common
  import opened Tables

  type UserTable = map<int, UserRow>

  const SupervisorRole := "supervisor"
  const StaffRole := "staff"

  /** The record verify_user returns and the application keeps as the
      current session. */
  datatype Session = Session(id: int, username: string, role: string, firstLogin: int)

  /** The invariants of users: positive rowids and UNIQUE(username). */
  ghost predicate UsernamesUnique(t: UserTable)
  {
    && (forall id :: id in t ==> id >= 1)
    && (forall a, b :: a in t && b in t && t[a].username == t[b].username ==> a == b)
  }

  predicate UsernameTaken(t: UserTable, username: string)
  {
    exists id :: id in t && t[id].username == username
  }

  /** The row SELECT ... WHERE username = ? fetches, if any. */
  ghost function FindUser(t: UserTable, username: string): (r: Option<int>)
    ensures r.Some? ==> r.value in t && t[r.value].username == username
    ensures r.None? <==> !UsernameTaken(t, username)
  {
    if UsernameTaken(t, username) then Some(var id :| id in t && t[id].username == username; id)
    else None
  }

  lemma FindUserUnique(t: UserTable, id: int)
    requires UsernamesUnique(t) && id in t
    ensures FindUser(t, t[id].username) == Some(id)
  {
  }

  /** verify_user: the session of the user called `username` when the
      stored hash is the hash of `password`, and None otherwise. */
  ghost function VerifyUser(t: UserTable, hash: string -> string, username: string, password: string): Option<Session>
  {
    match FindUser(t, username)
    case None => None
    case Some(id) =>
      var row := t[id];
      if row.passwordHash == hash(password) then Some(Session(id, row.username, row.role, row.firstLogin)) else None
  }

  /** The table after add_app_user's INSERT: a new user always starts with
      first_login = 1. */
  ghost function AddUser(t: UserTable, username: string, passwordHash: string, role: string): UserTable
  {
    t[NextRowId(t.Keys) := UserRow(username, passwordHash, role, 1)]
  }

  /** UPDATE users SET password_hash = ?, first_login = ? WHERE id = ?:
      reset sets the flag to 1, a user's own change sets it to 0. An id with
      no row changes nothing. */
  function SetPassword(t: UserTable, id: int, passwordHash: string, firstLogin: int): UserTable
  {
    if id in t then t[id := t[id].(passwordHash := passwordHash, firstLogin := firstLogin)] else t
  }

  /** DELETE FROM users WHERE id = ?. */
  function DeleteUser(t: UserTable, id: int): UserTable
  {
    t - {id}
  }

  // -------------------------------------------------------------- lemmas

  /** verify_user succeeds iff a user with that name exists and its stored
      hash is the hash of the password; the session it returns is that
      user's row. */
  lemma VerifyUserIff(t: UserTable, hash: string -> string, username: string, password: string)
    requires UsernamesUnique(t)
    ensures VerifyUser(t, hash, username, password).Some? <==>
      exists id :: id in t && t[id].username == username && t[id].passwordHash == hash(password)
    ensures VerifyUser(t, hash, username, password).Some? ==>
      var s := VerifyUser(t, hash, username, password).value;
      s.id in t && s == Session(s.id, username, t[s.id].role, t[s.id].firstLogin)
  {
    if exists id :: id in t && t[id].username == username && t[id].passwordHash == hash(password) {
      var id :| id in t && t[id].username == username && t[id].passwordHash == hash(password);
      FindUserUnique(t, id);
    }
  }

  /** A new user is unique, starts with first_login = 1 and can log in with
      the password given; no other row changes. */
  lemma AddUserFacts(t: UserTable, hash: string -> string, username: string, password: string, role: string)
    requires UsernamesUnique(t) && !UsernameTaken(t, username)
    ensures var t' := AddUser(t, username, hash(password), role);
      && UsernamesUnique(t')
      && t'.Keys == t.Keys + {NextRowId(t.Keys)}
      && (forall id :: id in t ==> t'[id] == t[id])
      && VerifyUser(t', hash, username, password) == Some(Session(NextRowId(t.Keys), username, role, 1))
  {
    NextRowIdFresh(t.Keys);
    var t' := AddUser(t, username, hash(password), role);
    FindUserUnique(t', NextRowId(t.Keys));
  }

  /** Setting a password keeps usernames unique and touches only that row. */
  lemma SetPasswordFacts(t: UserTable, id: int, passwordHash: string, firstLogin: int)
    requires UsernamesUnique(t)
    ensures var t' := SetPassword(t, id, passwordHash, firstLogin);
      && UsernamesUnique(t')
      && t'.Keys == t.Keys
      && (forall x :: x in t && x != id ==> t'[x] == t[x])
      && (id in t ==> t'[id] == UserRow(t[id].username, passwordHash, t[id].role, firstLogin))
  {
  }

  /** After a reset (flag 1) or a user's own change (flag 0), the user logs
      in with the new password and the session carries that flag. */
  lemma SetPasswordThenVerify(t: UserTable, hash: string -> string, id: int, password: string, firstLogin: int)
    requires UsernamesUnique(t) && id in t
    ensures var t' := SetPassword(t, id, hash(password), firstLogin);
      VerifyUser(t', hash, t[id].username, password) == Some(Session(id, t[id].username, t[id].role, firstLogin))
  {
    var t' := SetPassword(t, id, hash(password), firstLogin);
    SetPasswordFacts(t, id, hash(password), firstLogin);
    FindUserUnique(t', id);
  }

  /** A deleted user can no longer log in. */
  lemma DeleteUserThenVerify(t: UserTable, hash: string -> string, id: int, password: string)
    requires UsernamesUnique(t) && id in t
    ensures UsernamesUnique(DeleteUser(t, id))
    ensures VerifyUser(DeleteUser(t, id), hash, t[id].username, password).None?
  {
    var t' := DeleteUser(t, id);
    assert !UsernameTaken(t', t[id].username);
  }
}
