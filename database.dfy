/** The record store as the application sees it: the tables of
    KeyWorkerApp/database.py and the operations of
    KeyWorkerApp/database_utils.py on them. Each table is a field; each
    operation is a method that changes only the tables its SQL statements
    touch and states the new tables through the functions of FormStore,
    Residents, Credentials, ActivityLog and Schema. */
module Store {
  import opened Common
  import opened Tables
  import opened FormStore
  import opened Residents
  import opened Credentials
  import opened ActivityLog
  import opened Schema

  /** The three columns get_all_app_users selects. */
  datatype AppUserListing = AppUserListing(id: int, username: string, role: string)

  /** The three columns get_all_service_users selects. */
  datatype ResidentListing = ResidentListing(id: int, name: string, dob: string)

  /** What get_all_service_users promises of its rows for table `t`:
      ordered by name, each a row of the table, every row of the table. */
  ghost predicate ListingOf(t: ResidentTable, rows: seq<ResidentListing>)
  {
    && (forall i, j :: 0 <= i < j < |rows| ==> LexLess(rows[i].name, rows[j].name))
    && (forall k :: 0 <= k < |rows| ==> rows[k].id in t && rows[k] == ResidentListing(rows[k].id, t[rows[k].id].name, t[rows[k].id].dob))
    && (forall id :: id in t ==> ResidentListing(id, t[id].name, t[id].dob) in rows)
  }

  class Database {
    /** hash_password: the same SHA-256 function in database.py and
        database_utils.py. */
    const hash: string -> string
    var schema: SchemaMap
    var users: UserTable
    var serviceUsers: ResidentTable
    var forms: map<int, FormRow>
    var appointments: seq<AppointmentRow>
    var log: seq<LogEntry>

    /** The UNIQUE constraints, positive rowids and the log's counter. */
    ghost predicate Valid()
      reads this`users, this`serviceUsers, this`forms, this`log
    {
      UsernamesUnique(users) && NamesUnique(serviceUsers) && WellFormed(forms) && Stamped(log)
    }

    /** A database file that does not exist yet. */
    constructor (hash: string -> string)
      ensures Valid() && this.hash == hash
      ensures schema == map[] && users == map[] && serviceUsers == map[]
      ensures forms == map[] && appointments == [] && log == []
    {
      this.hash := hash;
      schema := map[];
      users := map[];
      serviceUsers := map[];
      forms := map[];
      appointments := [];
      log := [];
    }

    // ------------------------------------------------------------ database.py

    /** initialize_db: create the missing tables, add the missing columns and
        seed the supervisor account when there is none. */
    method InitializeDb()
      requires Valid()
      modifies this`schema, this`users
      ensures Valid()
      ensures schema == InitSchema(old(schema))
      ensures users == InitUsers(old(schema), old(users), hash)
    {
      SetUpUsers();
      CreateRemainingTables();
    }

    /** The users statements of initialize_db, then the supervisor seed. */
    method SetUpUsers()
      requires Valid()
      modifies this`schema, this`users
      ensures Valid()
      ensures schema == UsersStage(old(schema))
      ensures users == InitUsers(old(schema), old(users), hash)
    {
      ghost var s0, users0 := schema, users;
      MigrateUsersTable();
      SeedSupervisor(s0, users0);
    }

    /** The users statements of initialize_db: create the table, read its
        columns once, add role and first_login when missing. */
    method MigrateUsersTable()
      requires Valid()
      modifies this`schema, this`users
      ensures schema == UsersStage(old(schema))
      ensures users == MigrateUsers(old(schema), old(users))
      ensures UsernamesUnique(users) && UsernameTaken(users, SupervisorName) == UsernameTaken(old(users), SupervisorName)
    {
      MigrateUsersKeepsUnique(schema, users);
      schema := CreateIfNotExists(schema, UsersTable, UsersColumns);
      var userColumns := schema[UsersTable];
      if RoleColumn !in userColumns {
        schema := schema[UsersTable := schema[UsersTable] + [RoleColumn]];
        users := WithRole(users, StaffRole);
      }
      if FirstLoginColumn !in userColumns {
        schema := schema[UsersTable := schema[UsersTable] + [FirstLoginColumn]];
        users := WithFirstLogin(users, 1);
      }
    }

    /** Insert the supervisor account unless a user is called
        "supervisor". */
    method SeedSupervisor(ghost s0: SchemaMap, ghost users0: UserTable)
      requires UsernamesUnique(users0) && users == MigrateUsers(s0, users0)
      requires NamesUnique(serviceUsers) && WellFormed(forms) && Stamped(log)
      modifies this`users
      ensures users == InitUsers(s0, users0, hash)
      ensures Valid()
    {
      if !UsernameTaken(users, SupervisorName) {
        var id := NewRowId(users.Keys);
        users := users[id := UserRow(SupervisorName, hash(SupervisorPassword), SupervisorRole, 0)];
      }
      InitUsersSeed(s0, users0, hash);
    }

    /** The statements of initialize_db after the supervisor seed:
        service_users, forms, appointments and activity_log; no table rows
        change. */
    method CreateRemainingTables()
      modifies this`schema
      ensures unchanged(this`users, this`serviceUsers, this`forms, this`log)
      ensures schema == TablesStage(old(schema))
    {
      schema := RemainingTables(schema);
    }

    /** The statements themselves, run on the schema as it stands. */
    static method RemainingTables(s0: SchemaMap) returns (s: SchemaMap)
      ensures s == TablesStage(s0)
    {
      s := CreateIfNotExists(s0, ServiceUsersTable, ServiceUsersColumns);
      s := MigrateFormsTable(s);
      s := CreateIfNotExists(s, AppointmentsTable, AppointmentsColumns);
      s := CreateIfNotExists(s, ActivityLogTable, ActivityLogColumns);
    }

    /** The forms statements of initialize_db: create the table, then the
        five ALTERs whose "duplicate column" errors are swallowed. */
    static method MigrateFormsTable(s0: SchemaMap) returns (s: SchemaMap)
      ensures s == FormsStage(s0)
    {
      s := CreateIfNotExists(s0, FormsTable, FormsCreateColumns);
      s := AddColumnIfMissing(s, FormsTable, "shop_q1_comments");
      s := AddColumnIfMissing(s, FormsTable, "shop_q2_comments");
      s := AddColumnIfMissing(s, FormsTable, "shop_q3_comments");
      s := AddColumnIfMissing(s, FormsTable, "feeling_icons_selected");
      s := AddColumnIfMissing(s, FormsTable, "care_icons_selected");
    }

    // ------------------------------------------------------- activity log

    /** log_activity. */
    method LogActivity(user: string, action: string, details: string)
      requires Valid()
      modifies this`log
      ensures Valid()
      ensures log == Append(old(log), user, action, details)
    {
      log := log + [LogEntry(|log|, user, action, details)];
    }

    /** get_activity_log: every entry, the most recent first. */
    method GetActivityLog() returns (rows: seq<LogEntry>)
      ensures rows == NewestFirst(log)
    {
      rows := [];
      var i := |log|;
      while i > 0
        invariant 0 <= i <= |log|
        invariant |rows| == |log| - i
        invariant forall k :: 0 <= k < |rows| ==> rows[k] == log[|log| - 1 - k]
      {
        i := i - 1;
        rows := rows + [log[i]];
      }
    }

    // ----------------------------------------------------------- app users

    /** verify_user. */
    method VerifyUser(username: string, password: string) returns (r: Option<Session>)
      requires Valid()
      ensures r == Credentials.VerifyUser(users, hash, username, password)
    {
      if UsernameTaken(users, username) {
        var id :| id in users && users[id].username == username;
        FindUserUnique(users, id);
        var row := users[id];
        if row.passwordHash == hash(password) {
          r := Some(Session(id, row.username, row.role, row.firstLogin));
        } else {
          r := None;
        }
      } else {
        r := None;
      }
    }

    /** get_all_app_users: every user once, ORDER BY username. */
    method GetAllAppUsers() returns (rows: seq<AppUserListing>)
      requires Valid()
      ensures forall i, j :: 0 <= i < j < |rows| ==> LexLess(rows[i].username, rows[j].username)
      ensures forall k :: 0 <= k < |rows| ==>
        rows[k].id in users && rows[k] == AppUserListing(rows[k].id, users[rows[k].id].username, users[rows[k].id].role)
      ensures forall id :: id in users ==> AppUserListing(id, users[id].username, users[id].role) in rows
    {
      var t := users;
      var names := map id | id in t :: t[id].username;
      var ids := SortByName(names);
      rows := seq(|ids|, k requires 0 <= k < |ids| => AppUserListing(ids[k], t[ids[k]].username, t[ids[k]].role));
      forall id | id in t
        ensures AppUserListing(id, t[id].username, t[id].role) in rows
      {
        assert id in names;
        var k :| 0 <= k < |ids| && ids[k] == id;
        assert rows[k] == AppUserListing(id, t[id].username, t[id].role);
      }
    }

    /** add_app_user: a new user with first_login = 1, unless the username
        is taken. */
    method AddAppUser(username: string, password: string, role: string) returns (ok: bool)
      requires Valid()
      modifies this`users
      ensures Valid()
      ensures ok == !UsernameTaken(old(users), username)
      ensures ok ==> users == AddUser(old(users), username, hash(password), role)
      ensures !ok ==> users == old(users)
    {
      if UsernameTaken(users, username) {
        ok := false;
      } else {
        AddUserFacts(users, hash, username, password, role);
        var id := NewRowId(users.Keys);
        users := users[id := UserRow(username, hash(password), role, 1)];
        ok := true;
      }
    }

    /** delete_app_user. */
    method DeleteAppUser(id: int)
      requires Valid()
      modifies this`users
      ensures Valid()
      ensures users == DeleteUser(old(users), id)
    {
      users := users - {id};
    }

    /** reset_app_user_password: new hash and first_login = 1; a storage
        error (`storageFails`) changes nothing and returns false. */
    method ResetAppUserPassword(id: int, newPassword: string, storageFails: bool) returns (ok: bool)
      requires Valid()
      modifies this`users
      ensures Valid()
      ensures ok == !storageFails
      ensures ok ==> users == SetPassword(old(users), id, hash(newPassword), 1)
      ensures !ok ==> users == old(users)
    {
      if storageFails {
        return false;
      }
      SetPasswordFacts(users, id, hash(newPassword), 1);
      users := SetPassword(users, id, hash(newPassword), 1);
      ok := true;
    }

    /** change_user_password: new hash and first_login = 0. */
    method ChangeUserPassword(id: int, newPassword: string, storageFails: bool) returns (ok: bool)
      requires Valid()
      modifies this`users
      ensures Valid()
      ensures ok == !storageFails
      ensures ok ==> users == SetPassword(old(users), id, hash(newPassword), 0)
      ensures !ok ==> users == old(users)
    {
      if storageFails {
        return false;
      }
      SetPasswordFacts(users, id, hash(newPassword), 0);
      users := SetPassword(users, id, hash(newPassword), 0);
      ok := true;
    }

    // --------------------------------------------------------- residents

    /** add_service_user: insert, and log only when the insert succeeded. */
    method AddServiceUser(name: string, dob: string, performedBy: string) returns (ok: bool)
      requires Valid()
      modifies this`serviceUsers, this`log
      ensures Valid()
      ensures ok == CanAdd(old(serviceUsers), name)
      ensures ok ==> (serviceUsers == AddResident(old(serviceUsers), name, dob)
        && log == Append(old(log), performedBy, "ADD SERVICE USER", "Added: " + name))
      ensures !ok ==> serviceUsers == old(serviceUsers) && log == old(log)
    {
      if !CanAdd(serviceUsers, name) {
        return false;
      }
      AddResidentFacts(serviceUsers, name, dob);
      var id := NewRowId(serviceUsers.Keys);
      serviceUsers := serviceUsers[id := ServiceUserRow(name, dob)];
      LogActivity(performedBy, "ADD SERVICE USER", "Added: " + name);
      ok := true;
    }

    /** get_all_service_users: every resident once, ORDER BY name. */
    method GetAllServiceUsers() returns (rows: seq<ResidentListing>)
      requires Valid()
      ensures forall i, j :: 0 <= i < j < |rows| ==> LexLess(rows[i].name, rows[j].name)
      ensures forall k :: 0 <= k < |rows| ==>
        rows[k].id in serviceUsers
        && rows[k] == ResidentListing(rows[k].id, serviceUsers[rows[k].id].name, serviceUsers[rows[k].id].dob)
      ensures forall id :: id in serviceUsers ==>
        ResidentListing(id, serviceUsers[id].name, serviceUsers[id].dob) in rows
    {
      var t := serviceUsers;
      var names := map id | id in t :: t[id].name;
      var ids := SortByName(names);
      rows := seq(|ids|, k requires 0 <= k < |ids| => ResidentListing(ids[k], t[ids[k]].name, t[ids[k]].dob));
      forall id | id in t
        ensures ResidentListing(id, t[id].name, t[id].dob) in rows
      {
        assert id in names;
        var k :| 0 <= k < |ids| && ids[k] == id;
        assert rows[k] == ResidentListing(id, t[id].name, t[id].dob);
      }
    }

    /** update_service_user: fails only on a name another resident has;
        an unknown id updates nothing but still succeeds and logs. */
    method UpdateServiceUser(id: int, name: string, dob: string, performedBy: string) returns (ok: bool)
      requires Valid()
      modifies this`serviceUsers, this`log
      ensures Valid()
      ensures ok == CanUpdate(old(serviceUsers), id, name)
      ensures ok ==> (serviceUsers == UpdateResident(old(serviceUsers), id, name, dob)
        && log == Append(old(log), performedBy, "UPDATE SERVICE USER",
                         "Updated ID " + IntToString(id) + " to Name: " + name + ", DOB: " + dob))
      ensures !ok ==> serviceUsers == old(serviceUsers) && log == old(log)
    {
      if !CanUpdate(serviceUsers, id, name) {
        return false;
      }
      UpdateResidentFacts(serviceUsers, id, name, dob);
      serviceUsers := UpdateResident(serviceUsers, id, name, dob);
      LogActivity(performedBy, "UPDATE SERVICE USER", "Updated ID " + IntToString(id) + " to Name: " + name + ", DOB: " + dob);
      ok := true;
    }

    /** delete_service_user: the resident's forms and row go, its forms'
        appointments stay; an unknown id changes nothing and logs nothing. */
    method DeleteServiceUser(id: int, performedBy: string)
      requires Valid()
      modifies this`serviceUsers, this`forms, this`log
      ensures Valid()
      ensures id in old(serviceUsers) ==>
        && serviceUsers == old(serviceUsers) - {id}
        && forms == FormsWithoutResident(old(forms), id)
        && log == Append(old(log), performedBy, "DELETE SERVICE USER",
                         "Deleted: " + old(serviceUsers)[id].name + " (ID: " + IntToString(id) + ")")
      ensures id !in old(serviceUsers) ==>
        serviceUsers == old(serviceUsers) && forms == old(forms) && log == old(log)
    {
      if id in serviceUsers {
        var name := serviceUsers[id].name;
        FormsWithoutResidentFacts(forms, id);
        forms := FormsWithoutResident(forms, id);
        serviceUsers := serviceUsers - {id};
        LogActivity(performedBy, "DELETE SERVICE USER", "Deleted: " + name + " (ID: " + IntToString(id) + ")");
      }
    }

    // -------------------------------------------------------------- forms

    /** get_form_data. */
    method GetFormData(serviceUserId: int, monthYear: string) returns (r: Option<FormRow>)
      requires Valid()
      ensures r == FormStore.GetFormData(forms, serviceUserId, monthYear)
    {
      if exists id :: id in forms && HasKey(forms[id], serviceUserId, monthYear) {
        var id :| id in forms && HasKey(forms[id], serviceUserId, monthYear);
        FindFormUnique(forms, id, serviceUserId, monthYear);
        r := Some(forms[id]["id" := Int(id)]);
      } else {
        r := None;
      }
    }

    /** save_form_data_db: update the form under the payload's key, or
        insert one; returns its id. */
    method SaveFormDataDb(payload: map<string, Value>) returns (formId: int)
      requires Valid() && Keyed(payload)
      modifies this`forms
      ensures Valid()
      ensures Saved(forms, formId) == Upsert(old(forms), payload)
    {
      var sid := payload[ServiceUserIdColumn].i;
      var monthYear := payload[MonthYearColumn].s;
      var cells := map c | c in payload && c in Columns :: payload[c];
      UpsertWellFormed(forms, payload);
      if exists id :: id in forms && HasKey(forms[id], sid, monthYear) {
        formId :| formId in forms && HasKey(forms[formId], sid, monthYear);
        FindFormUnique(forms, formId, sid, monthYear);
        forms := forms[formId := forms[formId] + cells];
      } else {
        formId := NewRowId(forms.Keys);
        forms := forms[formId := cells];
      }
    }

    /** save_form_data: the upsert, then a "SAVE FORM" entry when it
        returned an id, which it always does. */
    method SaveFormData(payload: map<string, Value>, performedBy: string) returns (formId: int)
      requires Valid() && Keyed(payload)
      modifies this`forms, this`log
      ensures Valid()
      ensures formId >= 1
      ensures Saved(forms, formId) == Upsert(old(forms), payload)
      ensures log == Append(old(log), performedBy, "SAVE FORM",
        "Saved form for " + Render(Get(payload, "service_user_name")) + " for month " + Render(Get(payload, MonthYearColumn)))
    {
      UpsertIdTruthy(forms, payload);
      formId := SaveFormDataDb(payload);
      if formId != 0 {
        LogActivity(performedBy, "SAVE FORM",
          "Saved form for " + Render(Get(payload, "service_user_name")) + " for month " + Render(Get(payload, MonthYearColumn)));
      }
    }

    // ------------------------------------------------------- appointments

    /** get_appointments: the form's appointments in rowid order. */
    method GetAppointments(formId: int) returns (list: seq<AppointmentData>)
      ensures list == AppointmentsOf(appointments, formId)
    {
      list := [];
      var i := 0;
      while i < |appointments|
        invariant 0 <= i <= |appointments|
        invariant list == AppointmentsOf(appointments[..i], formId)
      {
        assert appointments[..i + 1] == appointments[..i] + [appointments[i]];
        AppointmentsOfConcat(appointments[..i], [appointments[i]], formId);
        if appointments[i].formId == formId {
          list := list + [appointments[i].data];
        }
        i := i + 1;
      }
      assert appointments[..i] == appointments;
    }

    /** save_appointments: delete the form's appointments, then insert the
        new list in order. */
    method SaveAppointments(formId: int, list: seq<AppointmentData>)
      modifies this`appointments
      ensures appointments == ReplaceAppointments(old(appointments), formId, list)
    {
      var rows: seq<AppointmentRow> := [];
      var i := 0;
      while i < |appointments|
        invariant 0 <= i <= |appointments|
        invariant rows == WithoutForm(appointments[..i], formId)
        invariant appointments == old(appointments)
      {
        assert appointments[..i + 1] == appointments[..i] + [appointments[i]];
        WithoutFormConcat(appointments[..i], [appointments[i]], formId);
        if appointments[i].formId != formId {
          rows := rows + [appointments[i]];
        }
        i := i + 1;
      }
      assert appointments[..i] == appointments == old(appointments);
      var j := 0;
      while j < |list|
        invariant 0 <= j <= |list|
        invariant rows == WithoutForm(old(appointments), formId) + Tagged(formId, list[..j])
      {
        assert list[..j + 1] == list[..j] + [list[j]];
        TaggedSnoc(formId, list[..j], list[j]);
        rows := rows + [AppointmentRow(formId, list[j])];
        j := j + 1;
      }
      assert list[..j] == list;
      appointments := rows;
    }
  }
}
