/** initialize_db of KeyWorkerApp/database.py: CREATE TABLE IF NOT EXISTS for
    the five tables, the guarded column additions of older databases, and the
    seeding of the supervisor account. A schema maps each table that exists
    to its columns in order. */
module Schema {
  import opened Common
  import opened Tables
  import opened FormStore
  import opened Credentials

  type SchemaMap = map<string, seq<string>>

  const UsersTable := "users"
  const ServiceUsersTable := "service_users"
  const FormsTable := "forms"
  const AppointmentsTable := "appointments"
  const ActivityLogTable := "activity_log"

  const RoleColumn := "role"
  const FirstLoginColumn := "first_login"

  const UsersColumns: seq<string> := ["id", "username", "password_hash", RoleColumn, FirstLoginColumn]
  const ServiceUsersColumns: seq<string> := ["id", "name", "date_of_birth"]
  /** The columns of CREATE TABLE forms: every upsert column but the icon
      lists. */
  const FormsCreateColumns: seq<string> := ["id"] + DataColumns
  const AppointmentsColumns: seq<string> := ["id", "form_id", "name", "last_seen", "next_due", "booked"]
  const ActivityLogColumns: seq<string> := ["id", "timestamp", "user", "action", "details"]

  /** The seeded account: user "supervisor", password "password". */
  const SupervisorName := "supervisor"
  const SupervisorPassword := "password"

  predicate Distinct(xs: seq<string>)
  {
    forall i, j :: 0 <= i < j < |xs| ==> xs[i] != xs[j]
  }

  /** CREATE TABLE IF NOT EXISTS: an existing table is left as it is. */
  function CreateIfNotExists(s: SchemaMap, table: string, columns: seq<string>): (r: SchemaMap)
    ensures r.Keys == s.Keys + {table}
    ensures table !in s ==> r[table] == columns
    ensures forall t :: t in s ==> r[t] == s[t]
  {
    if table in s then s else s[table := columns]
  }

  /** ALTER TABLE ADD COLUMN, where the "duplicate column" error is
      swallowed (or the column list is checked first): the column ends up
      in the table, and nothing changes when it was already there. */
  function AddColumnIfMissing(s: SchemaMap, table: string, column: string): (r: SchemaMap)
    requires table in s
    ensures r.Keys == s.Keys
    ensures column in r[table] && forall c :: c in s[table] ==> c in r[table]
    ensures forall t :: t in s && t != table ==> r[t] == s[t]
    ensures column in s[table] ==> r == s
  {
    if column in s[table] then s else s[table := s[table] + [column]]
  }

  /** The five columns added to forms after its first release. */
  predicate HasAddedFormsColumns(cols: seq<string>)
  {
    && "shop_q1_comments" in cols && "shop_q2_comments" in cols && "shop_q3_comments" in cols
    && "feeling_icons_selected" in cols && "care_icons_selected" in cols
  }

  /** The users statements: create, then add role and first_login if
      missing. */
  function UsersStage(s: SchemaMap): (r: SchemaMap)
    ensures r.Keys == s.Keys + {UsersTable}
    ensures RoleColumn in r[UsersTable] && FirstLoginColumn in r[UsersTable]
    ensures forall t :: t in s && t != UsersTable ==> r[t] == s[t]
    ensures UsersTable in s && RoleColumn in s[UsersTable] && FirstLoginColumn in s[UsersTable] ==> r == s
  {
    var s1 := CreateIfNotExists(s, UsersTable, UsersColumns);
    var s2 := AddColumnIfMissing(s1, UsersTable, RoleColumn);
    AddColumnIfMissing(s2, UsersTable, FirstLoginColumn)
  }

  /** The forms statements: create, then the five guarded ALTERs. */
  function FormsStage(s: SchemaMap): (r: SchemaMap)
    ensures r.Keys == s.Keys + {FormsTable}
    ensures HasAddedFormsColumns(r[FormsTable])
    ensures forall t :: t in s && t != FormsTable ==> r[t] == s[t]
    ensures FormsTable in s && HasAddedFormsColumns(s[FormsTable]) ==> r == s
  {
    var s5 := CreateIfNotExists(s, FormsTable, FormsCreateColumns);
    var s6 := AddColumnIfMissing(s5, FormsTable, "shop_q1_comments");
    var s7 := AddColumnIfMissing(s6, FormsTable, "shop_q2_comments");
    var s8 := AddColumnIfMissing(s7, FormsTable, "shop_q3_comments");
    var s9 := AddColumnIfMissing(s8, FormsTable, "feeling_icons_selected");
    AddColumnIfMissing(s9, FormsTable, "care_icons_selected")
  }

  /** The schema after initialize_db, in its statement order. */
  function InitSchema(s: SchemaMap): (r: SchemaMap)
  {
    TablesStage(UsersStage(s))
  }

  /** The statements of initialize_db after the users table: service_users,
      forms with its later columns, appointments and activity_log. */
  function TablesStage(s: SchemaMap): (r: SchemaMap)
  {
    var s4 := CreateIfNotExists(s, ServiceUsersTable, ServiceUsersColumns);
    var s10 := FormsStage(s4);
    var s11 := CreateIfNotExists(s10, AppointmentsTable, AppointmentsColumns);
    CreateIfNotExists(s11, ActivityLogTable, ActivityLogColumns)
  }

  /** ALTER TABLE users ADD COLUMN ... DEFAULT: every existing row takes the
      default. */
  function WithRole(users: UserTable, role: string): (r: UserTable)
    ensures r.Keys == users.Keys
    ensures forall id :: id in r ==>
      && r[id].role == role
      && r[id].username == users[id].username && r[id].passwordHash == users[id].passwordHash
      && r[id].firstLogin == users[id].firstLogin
  {
    map id | id in users :: users[id].(role := role)
  }

  function WithFirstLogin(users: UserTable, firstLogin: int): (r: UserTable)
    ensures r.Keys == users.Keys
    ensures forall id :: id in r ==>
      && r[id].firstLogin == firstLogin
      && r[id].username == users[id].username && r[id].passwordHash == users[id].passwordHash
      && r[id].role == users[id].role
  {
    map id | id in users :: users[id].(firstLogin := firstLogin)
  }

  /** The users rows after the migration: role "staff" and first_login 1 for
      rows of a table that lacked those columns (the column list is read
      once, before either ALTER). */
  function MigrateUsers(s: SchemaMap, users: UserTable): UserTable
  {
    var cols := CreateIfNotExists(s, UsersTable, UsersColumns)[UsersTable];
    var u1 := if RoleColumn in cols then users else WithRole(users, StaffRole);
    if FirstLoginColumn in cols then u1 else WithFirstLogin(u1, 1)
  }

  /** The users rows after initialize_db: migrated, then the supervisor
      account inserted when no user is called "supervisor". */
  ghost function InitUsers(s: SchemaMap, users: UserTable, hash: string -> string): UserTable
  {
    var u := MigrateUsers(s, users);
    if UsernameTaken(u, SupervisorName) then u
    else u[NextRowId(u.Keys) := UserRow(SupervisorName, hash(SupervisorPassword), SupervisorRole, 0)]
  }

  // -------------------------------------------------------------- lemmas

  /** The schema initialize_db leaves has every table, the users columns
      the login code reads and the five forms columns added later. */
  lemma InitSchemaComplete(s: SchemaMap)
    ensures var r := InitSchema(s);
      && {UsersTable, ServiceUsersTable, FormsTable, AppointmentsTable, ActivityLogTable} <= r.Keys
      && RoleColumn in r[UsersTable] && FirstLoginColumn in r[UsersTable]
      && HasAddedFormsColumns(r[FormsTable])
  {
    var s3 := UsersStage(s);
    var s4 := CreateIfNotExists(s3, ServiceUsersTable, ServiceUsersColumns);
    var s10 := FormsStage(s4);
    var s11 := CreateIfNotExists(s10, AppointmentsTable, AppointmentsColumns);
    assert s4[UsersTable] == s3[UsersTable];
    assert s10[UsersTable] == s3[UsersTable];
    assert s11[UsersTable] == s3[UsersTable];
  }

  /** Running initialize_db a second time changes nothing. */
  lemma InitSchemaIdempotent(s: SchemaMap)
    ensures InitSchema(InitSchema(s)) == InitSchema(s)
  {
    InitSchemaComplete(s);
  }

  /** A guarded ALTER never adds a column twice. */
  lemma AddColumnKeepsDistinct(s: SchemaMap, table: string, column: string)
    requires table in s && Distinct(s[table])
    ensures var r := AddColumnIfMissing(s, table, column);
      Distinct(r[table]) && column in r[table]
  {
  }

  /** On an up-to-date schema the migration adds no column and leaves every
      existing table as it was. */
  lemma UpToDateSchemaUnchanged(s: SchemaMap)
    requires {UsersTable, ServiceUsersTable, FormsTable, AppointmentsTable, ActivityLogTable} <= s.Keys
    requires RoleColumn in s[UsersTable] && FirstLoginColumn in s[UsersTable]
    requires HasAddedFormsColumns(s[FormsTable])
    ensures InitSchema(s) == s
  {
  }

  /** A users table that lacked role and first_login gets the defaults
      "staff" and 1 on every row; one that had them keeps its rows. */
  lemma MigrateUsersDefaults(s: SchemaMap, users: UserTable)
    requires UsersTable in s
    ensures var u := MigrateUsers(s, users);
      && u.Keys == users.Keys
      && (forall id :: id in u ==> u[id].username == users[id].username && u[id].passwordHash == users[id].passwordHash)
      && (forall id :: id in u ==> u[id].role == if RoleColumn in s[UsersTable] then users[id].role else StaffRole)
      && (forall id :: id in u ==> u[id].firstLogin == if FirstLoginColumn in s[UsersTable] then users[id].firstLogin else 1)
  {
  }

  /** The migration keeps usernames, so it keeps them unique. */
  lemma MigrateUsersKeepsUnique(s: SchemaMap, users: UserTable)
    requires UsernamesUnique(users)
    ensures var m := MigrateUsers(s, users);
      && UsernamesUnique(m) && m.Keys == users.Keys
      && UsernameTaken(m, SupervisorName) == UsernameTaken(users, SupervisorName)
  {
    var m := MigrateUsers(s, users);
    assert forall id :: id in m ==> m[id].username == users[id].username;
    if UsernameTaken(users, SupervisorName) {
      var id :| id in users && users[id].username == SupervisorName;
      assert m[id].username == SupervisorName;
    }
  }

  /** After initialize_db exactly one user is called "supervisor"; the seed
      happens only when there was none, with role supervisor and
      first_login 0. */
  lemma InitUsersSeed(s: SchemaMap, users: UserTable, hash: string -> string)
    requires UsernamesUnique(users)
    ensures var u := InitUsers(s, users, hash);
      && UsernamesUnique(u)
      && UsernameTaken(u, SupervisorName)
      && (UsernameTaken(users, SupervisorName) ==> u == MigrateUsers(s, users))
      && (!UsernameTaken(users, SupervisorName) ==>
            u == MigrateUsers(s, users)[NextRowId(users.Keys) := UserRow(SupervisorName, hash(SupervisorPassword), SupervisorRole, 0)])
  {
    var m := MigrateUsers(s, users);
    MigrateUsersKeepsUnique(s, users);
    if !UsernameTaken(m, SupervisorName) {
      var id := NextRowId(m.Keys);
      NextRowIdFresh(m.Keys);
      var u := m[id := UserRow(SupervisorName, hash(SupervisorPassword), SupervisorRole, 0)];
      assert u[id].username == SupervisorName;
      assert UsernameTaken(u, SupervisorName);
    }
  }

  /** A second initialize_db seeds no second supervisor and changes no user. */
  lemma InitUsersIdempotent(s: SchemaMap, users: UserTable, hash: string -> string)
    requires UsernamesUnique(users)
    ensures InitUsers(InitSchema(s), InitUsers(s, users, hash), hash) == InitUsers(s, users, hash)
  {
    InitSchemaComplete(s);
    InitUsersSeed(s, users, hash);
  }

  /** On a new database the forms table is CREATE TABLE's columns followed by
      the two icon columns: the three shopping ALTERs find their columns. */
  lemma FreshFormsColumns(s: SchemaMap)
    requires FormsTable !in s
    ensures FormsStage(s)[FormsTable] == ["id"] + Columns
  {
    ShopCommentsCreated();
    IconsNotCreated();
    var s5 := CreateIfNotExists(s, FormsTable, FormsCreateColumns);
    assert s5[FormsTable] == FormsCreateColumns;
    var s8 := AddColumnIfMissing(AddColumnIfMissing(AddColumnIfMissing(s5, FormsTable, "shop_q1_comments"),
      FormsTable, "shop_q2_comments"), FormsTable, "shop_q3_comments");
    assert s8 == s5;
    var s9 := AddColumnIfMissing(s8, FormsTable, "feeling_icons_selected");
    assert s9[FormsTable] == FormsCreateColumns + ["feeling_icons_selected"];
    assert "care_icons_selected" !in s9[FormsTable];
    assert FormsCreateColumns + ["feeling_icons_selected"] + ["care_icons_selected"] == ["id"] + Columns;
  }

  lemma ShopCommentsCreated()
    ensures "shop_q1_comments" in FormsCreateColumns
    ensures "shop_q2_comments" in FormsCreateColumns
    ensures "shop_q3_comments" in FormsCreateColumns
  {
    assert "shop_q1_comments" in ShoppingColumns && "shop_q2_comments" in ShoppingColumns;
    assert "shop_q3_comments" in ShoppingColumns;
  }

  /** On a new database file, initialize_db creates exactly the five tables,
      with forms holding its id and every column the upsert writes. */
  lemma FreshSchema()
    ensures var r := InitSchema(map[]);
      && r.Keys == {UsersTable, ServiceUsersTable, FormsTable, AppointmentsTable, ActivityLogTable}
      && r[UsersTable] == UsersColumns
      && r[FormsTable] == ["id"] + Columns
  {
    var s3 := UsersStage(map[]);
    assert s3 == map[UsersTable := UsersColumns];
    var s4 := CreateIfNotExists(s3, ServiceUsersTable, ServiceUsersColumns);
    FreshFormsColumns(s4);
    var s10 := FormsStage(s4);
    var s11 := CreateIfNotExists(s10, AppointmentsTable, AppointmentsColumns);
    var r := CreateIfNotExists(s11, ActivityLogTable, ActivityLogColumns);
    var empty: SchemaMap := map[];
    KeysAfterFiveCreates(empty.Keys, s3.Keys, s4.Keys, s10.Keys, s11.Keys, r.Keys,
      UsersTable, ServiceUsersTable, FormsTable, AppointmentsTable, ActivityLogTable);
  }

  /** Five CREATEs on an empty database leave exactly their five tables. */
  lemma KeysAfterFiveCreates(k0: set<string>, k1: set<string>, k2: set<string>, k3: set<string>,
                             k4: set<string>, k5: set<string>, a: string, b: string, c: string, d: string, e: string)
    requires k0 == {} && k1 == k0 + {a} && k2 == k1 + {b} && k3 == k2 + {c} && k4 == k3 + {d} && k5 == k4 + {e}
    ensures k5 == {a, b, c, d, e}
  {
  }

  /** On a new database file the only user is the supervisor, id 1, who can
      log in with "password" and is not asked to change it. */
  lemma FreshUsers(hash: string -> string)
    ensures var u := InitUsers(map[], map[], hash);
      && u == map[1 := UserRow(SupervisorName, hash(SupervisorPassword), SupervisorRole, 0)]
      && VerifyUser(u, hash, SupervisorName, SupervisorPassword) == Some(Session(1, SupervisorName, SupervisorRole, 0))
  {
    var u := InitUsers(map[], map[], hash);
    assert MigrateUsers(map[], map[]) == map[];
    FindUserUnique(u, 1);
  }

  /** The icon columns are not in CREATE TABLE forms: only the ALTERs add
      them. */
  lemma IconsNotCreated()
    ensures "feeling_icons_selected" !in FormsCreateColumns
    ensures "care_icons_selected" !in FormsCreateColumns
  {
    assert OutsideDataGroups("feeling_icons_selected") && OutsideDataGroups("care_icons_selected");
    assert "feeling_icons_selected" !in DataColumns && "care_icons_selected" !in DataColumns;
  }
}
