/** The rows of the five SQLite tables of the record store
    (KeyWorkerApp/database.py) and SQLite's rule for choosing the rowid of a
    new row. Tables whose rows are addressed by id (users, service_users,
    forms) are maps from rowid to row; appointments and activity_log are read
    back in rowid order and are sequences in that order. */
module Tables {
  import opened Common

  /** A row of `users`. */
  datatype UserRow = UserRow(username: string, passwordHash: string, role: string, firstLogin: int)

  /** A row of `service_users` (a resident). */
  datatype ServiceUserRow = ServiceUserRow(name: string, dob: string)

  /** A row of `forms`: column name to cell. A column the row has no entry
      for holds NULL. */
  type FormRow = map<string, Value>

  /** The four cells of an appointment, in the order `get_appointments`
      returns them. */
  datatype AppointmentData = AppointmentData(name: string, lastSeen: string, nextDue: string, booked: string)

  /** A row of `appointments`. */
  datatype AppointmentRow = AppointmentRow(formId: int, data: AppointmentData)

  /** A row of `activity_log`; the timestamp is a counter that grows with
      every insert. */
  datatype LogEntry = LogEntry(timestamp: nat, user: string, action: string, details: string)

  /** The largest element of a non-empty set of rowids. */
  ghost function MaxOf(ids: set<int>): (m: int)
    requires ids != {}
    ensures m in ids && forall id :: id in ids ==> id <= m
    decreases |ids|
  {
    NonEmptyHasElement(ids);
    var x :| x in ids;
    var rest := ids - {x};
    if rest == {} then
      assert ids == {x};
      x
    else
      var m := MaxOf(rest);
      assert forall id :: id in ids ==> id == x || id in rest;
      if x > m then x else m
  }

  /** The rowid SQLite gives a new row of a table whose INTEGER PRIMARY KEY is
      not AUTOINCREMENT: one more than the largest rowid in the table, or 1
      when the table is empty. */
  ghost function NextRowId(ids: set<int>): int
  {
    if ids == {} then 1 else MaxOf(ids) + 1
  }

  /** Every rowid of the table is positive, so a new rowid is too and differs
      from every rowid in use. */
  lemma NextRowIdFresh(ids: set<int>)
    requires forall id :: id in ids ==> id >= 1
    ensures NextRowId(ids) >= 1 && NextRowId(ids) !in ids
    ensures forall id :: id in ids ==> id < NextRowId(ids)
  {
  }

  /** Computes the rowid of the next insert by scanning the table's rowids. */
  method NewRowId(ids: set<int>) returns (r: int)
    ensures r == NextRowId(ids)
    ensures forall id :: id in ids ==> id < r
  {
    r := 1;
    var first := true;
    var rest := ids;
    while rest != {}
      invariant rest <= ids
      invariant first ==> rest == ids && r == 1
      invariant !first ==> r - 1 in ids && r - 1 !in rest
      invariant forall id :: id in ids && id !in rest ==> id < r
      decreases |rest|
    {
      NonEmptyHasElement(rest);
      var x :| x in rest;
      if first || x >= r {
        r := x + 1;
      }
      first := false;
      rest := rest - {x};
    }
    if ids != {} {
      var m := MaxOf(ids);
      assert m < r && r - 1 <= m;
    }
  }

  /** No two rows share a name: a UNIQUE text column. */
  ghost predicate Injective(names: map<int, string>)
  {
    forall a, b :: a in names && b in names && names[a] == names[b] ==> a == b
  }

  /** `ids` lists rows of the table in strictly ascending order of name. */
  ghost predicate SortedByName(ids: seq<int>, names: map<int, string>)
  {
    && (forall i :: 0 <= i < |ids| ==> ids[i] in names)
    && (forall i, j :: 0 <= i < j < |ids| ==> LexLess(names[ids[i]], names[ids[j]]))
  }

  /** The row of `rest` whose name comes first. */
  method LeastByName(names: map<int, string>, rest: set<int>) returns (m: int)
    requires rest != {} && rest <= names.Keys && Injective(names)
    ensures m in rest
    ensures forall r :: r in rest && r != m ==> LexLess(names[m], names[r])
  {
    NonEmptyHasElement(rest);
    m :| m in rest;
    var todo := rest - {m};
    while todo != {}
      invariant todo <= rest && m in rest && m !in todo
      invariant forall r :: r in rest && r !in todo && r != m ==> LexLess(names[m], names[r])
      decreases |todo|
    {
      NonEmptyHasElement(todo);
      var x :| x in todo;
      LexLessTotal(names[x], names[m]);
      if LexLess(names[x], names[m]) {
        forall r | r in rest && r !in todo - {x} && r != x
          ensures LexLess(names[x], names[r])
        {
          if r != m {
            LexLessTransitive(names[x], names[m], names[r]);
          }
        }
        m := x;
      }
      todo := todo - {x};
    }
  }

  /** ORDER BY name: every row of the table once, in ascending order of
      name. */
  method SortByName(names: map<int, string>) returns (ids: seq<int>)
    requires Injective(names)
    ensures SortedByName(ids, names)
    ensures forall id :: id in names <==> id in ids
    ensures forall i, j :: 0 <= i < j < |ids| ==> ids[i] != ids[j]
  {
    ids := [];
    var rest := names.Keys;
    while rest != {}
      invariant rest <= names.Keys
      invariant forall i :: 0 <= i < |ids| ==> ids[i] in names && ids[i] !in rest
      invariant forall id :: id in names ==> id in rest || id in ids
      invariant SortedByName(ids, names)
      invariant forall i, r :: 0 <= i < |ids| && r in rest ==> LexLess(names[ids[i]], names[r])
      decreases |rest|
    {
      var m := LeastByName(names, rest);
      ids := ids + [m];
      rest := rest - {m};
    }
    forall i, j | 0 <= i < j < |ids|
      ensures ids[i] != ids[j]
    {
      LexLessIrreflexive(names[ids[i]]);
    }
  }
}
