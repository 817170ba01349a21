/** The main menu of KeyWorkerApp/main.py: the login gate, the resident
    dropdown and the request that opens a month's form. The login and
    forced-change windows are modelled in their own modules; here their
    outcomes arrive as parameters, and the clock as a CalendarDate. */
module MainMenu {
  import opened Common
  import opened Tables
  import opened FormStore
  import opened FormRules
  import opened Credentials
  import opened Residents
  import opened Store
  import opened FormEditor

  /** The one entry the resident dropdown shows when there are none. */
  const NoUsersFound := "No users found"

  /** What user_data_map holds for a resident's name. */
  datatype ResidentInfo = ResidentInfo(id: int, dob: string)

  /** How process_form_request ends. */
  datatype Request = NoResidents | UnknownResident | FutureMonth | Opened(form: FormWindow)

  /** The selected month lies after the current one. */
  predicate IsFutureMonth(year: int, month: int, nowYear: int, nowMonth: int)
  {
    year > nowYear || (year == nowYear && month > nowMonth)
  }

  /** The gate is "later than now" on the month line. */
  lemma FutureMonthByOrdinal(year: int, month: int, nowYear: int, nowMonth: int)
    requires 1 <= month <= 12 && 1 <= nowMonth <= 12
    ensures IsFutureMonth(year, month, nowYear, nowMonth) <==> MonthOrdinal(year, month) > MonthOrdinal(nowYear, nowMonth)
  {
    if year > nowYear {
      assert 12 * year >= 12 * nowYear + 12;
    } else if year < nowYear {
      assert 12 * nowYear >= 12 * year + 12;
    }
  }

  /** The years the dropdown offers: range(current + 1, 2020, -1). */
  function YearChoices(current: int): (r: seq<int>)
    ensures |r| == if current + 1 > 2020 then current + 1 - 2020 else 0
    ensures forall k :: 0 <= k < |r| ==> r[k] == current + 1 - k && 2021 <= r[k]
    ensures current >= 2021 ==> current in r
  {
    var n := if current + 1 > 2020 then current + 1 - 2020 else 0;
    var r := seq(n, k requires 0 <= k < n => current + 1 - k);
    assert current >= 2021 ==> r[1] == current;
    r
  }

  /** The dictionary update_user_dropdown builds from the listing rows,
      a later row overwriting an earlier one of the same name. */
  function DirectoryOf(rows: seq<ResidentListing>): (m: map<string, ResidentInfo>)
    ensures forall name :: name in m <==> exists k :: 0 <= k < |rows| && rows[k].name == name
  {
    if rows == [] then map[]
    else
      var last := rows[|rows| - 1];
      DirectoryOf(rows[..|rows| - 1])[last.name := ResidentInfo(last.id, last.dob)]
  }

  /** With distinct names every row's name maps to that row. */
  lemma {:induction false} DirectoryOfRow(rows: seq<ResidentListing>, k: int)
    requires forall i, j :: 0 <= i < j < |rows| ==> rows[i].name != rows[j].name
    requires 0 <= k < |rows|
    ensures DirectoryOf(rows)[rows[k].name] == ResidentInfo(rows[k].id, rows[k].dob)
  {
    if k < |rows| - 1 {
      DirectoryOfRow(rows[..|rows| - 1], k);
    }
  }

  /** The names of the listing rows, in order. */
  function NamesOf(rows: seq<ResidentListing>): (r: seq<string>)
    ensures |r| == |rows| && forall k :: 0 <= k < |rows| ==> r[k] == rows[k].name
  {
    seq(|rows|, k requires 0 <= k < |rows| => rows[k].name)
  }

  /** The listing is empty exactly when the table is. */
  lemma ListingEmpty(t: ResidentTable, rows: seq<ResidentListing>)
    requires ListingOf(t, rows)
    ensures rows == [] <==> t == map[]
  {
    if t != map[] {
      assert |t.Keys| == |t| > 0;
      NonEmptyHasElement(t.Keys);
      var id :| id in t;
      assert ResidentListing(id, t[id].name, t[id].dob) in rows;
    }
    if rows != [] {
      assert rows[0].id in t;
    }
  }

  /** Every resident's name maps to its id and dob. */
  lemma ListingCoversTable(t: ResidentTable, rows: seq<ResidentListing>)
    requires ListingOf(t, rows)
    ensures var m := DirectoryOf(rows);
      forall id :: id in t ==> t[id].name in m && m[t[id].name] == ResidentInfo(id, t[id].dob)
  {
    var m := DirectoryOf(rows);
    forall i, j | 0 <= i < j < |rows| ensures rows[i].name != rows[j].name {
      LexLessIrreflexive(rows[i].name);
    }
    forall id | id in t ensures t[id].name in m && m[t[id].name] == ResidentInfo(id, t[id].dob) {
      var i :| 0 <= i < |rows| && rows[i] == ResidentListing(id, t[id].name, t[id].dob);
      DirectoryOfRow(rows, i);
    }
  }

  /** Only residents' names are in the directory, and they are the names
      the dropdown offers. */
  lemma ListingOnlyTable(t: ResidentTable, rows: seq<ResidentListing>)
    requires ListingOf(t, rows)
    ensures var m := DirectoryOf(rows);
      && (forall name :: name in m ==> exists id :: id in t && t[id].name == name)
      && (forall name :: name in NamesOf(rows) <==> name in m)
    ensures forall i, j :: 0 <= i < j < |rows| ==> LexLess(NamesOf(rows)[i], NamesOf(rows)[j])
  {
    var m := DirectoryOf(rows);
    forall name | name in m ensures exists id :: id in t && t[id].name == name {
      var i :| 0 <= i < |rows| && rows[i].name == name;
      assert rows[i].id in t;
    }
    var names := NamesOf(rows);
    forall name ensures name in names <==> name in m {
      if name in names {
        var i :| 0 <= i < |names| && names[i] == name;
        assert rows[i].name == name;
      }
    }
  }

  /** The dropdown state for table `t`: every resident's name maps to its
      id and dob, nothing else is in the map, and the names are offered in
      order (only the "No users found" entry when there are none). */
  ghost predicate Dropdown(t: ResidentTable, m: map<string, ResidentInfo>, choices: seq<string>)
  {
    && (forall id :: id in t ==> t[id].name in m && m[t[id].name] == ResidentInfo(id, t[id].dob))
    && (forall name :: name in m ==> exists id :: id in t && t[id].name == name)
    && (t == map[] ==> choices == [NoUsersFound])
    && (t != map[] ==>
          && (forall name :: name in choices <==> name in m)
          && (forall i, j :: 0 <= i < j < |choices| ==> LexLess(choices[i], choices[j])))
  }

  /** The listing of a table gives its dropdown. */
  lemma ListingDropdown(t: ResidentTable, rows: seq<ResidentListing>)
    requires ListingOf(t, rows)
    ensures Dropdown(t, DirectoryOf(rows), if rows == [] then [NoUsersFound] else NamesOf(rows))
  {
    var m := DirectoryOf(rows);
    var choices := if rows == [] then [NoUsersFound] else NamesOf(rows);
    ListingEmpty(t, rows);
    ListingCoversTable(t, rows);
    ListingOnlyTable(t, rows);
    assert forall id :: id in t ==> t[id].name in m && m[t[id].name] == ResidentInfo(id, t[id].dob);
    assert forall name :: name in m ==> exists id :: id in t && t[id].name == name;
    assert t == map[] ==> choices == [NoUsersFound];
    assert t != map[] ==> forall name :: name in choices <==> name in m;
    assert t != map[] ==> forall i, j :: 0 <= i < j < |choices| ==> LexLess(choices[i], choices[j]);
    assert Dropdown(t, m, choices);
  }

  class App {
    const db: Database
    var currentUser: Option<Session>
    var showsAdminActions: bool
    var userDataMap: map<string, ResidentInfo>
    var userChoices: seq<string>
    var selectedUser: string
    var selectedMonth: string
    var yearChoices: seq<int>
    var selectedYear: int

    /** The application before anyone has logged in. */
    constructor (db: Database)
      ensures this.db == db && currentUser == None && !showsAdminActions
      ensures userDataMap == map[] && userChoices == [NoUsersFound] && selectedUser == NoUsersFound
    {
      this.db := db;
      currentUser := None;
      showsAdminActions := false;
      userDataMap := map[];
      userChoices := [NoUsersFound];
      selectedUser := NoUsersFound;
      selectedMonth := MonthNames[0];
      yearChoices := [];
      selectedYear := 0;
    }

    /** handle_login: the session is the login window's result; a first
        login also needs the forced change to succeed, after which the
        session's flag reads 0. */
    method HandleLogin(userInfo: Option<Session>, passwordChangedSuccessfully: bool) returns (ok: bool)
      modifies this`currentUser
      ensures ok <==> userInfo.Some? && (userInfo.value.firstLogin == 1 ==> passwordChangedSuccessfully)
      ensures ok && userInfo.value.firstLogin == 1 ==> currentUser == Some(userInfo.value.(firstLogin := 0))
      ensures !ok || userInfo.value.firstLogin != 1 ==> currentUser == userInfo
    {
      currentUser := userInfo;
      if currentUser.None? {
        return false;
      }
      if currentUser.value.firstLogin == 1 {
        if !passwordChangedSuccessfully {
          return false;
        }
        currentUser := Some(currentUser.value.(firstLogin := 0));
      }
      return true;
    }

    /** setup_main_window: the supervisor-only actions, the month and year
        dropdowns on today, and the resident dropdown. */
    method SetupMainWindow(now: CalendarDate)
      requires currentUser.Some? && db.Valid() && ValidDate(now)
      modifies this`showsAdminActions, this`selectedMonth, this`yearChoices, this`selectedYear
      modifies this`userDataMap, this`userChoices, this`selectedUser
      ensures showsAdminActions <==> currentUser.value.role == SupervisorRole
      ensures selectedMonth == MonthNames[now.month - 1] && selectedYear == now.year
      ensures yearChoices == YearChoices(now.year)
      ensures Listed()
    {
      showsAdminActions := currentUser.value.role == SupervisorRole;
      selectedMonth := MonthNames[now.month - 1];
      yearChoices := YearChoices(now.year);
      selectedYear := now.year;
      userDataMap := map[];
      UpdateUserDropdown();
    }

    /** The resident dropdown and user_data_map show the service_users
        table: every resident's name maps to its id and dob, nothing else is
        in the map, the names are offered in order, and the first one (or
        the "No users found" entry) is selected. */
    ghost predicate Listed()
      reads this, db
    {
      && Dropdown(db.serviceUsers, userDataMap, userChoices)
      && |userChoices| >= 1 && selectedUser == userChoices[0]
    }

    /** update_user_dropdown: rebuild user_data_map from scratch. */
    method UpdateUserDropdown()
      requires db.Valid()
      modifies this`userDataMap, this`userChoices, this`selectedUser
      ensures Listed()
    {
      userDataMap := map[];
      var users := db.GetAllServiceUsers();
      ListingDropdown(db.serviceUsers, users);
      ListingEmpty(db.serviceUsers, users);
      if users != [] {
        userDataMap := BuildDirectory(users);
        userChoices := NamesOf(users);
        selectedUser := userChoices[0];
      } else {
        userChoices := [NoUsersFound];
        selectedUser := NoUsersFound;
      }
    }

    /** process_form_request on the selected name, month and year: refuse
        the placeholder entry, an unknown name and a future month; otherwise
        open the form stored under "<Month> <Year>", or a blank one. */
    method ProcessFormRequest(name: string, month: string, year: int, now: CalendarDate) returns (r: Request)
      requires db.Valid() && currentUser.Some? && month in MonthNames && ValidDate(now)
      ensures name == NoUsersFound ==> r == NoResidents
      ensures name != NoUsersFound && name !in userDataMap ==> r == UnknownResident
      ensures name != NoUsersFound && name in userDataMap ==>
        (r == FutureMonth <==> IsFutureMonth(year, MonthOfName(month).value, now.year, now.month))
      ensures (name != NoUsersFound && name in userDataMap
               && !IsFutureMonth(year, MonthOfName(month).value, now.year, now.month)) ==> r.Opened?
      ensures r.Opened? ==>
        var info := userDataMap[name];
        var existing := FormStore.GetFormData(db.forms, info.id, FormKey(month, year));
        && name != NoUsersFound && name in userDataMap
        && fresh(r.form) && r.form.Valid() && r.form.db == db
        && r.form.currentUser == currentUser.value.username
        && r.form.serviceUserId == info.id && r.form.serviceUserName == name && r.form.dob == info.dob
        && r.form.month + " " + r.form.year == FormKey(month, year)
        && r.form.formId == (if existing.Some? then existing.value["id"] else Null)
        && r.form.feelingIcons == [] && r.form.careIcons == []
        && (existing.Some? ==>
              (Get(existing.value, "id").Int? && r.form.Loaded(existing.value, false, MenusOf(now), db.appointments)))
        && (existing.None? ==> r.form.Cleared() && r.form.session == MenusOf(now))
    {
      if name == NoUsersFound {
        return NoResidents;
      }
      if name !in userDataMap {
        return UnknownResident;
      }
      var info := userDataMap[name];
      var index := MonthIndex(month);
      MonthOfNameInverse(month, index + 1);
      if IsFutureMonth(year, index + 1, now.year, now.month) {
        return FutureMonth;
      }
      var form := OpenForm(info, name, month, year, now);
      return Opened(form);
    }

    /** The FormWindow process_form_request opens: the form stored under
        "<Month> <Year>" for the resident, or a blank one. */
    method OpenForm(info: ResidentInfo, name: string, month: string, year: int, now: CalendarDate)
      returns (form: FormWindow)
      requires db.Valid() && currentUser.Some? && ValidDate(now)
      ensures var existing := FormStore.GetFormData(db.forms, info.id, FormKey(month, year));
        && fresh(form) && form.Valid() && form.db == db
        && form.currentUser == currentUser.value.username
        && form.serviceUserId == info.id && form.serviceUserName == name && form.dob == info.dob
        && form.month + " " + form.year == FormKey(month, year)
        && form.formId == (if existing.Some? then existing.value["id"] else Null)
        && form.feelingIcons == [] && form.careIcons == []
        && (existing.Some? ==>
              (Get(existing.value, "id").Int? && form.Loaded(existing.value, false, MenusOf(now), db.appointments)))
        && (existing.None? ==> form.Cleared() && form.session == MenusOf(now))
    {
      var formMonthYear := month + " " + IntToString(year);
      var existing := db.GetFormData(info.id, formMonthYear);
      FoundFormHasId(db.forms, info.id, formMonthYear);
      form := new FormWindow(db, currentUser.value.username, info.id, name, info.dob,
                             month, IntToString(year), existing, now);
    }
  }

  /** The loop of update_user_dropdown: name -> {id, dob} for each row. */
  method BuildDirectory(rows: seq<ResidentListing>) returns (m: map<string, ResidentInfo>)
    ensures m == DirectoryOf(rows)
  {
    m := map[];
    var k := 0;
    while k < |rows|
      invariant 0 <= k <= |rows|
      invariant m == DirectoryOf(rows[..k])
    {
      assert rows[..k + 1][..k] == rows[..k];
      m := m[rows[k].name := ResidentInfo(rows[k].id, rows[k].dob)];
      k := k + 1;
    }
    assert rows[..k] == rows;
  }

  /** self.months.index(month): the position of a month name. */
  method MonthIndex(month: string) returns (i: int)
    requires month in MonthNames
    ensures 0 <= i < 12 && MonthNames[i] == month
  {
    i := 0;
    while MonthNames[i] != month
      invariant 0 <= i < 12
      invariant month !in MonthNames[..i]
      decreases 12 - i
    {
      assert MonthNames[..i + 1] == MonthNames[..i] + [MonthNames[i]];
      i := i + 1;
    }
  }
}
