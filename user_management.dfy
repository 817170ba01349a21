/** The supervisor's resident screen of KeyWorkerApp/user_management_window.py:
    add a resident, edit one (the form switches to "update" mode for that
    resident's id), delete one after re-entering one's own password. The
    name entry and the three date-of-birth menus are fields; the clock, the
    confirmation box and the password prompt arrive as parameters ("" for
    a cancelled prompt). */
module ResidentAdmin {
  import opened Common
  import opened Tables
  import opened FormStore
  import opened FormRules
  import opened Residents
  import opened Credentials
  import opened ActivityLog
  import opened Store

  /** The menus enter_edit_mode sets from a stored date of birth: the three
      pieces of "year-month-day" with the month number turned into its
      abbreviation, or None when the text does not split into exactly three
      pieces or the middle one is not a month number (the ValueError the
      window catches). */
  function EditMenus(dob: string): (r: Option<SessionMenus>)
    ensures r.Some? ==> r.value.month in MonthAbbrevs
    ensures r.Some? ==>
      |Split(dob, '-')| == 3 && r.value.year == Split(dob, '-')[0] && r.value.day == Split(dob, '-')[2]
  {
    var parts := Split(dob, '-');
    if |parts| != 3 then None
    else match ParseMonthNumber(parts[1])
      case None => None
      case Some(m) => Some(SessionMenus(parts[2], MonthAbbrevs[m - 1], parts[0]))
  }

  /** Splitting at a separator and joining again gives the text back. */
  lemma {:induction false} JoinSplit(s: string, sep: char)
    ensures Join([sep], Split(s, sep)) == s
    decreases |s|
  {
    if sep in s {
      var i := IndexOfChar(s, sep);
      var rest := Split(s[i + 1..], sep);
      JoinSplit(s[i + 1..], sep);
      assert Split(s, sep) == [s[..i]] + rest;
      assert ([s[..i]] + rest)[1..] == rest;
      assert s == s[..i] + [sep] + s[i + 1..];
    }
  }

  /** The date of birth add_or_update_user writes for menus that
      enter_edit_mode filled in reads back into the same menus, as long as
      the day and the year hold no '-'. */
  lemma DobRoundTrip(menus: SessionMenus)
    requires menus.month in MonthAbbrevs
    requires '-' !in menus.day && '-' !in menus.year
    ensures EditMenus(DbDate(menus.day, menus.month, menus.year)) == Some(menus)
  {
    MonthOfAbbrevInverse(menus.month, 1);
    var m := MonthOfAbbrev(menus.month).value;
    MonthOfAbbrevInverse(menus.month, m);
    var mm := Pad2(m);
    assert '-' !in mm by {
      assert IsDigit(mm[0]) && IsDigit(mm[1]);
    }
    var parts := [menus.year, mm, menus.day];
    assert Join("-", parts[1..]) == mm + "-" + menus.day by {
      assert parts[1..][1..] == [menus.day];
    }
    assert Join("-", parts) == menus.year + "-" + mm + "-" + menus.day;
    SplitJoin(parts, '-');
    ParseMonthNumberPad2(m);
  }

  /** A two-character month number is its own "%m" rendering. */
  lemma Pad2OfParsed(s: string)
    requires |s| == 2 && ParseMonthNumber(s).Some?
    ensures Pad2(ParseMonthNumber(s).value) == s
  {
  }

  /** Opening a stored date of birth whose month is written with two digits
      and saving without touching the menus writes the same text back. */
  lemma EditedDobSavesBack(dob: string)
    requires EditMenus(dob).Some? && |Split(dob, '-')[1]| == 2
    ensures var menus := EditMenus(dob).value;
      DbDate(menus.day, menus.month, menus.year) == dob
  {
    var parts := Split(dob, '-');
    var menus := EditMenus(dob).value;
    var m := ParseMonthNumber(parts[1]).value;
    MonthOfAbbrevInverse(menus.month, m);
    Pad2OfParsed(parts[1]);
    JoinSplit(dob, '-');
    assert Join("-", parts[1..]) == parts[1] + "-" + parts[2] by {
      assert parts[1..][1..] == [parts[2]];
    }
    assert Join("-", parts) == parts[0] + "-" + parts[1] + "-" + parts[2];
  }

  /** Menus that hold digits never produce a date containing "Year", so the
      placeholder check of add_or_update_user rejects only a blank name for
      the values the menus offer. */
  lemma MenuDobHasNoYear(menus: SessionMenus)
    requires menus.month in MonthAbbrevs
    requires AllDigits(menus.day) && AllDigits(menus.year)
    ensures !Contains(DbDate(menus.day, menus.month, menus.year), "Year")
  {
    var dob := DbDate(menus.day, menus.month, menus.year);
    MonthOfAbbrevInverse(menus.month, 1);
    var mm := Pad2(MonthOfAbbrev(menus.month).value);
    assert dob == menus.year + "-" + mm + "-" + menus.day;
    forall i | 0 <= i < |dob| ensures IsDigit(dob[i]) || dob[i] == '-' {
      if i < |menus.year| {
        assert dob[i] == menus.year[i];
      } else if i == |menus.year| {
      } else if i < |menus.year| + 3 {
        assert dob[i] == mm[i - |menus.year| - 1];
      } else if i == |menus.year| + 3 {
      } else {
        assert dob[i] == menus.day[i - |menus.year| - 4];
      }
    }
    NoYearInDigits(dob);
  }

  class UserManagementWindow {
    const db: Database
    const currentUser: Session
    /** The resident being edited; None while the form adds. */
    var editingUserId: Option<int>
    var name: string
    var dobMenus: SessionMenus
    var rows: seq<ResidentListing>

    ghost predicate Valid()
      reads this`dobMenus
    {
      dobMenus.month in MonthAbbrevs
    }

    /** UserManagementWindow.__init__: the list, then cleared entries, in
        add mode. */
    constructor (db: Database, currentUser: Session, now: CalendarDate)
      requires db.Valid() && ValidDate(now)
      ensures Valid() && this.db == db && this.currentUser == currentUser
      ensures editingUserId == None && name == "" && dobMenus == MenusOf(now)
      ensures ListingOf(db.serviceUsers, rows)
    {
      this.db := db;
      this.currentUser := currentUser;
      editingUserId := None;
      name := "";
      dobMenus := MenusOf(now);
      rows := [];
      new;
      RefreshUserList();
      ClearEntries(now);
    }

    /** refresh_user_list. */
    method RefreshUserList()
      requires db.Valid()
      modifies this`rows
      ensures ListingOf(db.serviceUsers, rows)
    {
      rows := db.GetAllServiceUsers();
    }

    /** clear_entries: an empty name and today's date in the menus. */
    method ClearEntries(now: CalendarDate)
      requires ValidDate(now)
      modifies this`name, this`dobMenus
      ensures Valid() && name == "" && dobMenus == MenusOf(now)
    {
      name := "";
      dobMenus := MenusOf(now);
    }

    /** cancel_edit_mode: back to add mode with cleared entries. */
    method CancelEditMode(now: CalendarDate)
      requires db.Valid() && ValidDate(now)
      modifies this`editingUserId, this`name, this`dobMenus, this`rows
      ensures Valid() && editingUserId == None && name == "" && dobMenus == MenusOf(now)
      ensures ListingOf(db.serviceUsers, rows)
    {
      editingUserId := None;
      ClearEntries(now);
      RefreshUserList();
    }

    /** Typing a name and picking the menus (they offer only abbreviations). */
    method Enter(newName: string, menus: SessionMenus)
      requires menus.month in MonthAbbrevs
      modifies this`name, this`dobMenus
      ensures Valid() && name == newName && dobMenus == menus
    {
      name := newName;
      dobMenus := menus;
    }

    /** enter_edit_mode: the resident's id and name go into the form; the
        menus show the stored date of birth, or, when it does not parse,
        the entries are cleared (the name with them). */
    method EnterEditMode(listing: ResidentListing, now: CalendarDate)
      requires ValidDate(now)
      modifies this`editingUserId, this`name, this`dobMenus
      ensures Valid() && editingUserId == Some(listing.id)
      ensures EditMenus(listing.dob).Some? ==> name == listing.name && dobMenus == EditMenus(listing.dob).value
      ensures EditMenus(listing.dob).None? ==> name == "" && dobMenus == MenusOf(now)
    {
      editingUserId := Some(listing.id);
      name := listing.name;
      var menus := EditMenus(listing.dob);
      if menus.Some? {
        dobMenus := menus.value;
      } else {
        ClearEntries(now);
      }
    }

    /** add_or_update_user: the stripped name is required and the date must
        not hold the "Year" placeholder. In edit mode the resident is
        updated and, on success, the form returns to add mode; otherwise a
        resident is added and, on success, the entries are cleared and the
        list refreshed. A refusal by the store changes nothing. */
    method AddOrUpdateUser(now: CalendarDate)
      requires Valid() && db.Valid() && ValidDate(now)
      modifies this`editingUserId, this`name, this`dobMenus, this`rows, db`serviceUsers, db`log
      ensures Valid() && db.Valid()
      ensures var nm := Strip(old(name));
        var dob := DbDate(old(dobMenus).day, old(dobMenus).month, old(dobMenus).year);
        var t := old(db.serviceUsers);
        var accepted := nm != "" && !Contains(dob, "Year")
          && (if old(editingUserId).Some? then CanUpdate(t, old(editingUserId).value, nm) else CanAdd(t, nm));
        && (!accepted ==>
              && db.serviceUsers == t && db.log == old(db.log)
              && editingUserId == old(editingUserId) && name == old(name) && dobMenus == old(dobMenus)
              && rows == old(rows))
        && (accepted ==>
              && editingUserId == None && name == "" && dobMenus == MenusOf(now)
              && ListingOf(db.serviceUsers, rows))
        && (accepted && old(editingUserId).Some? ==>
              && db.serviceUsers == UpdateResident(t, old(editingUserId).value, nm, dob)
              && db.log == Append(old(db.log), currentUser.username, "UPDATE SERVICE USER",
                   "Updated ID " + IntToString(old(editingUserId).value) + " to Name: " + nm + ", DOB: " + dob))
        && (accepted && old(editingUserId).None? ==>
              && db.serviceUsers == AddResident(t, nm, dob)
              && db.log == Append(old(db.log), currentUser.username, "ADD SERVICE USER", "Added: " + nm))
    {
      var nm := Strip(name);
      var dob := DbDate(dobMenus.day, dobMenus.month, dobMenus.year);
      if nm == "" || Contains(dob, "Year") {
        return;
      }
      if editingUserId.Some? {
        var ok := db.UpdateServiceUser(editingUserId.value, nm, dob, currentUser.username);
        if ok {
          CancelEditMode(now);
        }
        return;
      }
      var ok := db.AddServiceUser(nm, dob, currentUser.username);
      if ok {
        ClearEntries(now);
        RefreshUserList();
      }
    }

    /** delete_user: after confirmation the supervisor's own password is
        asked for ("" cancels) and checked against the logged-in username;
        only then the resident and their forms are deleted, the list
        refreshed and, if that resident was being edited, edit mode left. */
    method DeleteUser(userId: int, confirm: bool, password: string, now: CalendarDate)
      requires Valid() && db.Valid() && ValidDate(now)
      modifies this`editingUserId, this`name, this`dobMenus, this`rows, db`serviceUsers, db`forms, db`log
      ensures Valid() && db.Valid()
      ensures var granted := confirm && password != ""
          && Credentials.VerifyUser(db.users, db.hash, currentUser.username, password).Some?;
        && (!granted ==>
              && db.serviceUsers == old(db.serviceUsers) && db.forms == old(db.forms) && db.log == old(db.log)
              && editingUserId == old(editingUserId) && name == old(name) && dobMenus == old(dobMenus)
              && rows == old(rows))
        && (granted && userId in old(db.serviceUsers) ==>
              && db.serviceUsers == old(db.serviceUsers) - {userId}
              && db.forms == FormsWithoutResident(old(db.forms), userId)
              && db.log == Append(old(db.log), currentUser.username, "DELETE SERVICE USER",
                   "Deleted: " + old(db.serviceUsers)[userId].name + " (ID: " + IntToString(userId) + ")"))
        && (granted && userId !in old(db.serviceUsers) ==>
              db.serviceUsers == old(db.serviceUsers) && db.forms == old(db.forms) && db.log == old(db.log))
        && (granted ==> ListingOf(db.serviceUsers, rows))
        && (granted && old(editingUserId) == Some(userId) ==>
              editingUserId == None && name == "" && dobMenus == MenusOf(now))
        && (granted && old(editingUserId) != Some(userId) ==>
              editingUserId == old(editingUserId) && name == old(name) && dobMenus == old(dobMenus))
    {
      if !confirm || password == "" {
        return;
      }
      var userData := db.VerifyUser(currentUser.username, password);
      if userData.Some? {
        db.DeleteServiceUser(userId, currentUser.username);
        RefreshUserList();
        if editingUserId == Some(userId) {
          CancelEditMode(now);
        }
      }
    }
  }
}
