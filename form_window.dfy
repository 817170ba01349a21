/** The form editor of KeyWorkerApp/form_window.py: one resident's form
    for one month. The widgets are fields (entries, switches, date buttons
    and text boxes keyed by the column each edits, the three session-date
    menus, the appointment rows and the two icon selections); the methods
    clear, load and save them through the store, by the rules of
    FormRules. */
module FormEditor {
  import opened Common
  import opened Tables
  import opened FormStore
  import opened FormRules
  import opened Store

  /** What _get_form_data_as_dict returns: the cells, and the appointments
      (kept apart, as save_form pops them before the upsert). */
  datatype FormDict = FormDict(fields: map<string, Value>, appointments: seq<AppointmentData>)

  /** The cells no widget edits: the resident and month, both session-date
      forms and the comma-joined icon selections. */
  function HeaderCells(formId: Value, sid: int, name: string, dob: string, month: string, year: string,
                       session: SessionMenus, feeling: seq<string>, care: seq<string>): (m: map<string, Value>)
    requires session.month in MonthAbbrevs
    ensures m.Keys == SpecialKeys
    ensures m[ServiceUserIdColumn] == Int(sid) && m["service_user_name"] == Text(name)
    ensures m[MonthYearColumn] == Text(month + " " + year)
    ensures m["session_datetime_db"] == Text(DbDate(session.day, session.month, session.year))
  {
    map["form_id" := formId, ServiceUserIdColumn := Int(sid), "service_user_name" := Text(name),
        "dob" := Text(dob), "month" := Text(month), "year" := Text(year),
        MonthYearColumn := Text(month + " " + year),
        "session_datetime_db" := Text(DbDate(session.day, session.month, session.year)),
        SessionColumn := Text(PdfDate(session.day, session.month, session.year)),
        FeelingIconsColumn := Text(Join(",", feeling)), CareIconsColumn := Text(Join(",", care))]
  }

  /** save_form's copy of the cells: the database form of the session date
      replaces the PDF form under "session_datetime". */
  function DbPayload(fields: map<string, Value>): (p: map<string, Value>)
    requires "session_datetime_db" in fields
    ensures "session_datetime_db" !in p && SessionColumn in p && p[SessionColumn] == fields["session_datetime_db"]
    ensures forall k :: k in fields && k != "session_datetime_db" && k != SessionColumn ==> k in p && p[k] == fields[k]
  {
    (fields - {"session_datetime_db"})[SessionColumn := fields["session_datetime_db"]]
  }

  /** Header cells laid over any widget cells survive save_form's copy:
      the resident, its name and the month key are what the header holds. */
  lemma HeaderSurvivesPayload(w: map<string, Value>, h: map<string, Value>)
    requires h.Keys == SpecialKeys
    ensures "session_datetime_db" in w + h
    ensures var p := DbPayload(w + h);
      && ServiceUserIdColumn in p && p[ServiceUserIdColumn] == h[ServiceUserIdColumn]
      && MonthYearColumn in p && p[MonthYearColumn] == h[MonthYearColumn]
      && "service_user_name" in p && p["service_user_name"] == h["service_user_name"]
  {
    var p := DbPayload(w + h);
    assert ServiceUserIdColumn != "session_datetime_db" && ServiceUserIdColumn != SessionColumn;
    assert MonthYearColumn != "session_datetime_db" && MonthYearColumn != SessionColumn;
    assert "service_user_name" != "session_datetime_db" && "service_user_name" != SessionColumn;
  }

  /** The editor was opened on a stored form: Python's truth of a dict. */
  predicate Opened(formData: Option<FormRow>)
  {
    formData.Some? && formData.value != map[]
  }

  /** A form dictionary the store hands over has an integer id (or none). */
  predicate IdCell(data: FormRow)
  {
    Get(data, "id").Null? || Get(data, "id").Int?
  }

  class FormWindow {
    const db: Database
    const currentUser: string
    const serviceUserId: int
    const serviceUserName: string
    const dob: string
    const month: string
    const year: string
    var formId: Value
    var entries: EntryWidgets
    var switches: SwitchWidgets
    var dates: DateWidgets
    var texts: TextWidgets
    var session: SessionMenus
    var appointmentRows: seq<AppointmentData>
    var feelingIcons: seq<string>
    var careIcons: seq<string>

    /** The month menu shows an abbreviation, and each icon selection
        lists offered labels once (the widget maps carry their shape in
        their types). */
    ghost predicate Valid()
      reads this`entries, this`switches, this`dates, this`texts, this`session, this`feelingIcons, this`careIcons
    {
      && session.month in MonthAbbrevs
      && IconsValid()
    }

    /** Each icon selection lists offered labels, each once. */
    ghost predicate IconsValid()
      reads this`feelingIcons, this`careIcons
    {
      && NoDuplicates(feelingIcons) && (forall k :: 0 <= k < |feelingIcons| ==> feelingIcons[k] in FeelingLabels)
      && NoDuplicates(careIcons) && (forall k :: 0 <= k < |careIcons| ==> careIcons[k] in CareLabels)
    }

    /** FormWindow.__init__: the session menus show today; a stored form
        (a non-empty dictionary) is loaded, otherwise the widgets start
        cleared with the placeholders in the two family boxes. No icon is
        selected either way. */
    constructor (db: Database, currentUser: string, serviceUserId: int, serviceUserName: string,
                 dob: string, month: string, year: string, formData: Option<FormRow>, today: CalendarDate)
      requires ValidDate(today)
      requires Opened(formData) ==> "id" in formData.value && IdCell(formData.value)
      ensures Valid()
      ensures this.db == db && this.currentUser == currentUser && this.serviceUserId == serviceUserId
      ensures this.serviceUserName == serviceUserName && this.dob == dob && this.month == month && this.year == year
      ensures feelingIcons == [] && careIcons == []
      ensures formId == if Opened(formData) then formData.value["id"] else Null
      ensures !Opened(formData) || !Truthy(formId) ==> Cleared() && session == MenusOf(today)
      ensures Opened(formData) && Truthy(formId) ==> Loaded(formData.value, false, MenusOf(today), db.appointments)
    {
      this.db := db;
      this.currentUser := currentUser;
      this.serviceUserId := serviceUserId;
      this.serviceUserName := serviceUserName;
      this.dob := dob;
      this.month := month;
      this.year := year;
      formId := if Opened(formData) then formData.value["id"] else Null;
      entries := ClearedEntries();
      switches := ClearedSwitches();
      dates := ClearedDates();
      texts := ClearedTexts();
      session := MenusOf(today);
      appointmentRows := [];
      feelingIcons := [];
      careIcons := [];
      new;
      if Opened(formData) {
        LoadFormData(formData.value, false);
      }
    }

    /** The widgets after _clear_form: the session menus and the icon
        selections are not touched. */
    ghost predicate Cleared()
      reads this
    {
      && entries == ClearedEntries() && switches == ClearedSwitches()
      && dates == ClearedDates() && texts == ClearedTexts() && appointmentRows == []
    }

    /** The widgets after _load_form_data(data, carryOver) of a form with
        an id, given the menus before and the appointments table. */
    ghost predicate Loaded(data: FormRow, carryOver: bool, sessionBefore: SessionMenus,
                           table: seq<AppointmentRow>)
      reads this
      requires Get(data, "id").Int?
    {
      && entries == LoadedEntries(data) && switches == LoadedSwitches(data)
      && dates == LoadedDates(data) && texts == LoadedTexts(data, carryOver)
      && session == (if carryOver then sessionBefore else RestoredMenus(Get(data, SessionColumn), sessionBefore))
      && appointmentRows == ShownRows(AppointmentsOf(table, Get(data, "id").i))
    }

    /** _clear_form. */
    method ClearForm()
      requires Valid()
      modifies this`entries, this`switches, this`dates, this`texts, this`appointmentRows
      ensures Valid() && Cleared()
    {
      entries := ClearedEntries();
      switches := ClearedSwitches();
      dates := ClearedDates();
      texts := ClearedTexts();
      appointmentRows := [];
    }

    /** _load_form_data: clear the form, then, when the form has an id, show
        its cells and its appointments. With carryOver the session date is
        not loaded and the goal boxes take the carry-over projection. */
    method LoadFormData(data: FormRow, carryOver: bool)
      requires Valid() && IdCell(data)
      modifies this`entries, this`switches, this`dates, this`texts, this`session, this`appointmentRows
      ensures Valid() && unchanged(this`formId, this`feelingIcons, this`careIcons)
      ensures !Truthy(Get(data, "id")) ==> Cleared() && session == old(session)
      ensures Truthy(Get(data, "id")) ==> Loaded(data, carryOver, old(session), db.appointments)
    {
      ClearForm();
      var id := Get(data, "id");
      if !Truthy(id) {
        return;
      }
      if !carryOver {
        LoadSession(Get(data, SessionColumn));
      }
      LoadAppointments(id.i);
      LoadCells(data, carryOver);
    }

    /** The cell steps of _load_form_data: every widget shows its column. */
    method LoadCells(data: FormRow, carryOver: bool)
      modifies this`entries, this`switches, this`dates, this`texts
      ensures entries == LoadedEntries(data) && switches == LoadedSwitches(data)
      ensures dates == LoadedDates(data) && texts == LoadedTexts(data, carryOver)
    {
      entries := LoadedEntries(data);
      switches := LoadedSwitches(data);
      dates := LoadedDates(data);
      texts := LoadedTexts(data, carryOver);
    }

    /** The session step of _load_form_data: strptime the stored value and
        set the three menus; a value that does not parse leaves them. */
    method LoadSession(v: Value)
      requires session.month in MonthAbbrevs
      modifies this`session
      ensures session == RestoredMenus(v, old(session)) && session.month in MonthAbbrevs
    {
      if Truthy(v) && v.Text? {
        var parsed := ParseIsoDate(v.s);
        if parsed.Some? {
          session := MenusOf(parsed.value);
        }
      }
    }

    /** The appointment step of _load_form_data: one row per stored
        appointment, in the store's order. */
    method LoadAppointments(formId: int)
      modifies this`appointmentRows
      ensures appointmentRows == ShownRows(AppointmentsOf(db.appointments, formId))
    {
      var list := db.GetAppointments(formId);
      appointmentRows := [];
      var k := 0;
      while k < |list|
        invariant 0 <= k <= |list|
        invariant |appointmentRows| == k
        invariant forall i :: 0 <= i < k ==> appointmentRows[i] == ShownRow(list[i])
      {
        appointmentRows := appointmentRows + [ShownRow(list[k])];
        k := k + 1;
      }
    }

    /** _select_feeling_icon: toggle the label and note it in the feeling
        box. */
    method SelectFeelingIcon(icon: string)
      requires Valid() && icon in FeelingLabels
      modifies this`feelingIcons, this`texts
      ensures Valid()
      ensures feelingIcons == Toggle(old(feelingIcons), icon)
      ensures texts == old(texts)[FeelingColumn := old(texts)[FeelingColumn] + "[" + icon + "] "]
    {
      ToggleFacts(feelingIcons, icon);
      var toggled := Toggle(feelingIcons, icon);
      forall k | 0 <= k < |toggled| ensures toggled[k] in FeelingLabels {
        assert toggled[k] in toggled;
      }
      feelingIcons := toggled;
      assert FeelingColumn in TextColumns;
      var before := texts;
      texts := texts[FeelingColumn := texts[FeelingColumn] + "[" + icon + "] "];
      assert texts.Keys == before.Keys;
    }

    /** _select_care_icon: toggle the label and note it in the
        happy-response box. */
    method SelectCareIcon(icon: string)
      requires Valid() && icon in CareLabels
      modifies this`careIcons, this`texts
      ensures Valid()
      ensures careIcons == Toggle(old(careIcons), icon)
      ensures texts == old(texts)[HappyColumn := old(texts)[HappyColumn] + "[" + icon + "] "]
    {
      ToggleFacts(careIcons, icon);
      var toggled := Toggle(careIcons, icon);
      forall k | 0 <= k < |toggled| ensures toggled[k] in CareLabels {
        assert toggled[k] in toggled;
      }
      careIcons := toggled;
      assert HappyColumn in TextColumns;
      var before := texts;
      texts := texts[HappyColumn := texts[HappyColumn] + "[" + icon + "] "];
      assert texts.Keys == before.Keys;
    }

    /** _get_form_data_as_dict. */
    function FormDataAsDict(): (d: FormDict)
      reads this
      requires Valid()
      ensures "session_datetime_db" in d.fields
      ensures var p := DbPayload(d.fields);
        && ServiceUserIdColumn in p && p[ServiceUserIdColumn] == Int(serviceUserId)
        && MonthYearColumn in p && p[MonthYearColumn] == Text(month + " " + year)
        && "service_user_name" in p && p["service_user_name"] == Text(serviceUserName)
        && Keyed(p)
      ensures forall k :: 0 <= k < |d.appointments| ==> d.appointments[k].name != ""
    {
      var w := WidgetCells(entries, switches, dates, texts);
      var h := HeaderCells(formId, serviceUserId, serviceUserName, dob, month, year, session, feelingIcons, careIcons);
      HeaderSurvivesPayload(w, h);
      FormDict(w + h, SavedRows(appointmentRows))
    }

    /** save_form: upsert the cells under "<month> <year>", then, as the
        upsert returned an id, remember it and replace the form's
        appointments with the named rows. */
    method SaveForm()
      requires Valid() && db.Valid()
      modifies this`formId, db`forms, db`log, db`appointments
      ensures Valid() && db.Valid()
      ensures formId.Int? && formId.i >= 1
      ensures Saved(db.forms, formId.i) == Upsert(old(db.forms), DbPayload(old(FormDataAsDict()).fields))
      ensures db.appointments == ReplaceAppointments(old(db.appointments), formId.i, SavedRows(old(appointmentRows)))
      ensures db.log == ActivityLog.Append(old(db.log), currentUser, "SAVE FORM",
        "Saved form for " + serviceUserName + " for month " + (month + " " + year))
    {
      var d := FormDataAsDict();
      Submit(DbPayload(d.fields), d.appointments);
    }

    /** The store calls of save_form for a payload and its appointments. */
    method Submit(payload: map<string, Value>, appointments: seq<AppointmentData>)
      requires Valid() && db.Valid() && Keyed(payload)
      requires Get(payload, "service_user_name") == Text(serviceUserName)
      requires Get(payload, MonthYearColumn) == Text(month + " " + year)
      modifies this`formId, db`forms, db`log, db`appointments
      ensures Valid() && db.Valid()
      ensures formId.Int? && formId.i >= 1
      ensures Saved(db.forms, formId.i) == Upsert(old(db.forms), payload)
      ensures db.appointments == ReplaceAppointments(old(db.appointments), formId.i, appointments)
      ensures db.log == ActivityLog.Append(old(db.log), currentUser, "SAVE FORM",
        "Saved form for " + serviceUserName + " for month " + (month + " " + year))
    {
      var saved := db.SaveFormData(payload, currentUser);
      if saved != 0 {
        formId := Int(saved);
        db.SaveAppointments(saved, appointments);
      }
    }

    /** _load_previous_month_data: find the form of the month before and,
        when there is one and the user confirms, load it with carry-over.
        Otherwise nothing changes. */
    method LoadPreviousMonthData(confirm: bool)
      requires Valid() && db.Valid()
      modifies this`entries, this`switches, this`dates, this`texts, this`session, this`appointmentRows
      ensures Valid()
      ensures var key := PreviousMonthKey(month, year);
        var found := if key.Some? then FormStore.GetFormData(db.forms, serviceUserId, key.value) else None;
        if found.Some? && confirm then
          Get(found.value, "id").Int? && Loaded(found.value, true, old(session), db.appointments)
        else
          entries == old(entries) && switches == old(switches) && dates == old(dates) && texts == old(texts)
          && session == old(session) && appointmentRows == old(appointmentRows)
    {
      var key := PreviousMonthKey(month, year);
      if key.None? {
        return;
      }
      var previous := db.GetFormData(serviceUserId, key.value);
      if previous.Some? && confirm {
        FoundFormHasId(db.forms, serviceUserId, key.value);
        LoadFormData(previous.value, true);
      }
    }
  }

  /** A form get_form_data finds carries its positive rowid as "id". */
  lemma FoundFormHasId(forms: map<int, FormRow>, sid: int, monthYear: string)
    requires WellFormed(forms)
    ensures var r := FormStore.GetFormData(forms, sid, monthYear);
      r.Some? ==> Get(r.value, "id").Int? && Get(r.value, "id").i >= 1 && r.value != map[]
  {
  }

  /** The key the editor saves under is the key the main window looks the
      form up by: "<MonthName> <Year>" with the year as str(int). */
  lemma SaveKeyIsFormKey(monthName: string, y: int)
    ensures monthName + " " + IntToString(y) == FormKey(monthName, y)
  {
  }
}
