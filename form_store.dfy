/** The monthly form store of KeyWorkerApp/database_utils.py: the upsert of a
    form keyed on (service_user_id, form_month_year), the lookup of a form, and
    the delete-then-reinsert replacement of a form's appointments. These are
    the functions the Database class's methods are proved against. */
module FormStore {
  import opened Common
  import opened Tables

  const ServiceUserIdColumn := "service_user_id"
  const MonthYearColumn := "form_month_year"

  /** The columns save_form_data_db may write, in its order, grouped by the
      sections of the form. */
  const KeyColumns: seq<string> := [ServiceUserIdColumn, MonthYearColumn]
  const SessionColumns: seq<string> := ["key_worker_name", "session_datetime"]
  const HealthColumns: seq<string> := ["weight", "bp", "weight_bp_comments", "health_concerns", "health_concerns_comments"]
  const PersonalCareColumns: seq<string> := ["nails_check", "nails_date", "nails_comments", "hair_check", "hair_date", "hair_comments"]
  const MedicationColumns: seq<string> := ["mar_sheets_check", "mar_sheets_comments"]
  const FinanceColumns: seq<string> := ["finance_cash_box", "finance_top_up", "finance_take_out", "finance_diary_datetime", "finance_diary_staff"]
  const ShoppingColumns: seq<string> := ["shop_q1_toiletries", "shop_q1_comments", "shop_q2_clothes", "shop_q2_comments", "shop_q3_personal_items", "shop_q3_comments"]
  const CareDocsColumns: seq<string> := ["caredocs_contacts", "caredocs_careplan", "caredocs_meds", "caredocs_bodymap", "caredocs_charts", "health_plan_file", "actions_required"]
  const FamilyColumns: seq<string> := ["family_comm_made", "family_comm_datetime", "family_comm_reason", "family_comm_issues"]
  const GoalColumns: seq<string> := ["current_goal", "last_goal_progress", "feeling_response", "happy_response", "other_notes"]
  const IconColumns: seq<string> := ["feeling_icons_selected", "care_icons_selected"]
  const DataColumns: seq<string> := KeyColumns + SessionColumns + HealthColumns + PersonalCareColumns + MedicationColumns
    + FinanceColumns + ShoppingColumns + CareDocsColumns + FamilyColumns + GoalColumns
  const Columns: seq<string> := DataColumns + IconColumns

  /** Keys the form editor puts in its payload that are not columns. */
  const PayloadOnlyKeys: set<string> := {"form_id", "service_user_name", "dob", "month", "year"}

  /** `k` is in none of the groups of DataColumns. */
  predicate OutsideDataGroups(k: string)
  {
    && k !in KeyColumns && k !in SessionColumns && k !in HealthColumns && k !in PersonalCareColumns
    && k !in MedicationColumns && k !in FinanceColumns && k !in ShoppingColumns && k !in CareDocsColumns
    && k !in FamilyColumns && k !in GoalColumns
  }

  predicate OutsideGroups(k: string)
  {
    OutsideDataGroups(k) && k !in IconColumns
  }

  lemma OutsideGroupsNotAColumn(k: string)
    requires OutsideGroups(k)
    ensures k !in DataColumns && k !in Columns
  {
  }

  /** The editor's extra keys and the "id" get_form_data adds are not
      columns, so the upsert never writes them and "id" never hides a stored
      cell. */
  lemma NotColumns(k: string)
    requires k in PayloadOnlyKeys || k == "id"
    ensures k !in Columns
  {
    assert OutsideGroups(k);
    OutsideGroupsNotAColumn(k);
  }

  /** A payload the upsert can be called with: it names the resident by an
      integer id and the month by a text key (the code reads both with [],
      and the columns are NOT NULL). */
  predicate Keyed(payload: map<string, Value>)
  {
    && ServiceUserIdColumn in payload && payload[ServiceUserIdColumn].Int?
    && MonthYearColumn in payload && payload[MonthYearColumn].Text?
  }

  /** The row belongs to resident `sid` and month key `monthYear`. */
  predicate HasKey(row: FormRow, sid: int, monthYear: string)
  {
    Get(row, ServiceUserIdColumn) == Int(sid) && Get(row, MonthYearColumn) == Text(monthYear)
  }

  function KeyOf(row: FormRow): (Value, Value)
  {
    (Get(row, ServiceUserIdColumn), Get(row, MonthYearColumn))
  }

  /** The invariants the forms table keeps: positive rowids, NOT NULL key
      columns, and UNIQUE(service_user_id, form_month_year). */
  ghost predicate WellFormed(forms: map<int, FormRow>)
  {
    && (forall id :: id in forms ==> id >= 1)
    && (forall id :: id in forms ==> KeyOf(forms[id]).0.Int? && KeyOf(forms[id]).1.Text?)
    && (forall a, b :: a in forms && b in forms && KeyOf(forms[a]) == KeyOf(forms[b]) ==> a == b)
  }

  /** The cells one upsert writes: every whitelisted column the payload has,
      with the payload's value. */
  function WrittenCells(payload: map<string, Value>): (cells: FormRow)
  {
    map c | c in payload && c in Columns :: payload[c]
  }

  /** The id of the form stored under a key, if any (the SELECT on the
      unique key). */
  ghost function FindForm(forms: map<int, FormRow>, sid: int, monthYear: string): (r: Option<int>)
    ensures r.Some? ==> r.value in forms && HasKey(forms[r.value], sid, monthYear)
    ensures r.None? ==> forall id :: id in forms ==> !HasKey(forms[id], sid, monthYear)
  {
    if exists id :: id in forms && HasKey(forms[id], sid, monthYear) then
      Some(var id :| id in forms && HasKey(forms[id], sid, monthYear); id)
    else None
  }

  /** With the key unique, the form under a key is the one found. */
  lemma FindFormUnique(forms: map<int, FormRow>, id: int, sid: int, monthYear: string)
    requires WellFormed(forms) && id in forms && HasKey(forms[id], sid, monthYear)
    ensures FindForm(forms, sid, monthYear) == Some(id)
  {
    var r := FindForm(forms, sid, monthYear);
    assert KeyOf(forms[r.value]) == KeyOf(forms[id]);
  }

  /** get_form_data: the stored row as a dictionary, with its id. */
  ghost function GetFormData(forms: map<int, FormRow>, sid: int, monthYear: string): Option<FormRow>
  {
    match FindForm(forms, sid, monthYear)
    case None => None
    case Some(id) => Some(forms[id]["id" := Int(id)])
  }

  /** The new forms table and the id save_form_data_db returns. */
  datatype Saved = Saved(forms: map<int, FormRow>, formId: int)

  /** save_form_data_db: update the present columns of the form under the
      payload's key, or insert a new form holding the present columns. */
  ghost function Upsert(forms: map<int, FormRow>, payload: map<string, Value>): Saved
    requires Keyed(payload)
  {
    var sid := payload[ServiceUserIdColumn].i;
    var monthYear := payload[MonthYearColumn].s;
    match FindForm(forms, sid, monthYear)
    case Some(id) => Saved(forms[id := forms[id] + WrittenCells(payload)], id)
    case None =>
      var id := NextRowId(forms.Keys);
      Saved(forms[id := WrittenCells(payload)], id)
  }

  // ------------------------------------------------------------ upsert facts

  /** Keys that are not columns never reach the table. */
  lemma NonColumnKeysIgnored(payload: map<string, Value>, k: string)
    requires k !in Columns
    ensures k !in WrittenCells(payload)
    ensures WrittenCells(payload) == WrittenCells(payload - {k})
  {
  }

  /** The cells written carry the key the upsert looked up. */
  lemma WrittenCellsKey(payload: map<string, Value>)
    requires Keyed(payload)
    ensures HasKey(WrittenCells(payload), payload[ServiceUserIdColumn].i, payload[MonthYearColumn].s)
  {
    assert ServiceUserIdColumn in Columns && MonthYearColumn in Columns;
  }

  /** Rewriting rows without changing their keys keeps the invariants. */
  lemma SameKeysWellFormed(forms: map<int, FormRow>, forms': map<int, FormRow>)
    requires WellFormed(forms) && forms'.Keys == forms.Keys
    requires forall x :: x in forms ==> KeyOf(forms'[x]) == KeyOf(forms[x])
    ensures WellFormed(forms')
  {
  }

  /** Inserting a row under a fresh positive id with a key no row has keeps
      the invariants. */
  lemma InsertWellFormed(forms: map<int, FormRow>, id: int, row: FormRow, sid: int, monthYear: string)
    requires WellFormed(forms) && id >= 1 && id !in forms
    requires HasKey(row, sid, monthYear)
    requires forall x :: x in forms ==> !HasKey(forms[x], sid, monthYear)
    ensures WellFormed(forms[id := row])
  {
    var forms' := forms[id := row];
    forall a, b | a in forms' && b in forms' && KeyOf(forms'[a]) == KeyOf(forms'[b])
      ensures a == b
    {
      assert forms'[a] == (if a == id then row else forms[a]);
      assert forms'[b] == (if b == id then row else forms[b]);
    }
  }

  /** An upsert keeps the table's invariants, so the key stays unique. */
  lemma UpsertWellFormed(forms: map<int, FormRow>, payload: map<string, Value>)
    requires WellFormed(forms) && Keyed(payload)
    ensures WellFormed(Upsert(forms, payload).forms)
  {
    var sid := payload[ServiceUserIdColumn].i;
    var monthYear := payload[MonthYearColumn].s;
    var w := WrittenCells(payload);
    WrittenCellsKey(payload);
    match FindForm(forms, sid, monthYear)
    case Some(id) =>
      var forms' := forms[id := forms[id] + w];
      assert KeyOf(forms'[id]) == KeyOf(forms[id]);
      SameKeysWellFormed(forms, forms');
    case None =>
      NextRowIdFresh(forms.Keys);
      InsertWellFormed(forms, NextRowId(forms.Keys), w, sid, monthYear);
  }

  /** An upsert under a key already stored updates that form: the id is the
      stored one and no row is added. */
  lemma UpsertExistingKeepsId(forms: map<int, FormRow>, payload: map<string, Value>, id: int)
    requires WellFormed(forms) && Keyed(payload)
    requires id in forms && HasKey(forms[id], payload[ServiceUserIdColumn].i, payload[MonthYearColumn].s)
    ensures Upsert(forms, payload).formId == id
    ensures Upsert(forms, payload).forms.Keys == forms.Keys
  {
    FindFormUnique(forms, id, payload[ServiceUserIdColumn].i, payload[MonthYearColumn].s);
  }

  /** An upsert under a new key inserts exactly one row, under a fresh
      positive id, holding exactly the present columns. */
  lemma UpsertNewInsertsOne(forms: map<int, FormRow>, payload: map<string, Value>)
    requires WellFormed(forms) && Keyed(payload)
    requires FindForm(forms, payload[ServiceUserIdColumn].i, payload[MonthYearColumn].s).None?
    ensures var r := Upsert(forms, payload);
      && r.formId >= 1 && r.formId !in forms
      && r.forms.Keys == forms.Keys + {r.formId}
      && (forall c :: Get(r.forms[r.formId], c) == if c in Columns then Get(payload, c) else Null)
  {
    NextRowIdFresh(forms.Keys);
  }

  /** Partial update: each column of the saved form holds the payload's value
      when the payload has it and the old stored value (NULL for a new form)
      otherwise; every other form is untouched. */
  lemma UpsertCells(forms: map<int, FormRow>, payload: map<string, Value>)
    requires WellFormed(forms) && Keyed(payload)
    ensures var r := Upsert(forms, payload);
      var before := FindForm(forms, payload[ServiceUserIdColumn].i, payload[MonthYearColumn].s);
      && r.formId in r.forms
      && (forall c :: Get(r.forms[r.formId], c) ==
            if c in payload && c in Columns then payload[c]
            else if before.Some? then Get(forms[r.formId], c)
            else Null)
      && (forall x :: x in forms && x != r.formId ==> x in r.forms && r.forms[x] == forms[x])
  {
    NextRowIdFresh(forms.Keys);
  }

  /** The upsert of a payload whose key is stored under `id`. */
  lemma UpsertAt(forms: map<int, FormRow>, payload: map<string, Value>, id: int)
    requires WellFormed(forms) && Keyed(payload)
    requires id in forms && HasKey(forms[id], payload[ServiceUserIdColumn].i, payload[MonthYearColumn].s)
    ensures Upsert(forms, payload) == Saved(forms[id := forms[id] + WrittenCells(payload)], id)
  {
    FindFormUnique(forms, id, payload[ServiceUserIdColumn].i, payload[MonthYearColumn].s);
  }

  /** The saved form holds the payload's key. */
  lemma UpsertSavedKey(forms: map<int, FormRow>, payload: map<string, Value>)
    requires WellFormed(forms) && Keyed(payload)
    ensures var r := Upsert(forms, payload);
      r.formId in r.forms && HasKey(r.forms[r.formId], payload[ServiceUserIdColumn].i, payload[MonthYearColumn].s)
  {
    WrittenCellsKey(payload);
  }

  /** Saving the same payload twice is the same as saving it once. */
  lemma UpsertIdempotent(forms: map<int, FormRow>, payload: map<string, Value>)
    requires WellFormed(forms) && Keyed(payload)
    ensures Upsert(Upsert(forms, payload).forms, payload) == Upsert(forms, payload)
  {
    var r := Upsert(forms, payload);
    var w := WrittenCells(payload);
    UpsertWellFormed(forms, payload);
    UpsertSavedKey(forms, payload);
    UpsertAt(r.forms, payload, r.formId);
    var row := r.forms[r.formId];
    assert row + w == row by {
      if FindForm(forms, payload[ServiceUserIdColumn].i, payload[MonthYearColumn].s).None? {
        assert row == w;
      } else {
        assert row == forms[r.formId] + w;
      }
    }
    assert r.forms[r.formId := row] == r.forms;
  }

  /** An upsert followed by get_form_data under the same key returns the
      saved form, whose present columns are exactly what was written. */
  lemma UpsertThenGet(forms: map<int, FormRow>, payload: map<string, Value>)
    requires WellFormed(forms) && Keyed(payload)
    ensures var r := Upsert(forms, payload);
      var got := GetFormData(r.forms, payload[ServiceUserIdColumn].i, payload[MonthYearColumn].s);
      && got.Some?
      && Get(got.value, "id") == Int(r.formId)
      && forall c :: c in payload && c in Columns ==> Get(got.value, c) == payload[c]
  {
    var r := Upsert(forms, payload);
    UpsertWellFormed(forms, payload);
    UpsertSavedKey(forms, payload);
    FindFormUnique(r.forms, r.formId, payload[ServiceUserIdColumn].i, payload[MonthYearColumn].s);
    NotColumns("id");
    forall c | c in payload && c in Columns
      ensures Get(r.forms[r.formId], c) == payload[c]
    {
      assert c in WrittenCells(payload);
    }
  }

  /** Every upsert returns a positive id, so save_form_data always logs and
      save_form always goes on to save the appointments. */
  lemma UpsertIdTruthy(forms: map<int, FormRow>, payload: map<string, Value>)
    requires WellFormed(forms) && Keyed(payload)
    ensures Upsert(forms, payload).formId >= 1
  {
    NextRowIdFresh(forms.Keys);
  }

  // ------------------------------------------------------------ appointments

  /** get_appointments: the appointments of one form, in rowid order. */
  function AppointmentsOf(rows: seq<AppointmentRow>, formId: int): seq<AppointmentData>
  {
    if rows == [] then []
    else (if rows[0].formId == formId then [rows[0].data] else []) + AppointmentsOf(rows[1..], formId)
  }

  /** DELETE FROM appointments WHERE form_id = ?. */
  function WithoutForm(rows: seq<AppointmentRow>, formId: int): seq<AppointmentRow>
  {
    if rows == [] then []
    else (if rows[0].formId == formId then [] else [rows[0]]) + WithoutForm(rows[1..], formId)
  }

  /** The rows executemany inserts for a list of appointment tuples. */
  function Tagged(formId: int, list: seq<AppointmentData>): (r: seq<AppointmentRow>)
    ensures |r| == |list|
    ensures forall k :: 0 <= k < |list| ==> r[k] == AppointmentRow(formId, list[k])
  {
    if list == [] then [] else [AppointmentRow(formId, list[0])] + Tagged(formId, list[1..])
  }

  lemma TaggedSnoc(formId: int, list: seq<AppointmentData>, x: AppointmentData)
    ensures Tagged(formId, list + [x]) == Tagged(formId, list) + [AppointmentRow(formId, x)]
  {
    assert |Tagged(formId, list + [x])| == |list| + 1;
    forall k | 0 <= k <= |list|
      ensures Tagged(formId, list + [x])[k] == (Tagged(formId, list) + [AppointmentRow(formId, x)])[k]
    {
      assert (list + [x])[k] == if k < |list| then list[k] else x;
    }
  }

  /** save_appointments: delete the form's appointments, then append the new
      list. */
  function ReplaceAppointments(rows: seq<AppointmentRow>, formId: int, list: seq<AppointmentData>): seq<AppointmentRow>
  {
    WithoutForm(rows, formId) + Tagged(formId, list)
  }

  lemma {:induction false} AppointmentsOfConcat(a: seq<AppointmentRow>, b: seq<AppointmentRow>, formId: int)
    ensures AppointmentsOf(a + b, formId) == AppointmentsOf(a, formId) + AppointmentsOf(b, formId)
  {
    if a == [] {
      assert a + b == b;
    } else {
      assert (a + b)[0] == a[0] && (a + b)[1..] == a[1..] + b;
      AppointmentsOfConcat(a[1..], b, formId);
      var head := if a[0].formId == formId then [a[0].data] else [];
      assert AppointmentsOf(a + b, formId) == head + (AppointmentsOf(a[1..], formId) + AppointmentsOf(b, formId));
    }
  }

  lemma {:induction false} WithoutFormConcat(a: seq<AppointmentRow>, b: seq<AppointmentRow>, formId: int)
    ensures WithoutForm(a + b, formId) == WithoutForm(a, formId) + WithoutForm(b, formId)
  {
    if a == [] {
      assert a + b == b;
    } else {
      assert (a + b)[0] == a[0] && (a + b)[1..] == a[1..] + b;
      WithoutFormConcat(a[1..], b, formId);
      var head := if a[0].formId == formId then [] else [a[0]];
      assert WithoutForm(a + b, formId) == head + (WithoutForm(a[1..], formId) + WithoutForm(b, formId));
    }
  }

  lemma {:induction false} AppointmentsOfWithout(rows: seq<AppointmentRow>, formId: int, other: int)
    ensures AppointmentsOf(WithoutForm(rows, formId), other) ==
      if other == formId then [] else AppointmentsOf(rows, other)
  {
    if rows != [] {
      AppointmentsOfWithout(rows[1..], formId, other);
      var head := if rows[0].formId == formId then [] else [rows[0]];
      AppointmentsOfConcat(head, WithoutForm(rows[1..], formId), other);
    }
  }

  lemma {:induction false} AppointmentsOfTagged(formId: int, list: seq<AppointmentData>, other: int)
    ensures AppointmentsOf(Tagged(formId, list), other) == if other == formId then list else []
  {
    if list != [] {
      var t := Tagged(formId, list);
      AppointmentsOfTagged(formId, list[1..], other);
      assert t[1..] == Tagged(formId, list[1..]);
      assert t[0] == AppointmentRow(formId, list[0]);
      assert list == [list[0]] + list[1..];
      assert AppointmentsOf(t, other) == (if formId == other then [list[0]] else []) + AppointmentsOf(t[1..], other);
    }
  }

  lemma {:induction false} WithoutFormTagged(formId: int, list: seq<AppointmentData>)
    ensures WithoutForm(Tagged(formId, list), formId) == []
  {
    if list != [] {
      var t := Tagged(formId, list);
      assert t[1..] == Tagged(formId, list[1..]);
      assert t[0] == AppointmentRow(formId, list[0]);
      WithoutFormTagged(formId, list[1..]);
      assert WithoutForm(t, formId) == [] + WithoutForm(t[1..], formId);
    }
  }

  lemma {:induction false} WithoutFormTwice(rows: seq<AppointmentRow>, formId: int)
    ensures WithoutForm(WithoutForm(rows, formId), formId) == WithoutForm(rows, formId)
  {
    if rows != [] {
      WithoutFormTwice(rows[1..], formId);
      var head := if rows[0].formId == formId then [] else [rows[0]];
      WithoutFormConcat(head, WithoutForm(rows[1..], formId), formId);
    }
  }

  /** After save_appointments(f, L), get_appointments(f) returns exactly L,
      in order; an empty L clears them. */
  lemma ReplaceThenGet(rows: seq<AppointmentRow>, formId: int, list: seq<AppointmentData>)
    ensures AppointmentsOf(ReplaceAppointments(rows, formId, list), formId) == list
  {
    AppointmentsOfConcat(WithoutForm(rows, formId), Tagged(formId, list), formId);
    AppointmentsOfWithout(rows, formId, formId);
    AppointmentsOfTagged(formId, list, formId);
  }

  /** save_appointments(f, L) leaves every other form's appointments as they
      were. */
  lemma ReplaceKeepsOthers(rows: seq<AppointmentRow>, formId: int, list: seq<AppointmentData>, other: int)
    requires other != formId
    ensures AppointmentsOf(ReplaceAppointments(rows, formId, list), other) == AppointmentsOf(rows, other)
  {
    AppointmentsOfConcat(WithoutForm(rows, formId), Tagged(formId, list), other);
    AppointmentsOfWithout(rows, formId, other);
    AppointmentsOfTagged(formId, list, other);
  }

  /** Replace, not merge: a second save_appointments for the same form wipes
      out every trace of the first. */
  lemma ReplaceOverwrites(rows: seq<AppointmentRow>, formId: int, first: seq<AppointmentData>, second: seq<AppointmentData>)
    ensures ReplaceAppointments(ReplaceAppointments(rows, formId, first), formId, second)
         == ReplaceAppointments(rows, formId, second)
  {
    WithoutFormConcat(WithoutForm(rows, formId), Tagged(formId, first), formId);
    WithoutFormTwice(rows, formId);
    WithoutFormTagged(formId, first);
  }
}
