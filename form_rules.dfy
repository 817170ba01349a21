/** The rules KeyWorkerApp/form_window.py applies between a stored form row
    and the widgets of the form editor: how a cell is shown in an entry, a
    switch, a date button or a text box, how the widget's content is written
    back, the session date's text form, the previous month's key, the
    toggling of icon labels and the filtering of appointment rows. All of
    them are pure; the FormWindow class applies them to its widget state. */
module FormRules {
  import opened Common
  import opened Tables
  import opened FormStore

  const ReasonPlaceholder := "If NO... PLEASE STATE REASON:"
  const IssuesPlaceholder := "ISSUES/CONCERNS/ACTIONS:"
  const ReasonColumn := "family_comm_reason"
  const IssuesColumn := "family_comm_issues"

  /** What an unset date button shows. */
  const DateSentinel := "Select Date"
  const LastSeenSentinel := "Last Seen"
  const NextDueSentinel := "Next Due"
  /** What an appointment's booked menu shows when the stored value is empty. */
  const BookedDefault := "N/A"

  /** The form's columns by the kind of widget that edits them. */
  const EntryColumns: seq<string> := ["key_worker_name", "weight", "bp", "weight_bp_comments",
    "health_concerns_comments", "nails_comments", "hair_comments", "mar_sheets_comments",
    "finance_cash_box", "finance_take_out", "finance_diary_datetime", "finance_diary_staff",
    "shop_q1_comments", "shop_q2_comments", "shop_q3_comments", "family_comm_datetime"]
  const SwitchColumns: seq<string> := ["health_concerns", "nails_check", "hair_check",
    "mar_sheets_check", "finance_top_up", "shop_q1_toiletries", "shop_q2_clothes",
    "shop_q3_personal_items", "caredocs_contacts", "caredocs_careplan", "caredocs_meds",
    "caredocs_bodymap", "caredocs_charts", "health_plan_file", "family_comm_made"]
  const DateColumns: seq<string> := ["nails_date", "hair_date"]
  const TextColumns: seq<string> := ["actions_required", ReasonColumn, IssuesColumn,
    "current_goal", "last_goal_progress", "feeling_response", "happy_response", "other_notes"]

  const FeelingColumn := "feeling_response"
  const HappyColumn := "happy_response"
  const CurrentGoalColumn := "current_goal"
  const LastGoalColumn := "last_goal_progress"
  const OtherNotesColumn := "other_notes"
  const SessionColumn := "session_datetime"
  const FeelingIconsColumn := "feeling_icons_selected"
  const CareIconsColumn := "care_icons_selected"

  // ------------------------------------------------- the widget groups are disjoint

  lemma SwitchNotEntry(c: string)
    requires c in SwitchColumns
    ensures c !in EntryColumns
  {
    if c in EntryColumns {
      EntryNotSwitch(c);
    }
  }

  lemma DateNotEntryOrSwitch(c: string)
    requires c in DateColumns
    ensures c !in EntryColumns && c !in SwitchColumns
  {
    if c in EntryColumns {
      EntryNotLater(c);
    }
    if c in SwitchColumns {
      SwitchNotLater(c);
    }
  }

  lemma TextNotOtherWidget(c: string)
    requires c in TextColumns
    ensures c !in EntryColumns && c !in SwitchColumns && c !in DateColumns
  {
    if c in EntryColumns {
      EntryNotLater(c);
    }
    if c in SwitchColumns {
      SwitchNotLater(c);
    }
    if c in DateColumns {
      DateNotText(c);
    }
  }

  /** The payload's keys that no widget edits: the header, the two
      session-date forms and the two icon lists. */
  const SpecialKeys: set<string> := {"form_id", ServiceUserIdColumn, "service_user_name", "dob",
    "month", "year", MonthYearColumn, "session_datetime_db", SessionColumn,
    FeelingIconsColumn, CareIconsColumn}

  lemma EntryNotSpecial(c: string)
    requires c in EntryColumns
    ensures c !in SpecialKeys
  {
  }

  lemma SwitchNotSpecial(c: string)
    requires c in SwitchColumns
    ensures c !in SpecialKeys
  {
  }

  lemma DateNotSpecial(c: string)
    requires c in DateColumns
    ensures c !in SpecialKeys
  {
  }

  lemma TextNotSpecial(c: string)
    requires c in TextColumns
    ensures c !in SpecialKeys
  {
  }

  // ------------------------------------------------------- entries and switches

  /** _set: an entry shows str(value), and stays empty for None. */
  function EntryShown(v: Value): (s: string)
    ensures v.Text? ==> s == v.s
    ensures v.Null? ==> s == ""
  {
    if v.Null? then "" else Render(v)
  }

  /** _set_sw: a switch is on exactly when the stored value is "Yes". */
  predicate SwitchShown(v: Value)
  {
    v == Text("Yes")
  }

  /** A switch's onvalue / offvalue. */
  function SwitchSaved(on: bool): string
  {
    if on then "Yes" else "No"
  }

  /** Writing a switch and loading it back gives the same position, and a
      stored value survives load and save exactly when it is "Yes" or "No";
      anything else comes back as "No". */
  lemma SwitchRoundTrip(on: bool, v: Value)
    ensures SwitchShown(Text(SwitchSaved(on))) == on
    ensures Text(SwitchSaved(SwitchShown(v))) == v <==> v == Text("Yes") || v == Text("No")
    ensures v != Text("Yes") ==> SwitchSaved(SwitchShown(v)) == "No"
  {
  }

  // ---------------------------------------------------------------- dates

  /** `data.get(column) or sentinel`. */
  function DateShown(v: Value, sentinel: string): string
  {
    if Truthy(v) then Render(v) else sentinel
  }

  /** get_clean_date: the sentinel is saved as "". */
  function CleanDate(shown: string, sentinel: string): string
  {
    if shown == sentinel then "" else shown
  }

  /** A date that was set survives save and load; an unset one is saved
      as "" and shown as the sentinel again. */
  lemma DateRoundTrip(shown: string, sentinel: string)
    requires shown != "" && sentinel != ""
    ensures DateShown(Text(CleanDate(shown, sentinel)), sentinel) == shown
    ensures CleanDate(sentinel, sentinel) == ""
  {
  }

  // ---------------------------------------------------------------- text boxes

  /** _set_txt's test: the value is truthy, not blank, and not the
      placeholder. */
  predicate ShowsValue(v: Value, placeholder: string)
  {
    Truthy(v) && Strip(Render(v)) != "" && Strip(Render(v)) != placeholder
  }

  /** _set_txt: the value itself when it passes the test, otherwise the
      placeholder ("" for boxes without one). */
  function TextShown(v: Value, placeholder: string): string
  {
    if ShowsValue(v, placeholder) then Render(v) else placeholder
  }

  /** get_clean_text: the stripped text, or "" when it is the placeholder. */
  function CleanText(text: string, placeholder: string): (s: string)
    ensures s != placeholder || placeholder == ""
    ensures s == "" || s == Strip(text)
  {
    var t := Strip(text);
    if t == placeholder then "" else t
  }

  /** The placeholders have no surrounding whitespace, so they strip to
      themselves. */
  lemma PlaceholderTrimmed(p: string)
    requires p == ReasonPlaceholder || p == IssuesPlaceholder
    ensures Strip(p) == p
  {
    if p == ReasonPlaceholder {
      StripTrimmed(ReasonPlaceholder);
    } else {
      StripTrimmed(IssuesPlaceholder);
    }
  }

  /** A text box with a placeholder: an empty or placeholder value is shown
      as the placeholder, the placeholder is saved as "", and any other
      value is saved stripped. */
  lemma PlaceholderRoundTrip(v: Value, placeholder: string)
    requires placeholder == ReasonPlaceholder || placeholder == IssuesPlaceholder
    ensures !ShowsValue(v, placeholder) ==> TextShown(v, placeholder) == placeholder
    ensures CleanText(placeholder, placeholder) == ""
    ensures CleanText(TextShown(v, placeholder), placeholder)
      == if ShowsValue(v, placeholder) then Strip(Render(v)) else ""
  {
    PlaceholderTrimmed(placeholder);
    TrimmedPlaceholderRoundTrip(v, placeholder);
  }

  /** The same round trip for any placeholder that strips to itself. */
  lemma TrimmedPlaceholderRoundTrip(v: Value, placeholder: string)
    requires Strip(placeholder) == placeholder
    ensures !ShowsValue(v, placeholder) ==> TextShown(v, placeholder) == placeholder
    ensures CleanText(placeholder, placeholder) == ""
    ensures CleanText(TextShown(v, placeholder), placeholder)
      == if ShowsValue(v, placeholder) then Strip(Render(v)) else ""
  {
  }

  /** A stored text with no surrounding whitespace that is not the
      placeholder survives load and save unchanged. */
  lemma TrimmedTextRoundTrip(s: string, placeholder: string)
    requires placeholder == ReasonPlaceholder || placeholder == IssuesPlaceholder
    requires Strip(s) == s && s != placeholder
    ensures CleanText(TextShown(Text(s), placeholder), placeholder) == s
  {
    PlaceholderRoundTrip(Text(s), placeholder);
    if s == "" {
      assert !ShowsValue(Text(s), placeholder);
    } else {
      assert Render(Text(s)) == s;
      assert ShowsValue(Text(s), placeholder);
    }
  }

  /** The placeholder a text box shows when it is empty. */
  function PlaceholderOf(c: string): string
  {
    if c == ReasonColumn then ReasonPlaceholder
    else if c == IssuesColumn then IssuesPlaceholder
    else ""
  }

  /** What a text box's content is saved as: the two family boxes are
      cleaned, the others are read raw. */
  function TextSaved(c: string, text: string): string
  {
    if c == ReasonColumn || c == IssuesColumn then CleanText(text, PlaceholderOf(c)) else text
  }

  // ---------------------------------------------------------- appointments

  /** add_new_appointment_row(data=a): the row's widgets, with the sentinels
      and "N/A" standing in for empty cells. */
  function ShownRow(a: AppointmentData): AppointmentData
  {
    AppointmentData(a.name,
      if a.lastSeen == "" then LastSeenSentinel else a.lastSeen,
      if a.nextDue == "" then NextDueSentinel else a.nextDue,
      if a.booked == "" then BookedDefault else a.booked)
  }

  /** One appointment as the payload carries it. */
  function CleanRow(a: AppointmentData): AppointmentData
  {
    AppointmentData(a.name, CleanDate(a.lastSeen, LastSeenSentinel), CleanDate(a.nextDue, NextDueSentinel), a.booked)
  }

  /** The payload's appointments: the rows with a name, in order, cleaned. */
  function SavedRows(rows: seq<AppointmentData>): (r: seq<AppointmentData>)
    ensures |r| <= |rows|
    ensures forall k :: 0 <= k < |r| ==> r[k].name != ""
  {
    if rows == [] then []
    else (if rows[0].name != "" then [CleanRow(rows[0])] else []) + SavedRows(rows[1..])
  }

  lemma {:induction false} SavedRowsConcat(a: seq<AppointmentData>, b: seq<AppointmentData>)
    ensures SavedRows(a + b) == SavedRows(a) + SavedRows(b)
  {
    if a == [] {
      assert a + b == b;
    } else {
      assert (a + b)[0] == a[0];
      assert (a + b)[1..] == a[1..] + b;
      SavedRowsConcat(a[1..], b);
    }
  }

  /** Rows with a name are all kept, in order. */
  lemma {:induction false} SavedRowsAllNamed(rows: seq<AppointmentData>)
    requires forall k :: 0 <= k < |rows| ==> rows[k].name != ""
    ensures |SavedRows(rows)| == |rows|
    ensures forall k :: 0 <= k < |rows| ==> SavedRows(rows)[k] == CleanRow(rows[k])
  {
    if rows != [] {
      SavedRowsAllNamed(rows[1..]);
    }
  }

  /** Rows without a name are all dropped. */
  lemma {:induction false} SavedRowsDropsNameless(rows: seq<AppointmentData>)
    requires forall k :: 0 <= k < |rows| ==> rows[k].name == ""
    ensures SavedRows(rows) == []
  {
    if rows != [] {
      SavedRowsDropsNameless(rows[1..]);
    }
  }

  /** The rows add_new_appointment_row builds for a stored list. */
  function ShownRows(list: seq<AppointmentData>): (r: seq<AppointmentData>)
    ensures |r| == |list| && forall k :: 0 <= k < |list| ==> r[k] == ShownRow(list[k])
  {
    seq(|list|, k requires 0 <= k < |list| => ShownRow(list[k]))
  }

  /** A stored appointment the editor gives back unchanged: it has a name,
      its dates are not the sentinels and its booked cell is not empty. */
  predicate SettledAppointment(a: AppointmentData)
  {
    a.name != "" && a.lastSeen != LastSeenSentinel && a.nextDue != NextDueSentinel && a.booked != ""
  }

  /** Loading a form's appointments and saving the form writes the same
      appointments back. */
  lemma AppointmentsRoundTrip(list: seq<AppointmentData>)
    requires forall k :: 0 <= k < |list| ==> SettledAppointment(list[k])
    ensures SavedRows(ShownRows(list)) == list
  {
    var shown := ShownRows(list);
    SavedRowsAllNamed(shown);
  }

  // ----------------------------------------------------------------- icons

  const FeelingLabels: seq<string> := ["Happy", "Sad", "Good", "Not Good"]
  const CareLabels: seq<string> := ["Art", "Food", "Medicine", "Shower", "Happy", "Sad"]

  predicate NoDuplicates(xs: seq<string>)
  {
    forall i, j :: 0 <= i < j < |xs| ==> xs[i] != xs[j]
  }

  /** list.remove(x): drops the first occurrence. */
  function RemoveFirst(xs: seq<string>, x: string): (r: seq<string>)
    requires x in xs
    ensures |r| == |xs| - 1
    ensures multiset(r) == multiset(xs) - multiset{x}
  {
    assert xs == [xs[0]] + xs[1..];
    if xs[0] == x then xs[1..] else [xs[0]] + RemoveFirst(xs[1..], x)
  }

  /** _select_*_icon: remove a selected icon, append an unselected one. */
  function Toggle(xs: seq<string>, icon: string): seq<string>
  {
    if icon in xs then RemoveFirst(xs, icon) else xs + [icon]
  }

  /** Removing a label from a list without duplicates leaves a list
      without duplicates that has every other label and not that one. */
  lemma {:induction false} RemoveFirstFacts(xs: seq<string>, x: string)
    requires x in xs && NoDuplicates(xs)
    ensures x !in RemoveFirst(xs, x)
    ensures forall y :: y != x ==> (y in RemoveFirst(xs, x) <==> y in xs)
    ensures NoDuplicates(RemoveFirst(xs, x))
  {
    var r := RemoveFirst(xs, x);
    assert xs == [xs[0]] + xs[1..];
    if xs[0] == x {
      assert forall j :: 0 < j < |xs| ==> xs[j] != xs[0];
    } else {
      var t := xs[1..];
      RemoveFirstFacts(t, x);
      assert r == [xs[0]] + RemoveFirst(t, x);
      assert xs[0] !in t by {
        assert forall j :: 0 < j < |xs| ==> xs[0] != xs[j];
      }
    }
  }

  /** Toggling flips the icon's membership and keeps every other icon's;
      a list without duplicates keeps having none. */
  lemma ToggleFacts(xs: seq<string>, icon: string)
    requires NoDuplicates(xs)
    ensures icon in Toggle(xs, icon) <==> icon !in xs
    ensures forall y :: y != icon ==> (y in Toggle(xs, icon) <==> y in xs)
    ensures NoDuplicates(Toggle(xs, icon))
  {
    if icon in xs {
      RemoveFirstFacts(xs, icon);
    } else {
      var r := xs + [icon];
      assert forall i :: 0 <= i < |xs| ==> r[i] == xs[i];
    }
  }

  /** Selecting and deselecting an unselected icon restores the list. */
  lemma ToggleTwiceAbsent(xs: seq<string>, icon: string)
    requires icon !in xs
    ensures Toggle(Toggle(xs, icon), icon) == xs
  {
    var r := xs + [icon];
    assert icon in r;
    RemoveLast(xs, icon);
  }

  lemma {:induction false} RemoveLast(xs: seq<string>, x: string)
    requires x !in xs
    ensures RemoveFirst(xs + [x], x) == xs
  {
    if xs != [] {
      assert (xs + [x])[0] == xs[0];
      assert (xs + [x])[1..] == xs[1..] + [x];
      RemoveLast(xs[1..], x);
    }
  }

  /** Deselecting and reselecting a selected icon keeps the same labels,
      with that icon moved to the end. */
  lemma ToggleTwicePresent(xs: seq<string>, icon: string)
    requires icon in xs && NoDuplicates(xs)
    ensures Toggle(Toggle(xs, icon), icon) == RemoveFirst(xs, icon) + [icon]
    ensures multiset(Toggle(Toggle(xs, icon), icon)) == multiset(xs)
  {
    ToggleFacts(xs, icon);
  }

  /** The icon labels contain no comma. */
  lemma FeelingLabelsHaveNoComma(icon: string)
    requires icon in FeelingLabels
    ensures ',' !in icon
  {
  }

  lemma CareLabelsHaveNoComma(icon: string)
    requires icon in CareLabels
    ensures ',' !in icon
  {
  }

  /** The comma-joined selection splits back into the labels, as the PDF
      reads it. */
  lemma IconsSplitBack(xs: seq<string>)
    requires xs != []
    requires forall k :: 0 <= k < |xs| ==> ',' !in xs[k]
    ensures Split(Join(",", xs), ',') == xs
  {
    assert "," == [','];
    SplitJoin(xs, ',');
  }

  // -------------------------------------------------------- calendar dates

  datatype CalendarDate = CalendarDate(year: int, month: int, day: int)

  predicate IsLeapYear(y: int)
  {
    y % 4 == 0 && (y % 100 != 0 || y % 400 == 0)
  }

  function DaysInMonth(y: int, m: int): (n: int)
    requires 1 <= m <= 12
    ensures 28 <= n <= 31
  {
    if m == 2 then (if IsLeapYear(y) then 29 else 28)
    else if m == 4 || m == 6 || m == 9 || m == 11 then 30
    else 31
  }

  /** A date datetime accepts. */
  predicate ValidDate(d: CalendarDate)
  {
    1 <= d.year <= 9999 && 1 <= d.month <= 12 && 1 <= d.day <= DaysInMonth(d.year, d.month)
  }

  /** What strptime's "%d" accepts as a whole field: "1".."9", "01".."09",
      "10".."29", "30", "31" and " 1".." 9". */
  function ParseDay(s: string): (r: Option<nat>)
    ensures r.Some? ==> 1 <= r.value <= 31
  {
    if |s| == 1 && '1' <= s[0] <= '9' then Some((s[0] as int) - ('0' as int))
    else if |s| != 2 then None
    else if s[0] == '3' && (s[1] == '0' || s[1] == '1') then Some(30 + (s[1] as int) - ('0' as int))
    else if (s[0] == '1' || s[0] == '2') && IsDigit(s[1]) then Some(10 * ((s[0] as int) - ('0' as int)) + (s[1] as int) - ('0' as int))
    else if (s[0] == '0' || s[0] == ' ') && '1' <= s[1] <= '9' then Some((s[1] as int) - ('0' as int))
    else None
  }

  /** datetime.strptime(s, "%Y-%m-%d"): four digits, "-", a month of one
      or two digits, "-", a day, nothing after it, and a date that exists. */
  function ParseIsoDate(s: string): (r: Option<CalendarDate>)
    ensures r.Some? ==> ValidDate(r.value)
  {
    if |s| < 7 || !AllDigits(s[..4]) || s[4] != '-' then None
    else if s[6] == '-' then DateOfFields(s[..4], s[5..6], s[7..])
    else if |s| >= 8 && s[7] == '-' then DateOfFields(s[..4], s[5..7], s[8..])
    else None
  }

  /** The date the year, month and day fields denote, if it exists. */
  function DateOfFields(ys: string, ms: string, ds: string): (r: Option<CalendarDate>)
    requires AllDigits(ys) && |ys| == 4
    ensures r.Some? ==> ValidDate(r.value)
  {
    var y := DigitsValue(ys);
    match (ParseMonthNumber(ms), ParseDay(ds))
    case (Some(m), Some(d)) =>
      if 1 <= y <= 9999 && d <= DaysInMonth(y, m) then Some(CalendarDate(y, m, d)) else None
    case _ => None
  }

  /** The session date as the form saves it: "<year>-<MM>-<day>". */
  function DbDate(day: string, monthAbbrev: string, year: string): string
    requires monthAbbrev in MonthAbbrevs
  {
    MonthOfAbbrevInverse(monthAbbrev, 1);
    year + "-" + Pad2(MonthOfAbbrev(monthAbbrev).value) + "-" + day
  }

  /** The session date as the PDF shows it: "<day>/<MM>/<year>". */
  function PdfDate(day: string, monthAbbrev: string, year: string): string
    requires monthAbbrev in MonthAbbrevs
  {
    MonthOfAbbrevInverse(monthAbbrev, 1);
    day + "/" + Pad2(MonthOfAbbrev(monthAbbrev).value) + "/" + year
  }

  /** The three session menus. */
  datatype SessionMenus = SessionMenus(day: string, month: string, year: string)

  /** The menus set from a parsed date: "%d", "%b" and str(year). */
  function MenusOf(d: CalendarDate): (m: SessionMenus)
    requires ValidDate(d)
    ensures m.month in MonthAbbrevs
  {
    SessionMenus(Pad2(d.day), MonthAbbrevs[d.month - 1], NatToString(d.year))
  }

  /** The menus after loading a stored session date: set from it when it is
      a non-empty text that parses, otherwise left as they were. */
  function RestoredMenus(v: Value, before: SessionMenus): SessionMenus
  {
    if v.Text? && v.s != "" then
      match ParseIsoDate(v.s)
      case Some(d) => MenusOf(d)
      case None => before
    else before
  }

  lemma {:induction false} NatToStringLength(n: nat)
    requires 1000 <= n <= 9999
    ensures |NatToString(n)| == 4
  {
    assert NatToString(n) == NatToString(n / 10) + [DigitChar(n % 10)];
    assert NatToString(n / 10) == NatToString(n / 100) + [DigitChar(n / 10 % 10)];
    assert NatToString(n / 100) == NatToString(n / 1000) + [DigitChar(n / 100 % 10)];
  }

  lemma ParseDayPad2(d: nat)
    requires 1 <= d <= 31
    ensures ParseDay(Pad2(d)) == Some(d)
  {
  }

  /** The saved session date splits into its three fields. */
  lemma ParseSavedDate(ys: string, ms: string, ds: string)
    requires |ys| == 4 && AllDigits(ys) && |ms| == 2 && |ds| == 2
    ensures ParseIsoDate(ys + "-" + ms + "-" + ds) == DateOfFields(ys, ms, ds)
  {
    var s := ys + "-" + ms + "-" + ds;
    assert s[..4] == ys;
    assert s[4] == '-' && s[6] == ms[1] && s[7] == '-';
    assert s[5..7] == ms;
    assert s[8..] == ds;
  }

  /** What the menus show for a date: "%d", "%b" and the four-digit year. */
  lemma SavedDateOfMenus(d: CalendarDate)
    requires ValidDate(d) && d.year >= 1000
    ensures DbDate(Pad2(d.day), MonthAbbrevs[d.month - 1], NatToString(d.year))
      == NatToString(d.year) + "-" + Pad2(d.month) + "-" + Pad2(d.day)
  {
    MonthOfAbbrevInverse(MonthAbbrevs[d.month - 1], d.month);
  }

  /** A date picked in the menus and saved reads back as that date when it
      exists, with four-digit years as the menus offer, and sets the menus
      to what they showed. */
  lemma SessionDateRoundTrip(d: CalendarDate)
    requires ValidDate(d) && d.year >= 1000
    ensures ParseIsoDate(DbDate(Pad2(d.day), MonthAbbrevs[d.month - 1], NatToString(d.year))) == Some(d)
    ensures MenusOf(d) == SessionMenus(Pad2(d.day), MonthAbbrevs[d.month - 1], NatToString(d.year))
  {
    NatToStringLength(d.year);
    NatToStringRoundTrip(d.year);
    SavedDateOfMenus(d);
    ParseSavedDate(NatToString(d.year), Pad2(d.month), Pad2(d.day));
    ParseMonthNumberPad2(d.month);
    ParseDayPad2(d.day);
  }

  /** A day the month does not have (the menus offer 01..31 for every
      month) is saved but not read back: the menus keep what they showed. */
  lemma ImpossibleDayNotRestored(y: int, m: int, day: nat, before: SessionMenus)
    requires 1000 <= y <= 9999 && 1 <= m <= 12 && DaysInMonth(y, m) < day <= 31
    ensures RestoredMenus(Text(DbDate(Pad2(day), MonthAbbrevs[m - 1], NatToString(y))), before) == before
  {
    NatToStringLength(y);
    NatToStringRoundTrip(y);
    MonthOfAbbrevInverse(MonthAbbrevs[m - 1], m);
    ParseSavedDate(NatToString(y), Pad2(m), Pad2(day));
    ParseMonthNumberPad2(m);
    ParseDayPad2(day);
  }

  // ------------------------------------------------------ month keys

  /** The key a month's form is stored under: "<MonthName> <Year>". */
  function FormKey(monthName: string, year: int): string
  {
    monthName + " " + IntToString(year)
  }

  /** Months counted from year 0, so consecutive months differ by one. */
  function MonthOrdinal(year: int, month: int): int
  {
    12 * year + month - 1
  }

  /** _load_previous_month_data's key: parse "01-<month>-<year>" with
      "%d-%B-%Y", step back one day from the first of the month, and render
      "%B" and the year. None when the month or the year does not parse, and
      for January of year 1, whose previous day datetime cannot represent. */
  function PreviousMonthKey(month: string, year: string): (r: Option<string>)
  {
    match MonthOfName(month)
    case None => None
    case Some(m) =>
      if |year| != 4 || !AllDigits(year) || DigitsValue(year) == 0 then None
      else
        var y := DigitsValue(year);
        if m == 1 then
          if y == 1 then None else Some(FormKey(MonthNames[11], y - 1))
        else Some(FormKey(MonthNames[m - 2], y))
  }

  /** January's previous month is December of the year before. */
  lemma PreviousOfJanuary(y: int)
    requires 1000 <= y <= 9999
    ensures PreviousMonthKey("January", IntToString(y)) == Some(FormKey("December", y - 1))
    ensures MonthOrdinal(y - 1, 12) + 1 == MonthOrdinal(y, 1)
  {
    NatToStringLength(y);
    NatToStringRoundTrip(y);
  }

  /** Any other month's previous month is the month before, same year. */
  lemma PreviousOfLaterMonth(m: int, y: int)
    requires 2 <= m <= 12 && 1000 <= y <= 9999
    ensures PreviousMonthKey(MonthNames[m - 1], IntToString(y)) == Some(FormKey(MonthNames[m - 2], y))
    ensures MonthOrdinal(y, m - 1) + 1 == MonthOrdinal(y, m)
  {
    NatToStringLength(y);
    NatToStringRoundTrip(y);
    MonthOfNameInverse(MonthNames[m - 1], m);
  }

  /** A month that is not a full month name gives no key. */
  lemma PreviousMonthKeyRejects(month: string, year: string)
    requires month !in MonthNames
    ensures PreviousMonthKey(month, year).None?
  {
    MonthOfNameInverse(month, 1);
  }

  // ------------------------------------------------------- the widget state

  /** The keys of a widget map are exactly the columns of its group. */
  ghost predicate ExactlyColumns(keys: set<string>, cols: seq<string>)
  {
    forall c :: c in keys <==> c in cols
  }

  /** The widgets of each group, one per column of the group. */
  type EntryWidgets = m: map<string, string> | ExactlyColumns(m.Keys, EntryColumns) witness map c | c in EntryColumns :: ""
  type SwitchWidgets = m: map<string, bool> | ExactlyColumns(m.Keys, SwitchColumns) witness map c | c in SwitchColumns :: false
  type DateWidgets = m: map<string, string> | ExactlyColumns(m.Keys, DateColumns) witness map c | c in DateColumns :: DateSentinel
  type TextWidgets = m: map<string, string> | ExactlyColumns(m.Keys, TextColumns) witness map c | c in TextColumns :: PlaceholderOf(c)

  /** The widgets after _clear_form: empty entries, switches off, the date
      sentinel, and the placeholders in the two family boxes. */
  function ClearedEntries(): EntryWidgets
  {
    map c | c in EntryColumns :: ""
  }

  function ClearedSwitches(): SwitchWidgets
  {
    map c | c in SwitchColumns :: false
  }

  function ClearedDates(): DateWidgets
  {
    map c | c in DateColumns :: DateSentinel
  }

  function ClearedTexts(): TextWidgets
  {
    map c | c in TextColumns :: PlaceholderOf(c)
  }

  /** The widgets after _load_form_data(data, carry_over). */
  function LoadedEntries(data: FormRow): EntryWidgets
  {
    map c | c in EntryColumns :: EntryShown(Get(data, c))
  }

  function LoadedSwitches(data: FormRow): SwitchWidgets
  {
    map c | c in SwitchColumns :: SwitchShown(Get(data, c))
  }

  function LoadedDates(data: FormRow): DateWidgets
  {
    map c | c in DateColumns :: DateShown(Get(data, c), DateSentinel)
  }

  /** What the last-goal box receives on a carry-over: str() of the stored
      goal. Tkinter ends a command's arguments at None, so a NULL goal makes
      the insert fail and the load stops there, before other_notes. */
  function CarriedGoal(v: Value): string
  {
    if v.Null? then "" else Render(v)
  }

  function LoadedText(data: FormRow, c: string, carryOver: bool): string
  {
    if !carryOver then TextShown(Get(data, c), PlaceholderOf(c))
    else if c == CurrentGoalColumn || c == FeelingColumn || c == HappyColumn then ""
    else if c == LastGoalColumn then CarriedGoal(Get(data, CurrentGoalColumn))
    else if c == OtherNotesColumn && Get(data, CurrentGoalColumn).Null? then ""
    else TextShown(Get(data, c), PlaceholderOf(c))
  }

  function LoadedTexts(data: FormRow, carryOver: bool): TextWidgets
  {
    map c | c in TextColumns :: LoadedText(data, c, carryOver)
  }

  /** The cells _get_form_data_as_dict reads from the widgets. */
  function EntryCells(entries: map<string, string>): map<string, Value>
    requires ExactlyColumns(entries.Keys, EntryColumns)
  {
    map c | c in EntryColumns :: Text(entries[c])
  }

  function SwitchCells(switches: map<string, bool>): map<string, Value>
    requires ExactlyColumns(switches.Keys, SwitchColumns)
  {
    map c | c in SwitchColumns :: Text(SwitchSaved(switches[c]))
  }

  function DateCells(dates: map<string, string>): map<string, Value>
    requires ExactlyColumns(dates.Keys, DateColumns)
  {
    map c | c in DateColumns :: Text(CleanDate(dates[c], DateSentinel))
  }

  function TextCells(texts: map<string, string>): map<string, Value>
    requires ExactlyColumns(texts.Keys, TextColumns)
  {
    map c | c in TextColumns :: Text(TextSaved(c, texts[c]))
  }

  function WidgetCells(entries: map<string, string>, switches: map<string, bool>,
                       dates: map<string, string>, texts: map<string, string>): map<string, Value>
    requires ExactlyColumns(entries.Keys, EntryColumns) && ExactlyColumns(switches.Keys, SwitchColumns)
    requires ExactlyColumns(dates.Keys, DateColumns) && ExactlyColumns(texts.Keys, TextColumns)
  {
    EntryCells(entries) + SwitchCells(switches) + DateCells(dates) + TextCells(texts)
  }

  lemma EntryNotOther(c: string)
    requires c in EntryColumns
    ensures c !in SwitchColumns && c !in DateColumns && c !in TextColumns
  {
    EntryNotSwitch(c);
    EntryNotLater(c);
  }

  lemma EntryNotSwitch(c: string)
    requires c in EntryColumns
    ensures c !in SwitchColumns
  {
    var i :| 0 <= i < |EntryColumns| && EntryColumns[i] == c;
    if i < 8 {
      EntryHeadNotSwitch(i);
    } else {
      EntryTailNotSwitch(i);
    }
  }

  lemma EntryHeadNotSwitch(i: int)
    requires 0 <= i < 8
    ensures EntryColumns[i] !in SwitchColumns
  {
  }

  lemma EntryTailNotSwitch(i: int)
    requires 8 <= i < |EntryColumns|
    ensures EntryColumns[i] !in SwitchColumns
  {
  }

  lemma EntryNotLater(c: string)
    requires c in EntryColumns
    ensures c !in DateColumns && c !in TextColumns
  {
  }

  lemma SwitchNotLater(c: string)
    requires c in SwitchColumns
    ensures c !in DateColumns && c !in TextColumns
  {
  }

  lemma DateNotText(c: string)
    requires c in DateColumns
    ensures c !in TextColumns
  {
  }

  /** Each widget column's cell comes from its own widget. */
  lemma WidgetCellsAt(entries: map<string, string>, switches: map<string, bool>,
                      dates: map<string, string>, texts: map<string, string>, c: string)
    requires ExactlyColumns(entries.Keys, EntryColumns) && ExactlyColumns(switches.Keys, SwitchColumns)
    requires ExactlyColumns(dates.Keys, DateColumns) && ExactlyColumns(texts.Keys, TextColumns)
    ensures var w := WidgetCells(entries, switches, dates, texts);
      && (c in w <==> c in EntryColumns || c in SwitchColumns || c in DateColumns || c in TextColumns)
      && (c in EntryColumns ==> w[c] == Text(entries[c]))
      && (c in SwitchColumns ==> w[c] == Text(SwitchSaved(switches[c])))
      && (c in DateColumns ==> w[c] == Text(CleanDate(dates[c], DateSentinel)))
      && (c in TextColumns ==> w[c] == Text(TextSaved(c, texts[c])))
  {
    if c in EntryColumns {
      EntryNotOther(c);
    } else if c in SwitchColumns {
      SwitchNotLater(c);
    } else if c in DateColumns {
      DateNotText(c);
    }
  }

  /** A widget state that one save and one load give back unchanged: every
      date was picked, the family boxes hold the placeholder or trimmed
      text, and no other box holds only whitespace. */
  predicate Settled(dates: map<string, string>, texts: map<string, string>)
  {
    && (forall c :: c in dates ==> dates[c] != "")
    && (forall c :: c in texts && (c == ReasonColumn || c == IssuesColumn) ==>
          texts[c] == PlaceholderOf(c) || (texts[c] != "" && Strip(texts[c]) == texts[c]))
    && (forall c :: c in texts && c != ReasonColumn && c != IssuesColumn ==>
          texts[c] == "" || Strip(texts[c]) != "")
  }

  /** A stored row that one load and one save write back unchanged on
      every widget column. */
  predicate Canonical(data: FormRow)
  {
    && (forall c :: c in EntryColumns ==> Get(data, c).Text?)
    && (forall c :: c in SwitchColumns ==> Get(data, c) == Text("Yes") || Get(data, c) == Text("No"))
    && (forall c :: c in DateColumns ==> Get(data, c).Text? && Get(data, c) != Text(DateSentinel))
    && (forall c :: c in TextColumns ==> Get(data, c).Text?)
    && (forall c :: c in TextColumns && (c == ReasonColumn || c == IssuesColumn) ==>
          Strip(Get(data, c).s) == Get(data, c).s && Get(data, c).s != PlaceholderOf(c))
    && (forall c :: c in TextColumns && c != ReasonColumn && c != IssuesColumn ==>
          Get(data, c).s == "" || Strip(Get(data, c).s) != "")
  }

  /** Saving the widgets and loading the saved cells back shows the same
      widgets, when the widgets are settled. */
  lemma SaveThenLoad(entries: map<string, string>, switches: map<string, bool>,
                     dates: map<string, string>, texts: map<string, string>)
    requires ExactlyColumns(entries.Keys, EntryColumns) && ExactlyColumns(switches.Keys, SwitchColumns)
    requires ExactlyColumns(dates.Keys, DateColumns) && ExactlyColumns(texts.Keys, TextColumns)
    requires Settled(dates, texts)
    ensures var w := WidgetCells(entries, switches, dates, texts);
      && LoadedEntries(w) == entries && LoadedSwitches(w) == switches
      && LoadedDates(w) == dates && LoadedTexts(w, false) == texts
  {
    EntriesSaveThenLoad(entries, switches, dates, texts);
    SwitchesSaveThenLoad(entries, switches, dates, texts);
    DatesSaveThenLoad(entries, switches, dates, texts);
    TextsSaveThenLoad(entries, switches, dates, texts);
  }

  lemma EntriesSaveThenLoad(entries: map<string, string>, switches: map<string, bool>,
                            dates: map<string, string>, texts: map<string, string>)
    requires ExactlyColumns(entries.Keys, EntryColumns) && ExactlyColumns(switches.Keys, SwitchColumns)
    requires ExactlyColumns(dates.Keys, DateColumns) && ExactlyColumns(texts.Keys, TextColumns)
    ensures LoadedEntries(WidgetCells(entries, switches, dates, texts)) == entries
  {
    var w := WidgetCells(entries, switches, dates, texts);
    forall c | c in EntryColumns ensures LoadedEntries(w)[c] == entries[c] {
      WidgetCellsAt(entries, switches, dates, texts, c);
    }
  }

  lemma SwitchesSaveThenLoad(entries: map<string, string>, switches: map<string, bool>,
                             dates: map<string, string>, texts: map<string, string>)
    requires ExactlyColumns(entries.Keys, EntryColumns) && ExactlyColumns(switches.Keys, SwitchColumns)
    requires ExactlyColumns(dates.Keys, DateColumns) && ExactlyColumns(texts.Keys, TextColumns)
    ensures LoadedSwitches(WidgetCells(entries, switches, dates, texts)) == switches
  {
    var w := WidgetCells(entries, switches, dates, texts);
    forall c | c in SwitchColumns ensures LoadedSwitches(w)[c] == switches[c] {
      WidgetCellsAt(entries, switches, dates, texts, c);
    }
  }

  lemma DatesSaveThenLoad(entries: map<string, string>, switches: map<string, bool>,
                          dates: map<string, string>, texts: map<string, string>)
    requires ExactlyColumns(entries.Keys, EntryColumns) && ExactlyColumns(switches.Keys, SwitchColumns)
    requires ExactlyColumns(dates.Keys, DateColumns) && ExactlyColumns(texts.Keys, TextColumns)
    requires forall c :: c in dates ==> dates[c] != ""
    ensures LoadedDates(WidgetCells(entries, switches, dates, texts)) == dates
  {
    var w := WidgetCells(entries, switches, dates, texts);
    forall c | c in DateColumns ensures LoadedDates(w)[c] == dates[c] {
      WidgetCellsAt(entries, switches, dates, texts, c);
      DateRoundTrip(dates[c], DateSentinel);
    }
  }

  lemma TextsSaveThenLoad(entries: map<string, string>, switches: map<string, bool>,
                          dates: map<string, string>, texts: map<string, string>)
    requires ExactlyColumns(entries.Keys, EntryColumns) && ExactlyColumns(switches.Keys, SwitchColumns)
    requires ExactlyColumns(dates.Keys, DateColumns) && ExactlyColumns(texts.Keys, TextColumns)
    requires Settled(dates, texts)
    ensures LoadedTexts(WidgetCells(entries, switches, dates, texts), false) == texts
  {
    var w := WidgetCells(entries, switches, dates, texts);
    forall c | c in TextColumns ensures LoadedTexts(w, false)[c] == texts[c] {
      WidgetCellsAt(entries, switches, dates, texts, c);
      TextSaveThenLoad(c, texts[c]);
    }
  }

  /** One text box through a save and a load. */
  lemma TextSaveThenLoad(c: string, t: string)
    requires (c == ReasonColumn || c == IssuesColumn) ==> t == PlaceholderOf(c) || (t != "" && Strip(t) == t)
    requires (c != ReasonColumn && c != IssuesColumn) ==> t == "" || Strip(t) != ""
    ensures TextShown(Text(TextSaved(c, t)), PlaceholderOf(c)) == t
  {
    if c == ReasonColumn || c == IssuesColumn {
      PlaceholderTrimmed(PlaceholderOf(c));
      PlaceholderSaveThenLoad(PlaceholderOf(c), t);
    } else {
      RawSaveThenLoad(t);
    }
  }

  /** A family box holding its placeholder, or trimmed text, survives a
      save and a load; this holds for any placeholder that strips to
      itself. */
  lemma PlaceholderSaveThenLoad(p: string, t: string)
    requires Strip(p) == p
    requires t == p || (t != "" && Strip(t) == t)
    ensures TextShown(Text(CleanText(t, p)), p) == t
  {
    if t == p {
      assert CleanText(t, p) == "";
    } else {
      assert CleanText(t, p) == t;
      var v := Text(t);
      assert Truthy(v) && Render(v) == t;
    }
  }

  lemma RawSaveThenLoad(t: string)
    requires t == "" || Strip(t) != ""
    ensures TextShown(Text(t), "") == t
  {
  }

  /** Loading a canonical row and saving the form writes every widget
      column back as it was stored. */
  lemma LoadThenSave(data: FormRow)
    requires Canonical(data)
    ensures var w := WidgetCells(LoadedEntries(data), LoadedSwitches(data), LoadedDates(data), LoadedTexts(data, false));
      forall c :: c in w ==> w[c] == Get(data, c)
  {
    var e, s, d, t := LoadedEntries(data), LoadedSwitches(data), LoadedDates(data), LoadedTexts(data, false);
    var w := WidgetCells(e, s, d, t);
    forall c | c in w ensures w[c] == Get(data, c) {
      WidgetCellsAt(e, s, d, t, c);
      LoadThenSaveAt(data, c);
    }
  }

  /** One widget column of a canonical row through a load and a save. */
  lemma LoadThenSaveAt(data: FormRow, c: string)
    requires Canonical(data)
    ensures c in EntryColumns ==> Text(EntryShown(Get(data, c))) == Get(data, c)
    ensures c in SwitchColumns ==> Text(SwitchSaved(SwitchShown(Get(data, c)))) == Get(data, c)
    ensures c in DateColumns ==> Text(CleanDate(DateShown(Get(data, c), DateSentinel), DateSentinel)) == Get(data, c)
    ensures c in TextColumns ==> Text(TextSaved(c, LoadedText(data, c, false))) == Get(data, c)
  {
    if c in TextColumns {
      TextLoadThenSave(c, Get(data, c).s);
    }
  }

  /** One stored text through a load and a save. */
  lemma TextLoadThenSave(c: string, s: string)
    requires (c == ReasonColumn || c == IssuesColumn) ==> Strip(s) == s && s != PlaceholderOf(c)
    requires (c != ReasonColumn && c != IssuesColumn) ==> s == "" || Strip(s) != ""
    ensures TextSaved(c, TextShown(Text(s), PlaceholderOf(c))) == s
  {
    if c == ReasonColumn || c == IssuesColumn {
      var p := PlaceholderOf(c);
      assert p == ReasonPlaceholder || p == IssuesPlaceholder;
      TrimmedTextRoundTrip(s, p);
      assert TextSaved(c, TextShown(Text(s), p)) == CleanText(TextShown(Text(s), p), p);
    } else {
      assert PlaceholderOf(c) == "";
    }
  }

  /** What a settled form saves is canonical, so saving, reopening and
      saving again writes the same widget cells. */
  lemma SavedIsCanonical(entries: map<string, string>, switches: map<string, bool>,
                         dates: map<string, string>, texts: map<string, string>)
    requires ExactlyColumns(entries.Keys, EntryColumns) && ExactlyColumns(switches.Keys, SwitchColumns)
    requires ExactlyColumns(dates.Keys, DateColumns) && ExactlyColumns(texts.Keys, TextColumns)
    requires Settled(dates, texts)
    ensures Canonical(WidgetCells(entries, switches, dates, texts))
  {
    var w := WidgetCells(entries, switches, dates, texts);
    forall c | c in EntryColumns ensures Get(w, c).Text? {
      WidgetCellsAt(entries, switches, dates, texts, c);
    }
    forall c | c in SwitchColumns ensures Get(w, c) == Text("Yes") || Get(w, c) == Text("No") {
      WidgetCellsAt(entries, switches, dates, texts, c);
    }
    forall c | c in DateColumns ensures Get(w, c).Text? && Get(w, c) != Text(DateSentinel) {
      WidgetCellsAt(entries, switches, dates, texts, c);
    }
    forall c | c in TextColumns ensures Get(w, c) == Text(TextSaved(c, texts[c])) {
      WidgetCellsAt(entries, switches, dates, texts, c);
    }
    forall c | c in TextColumns && (c == ReasonColumn || c == IssuesColumn)
      ensures Strip(TextSaved(c, texts[c])) == TextSaved(c, texts[c]) && TextSaved(c, texts[c]) != PlaceholderOf(c)
    {
      CleanTextTrimmed(texts[c], PlaceholderOf(c));
    }
  }

  /** get_clean_text's result has no surrounding whitespace and is not the
      placeholder. */
  lemma CleanTextTrimmed(text: string, p: string)
    requires p == ReasonPlaceholder || p == IssuesPlaceholder
    ensures Strip(CleanText(text, p)) == CleanText(text, p) && CleanText(text, p) != p
  {
    var v := CleanText(text, p);
    if v != "" {
      StripTrimmed(v);
    }
  }

  /** The carry-over projection: the previous month's goal goes into the
      last-goal box, the current goal and both feeling boxes stay empty,
      and the other boxes load as usual. */
  lemma CarryOverProjection(data: FormRow)
    requires Get(data, CurrentGoalColumn).Text?
    ensures var t := LoadedTexts(data, true);
      && t[LastGoalColumn] == Get(data, CurrentGoalColumn).s
      && t[CurrentGoalColumn] == "" && t[FeelingColumn] == "" && t[HappyColumn] == ""
      && (forall c :: (c in TextColumns && c != LastGoalColumn && c != CurrentGoalColumn
            && c != FeelingColumn && c != HappyColumn) ==> t[c] == LoadedTexts(data, false)[c])
  {
    assert LastGoalColumn in TextColumns && CurrentGoalColumn in TextColumns;
    assert FeelingColumn in TextColumns && HappyColumn in TextColumns;
  }
}
