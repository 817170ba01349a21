# Key Worker App: a verified model of its record store and windows

The Key Worker App keeps monthly key-worker forms for the residents
("service users") of a care home in one SQLite file. This project models,
in Dafny, the part of the application that decides what ends up in that
file and who may put it there:

- the five tables (`users`, `service_users`, `forms`, `appointments`,
  `activity_log`) and every operation `database_utils.py` performs on them:
  - the upsert of a form keyed on resident and `"<Month> <Year>"`;
  - replace-not-merge saving of a form's appointments;
  - adding, updating and deleting residents;
  - verifying, adding, resetting and deleting app users, with the
    `first_login` flag;
  - the append-only activity log;
- `initialize_db` in `database.py`: idempotent table creation, guarded
  column additions and the one-time supervisor seed;
- the form editor of `form_window.py`:
  - clearing and loading the widgets, including the carry-over projection
    from the previous month;
  - switch, date-sentinel and placeholder encoding;
  - icon toggling;
  - the dictionary it saves, and `save_form`;
- the main window of `main.py`: the login gate with the forced password
  change, the supervisor-only actions, the resident dropdown, the
  future-month rule and the form key;
- the four dialogs: login, forced password change, app-user management
  (username derivation, self-protection) and resident management (date of
  birth format, edit mode, password-confirmed delete).

## How it is built

- **Database and windows are classes.** Each table is a field of `Store.Database`
  (`map<int, Row>` keyed by rowid for `users`, `service_users` and `forms`;
  `seq` in rowid order for `appointments` and `activity_log`). Each window is a
  class whose fields are its widgets' contents.
- **Each store method is specified by a function of the old table.** For example,
  `forms == Upsert(old(forms), payload)`. The promises the source makes are lemmas
  about those functions: idempotence, read-after-write, uniqueness kept, "nothing
  else changes". `Database.Valid()` holds the UNIQUE constraints and positive
  rowids, and every method preserves it.
- **Window methods are specified in terms of the store functions.** They say what
  the widgets show afterwards and which store call was made.
- **Environment inputs are parameters.** These are:
  - the clock (`now`/`today` dates);
  - the confirmation boxes (`confirm: bool`);
  - the password prompts (`""` is a cancelled prompt);
  - storage errors other than constraint violations (`storageFails`);
  - the outcome of the nested login and password windows.
- **`hash_password` is an uninterpreted function.** It is the `Database.hash`
  field, the one function `database.py` and `database_utils.py` both compute.
- **A new rowid is one more than the largest, or 1.** This is what SQLite does
  for an `INTEGER PRIMARY KEY` without AUTOINCREMENT, as long as the largest
  rowid is below 2^63 - 1; at that limit SQLite picks an unused rowid at
  random, which the model does not (see "## Left out").
- **Timestamps are positions in the log.** The log's `CURRENT_TIMESTAMP` is
  modelled as a counter that grows with each entry.

## Model

| member | source | states |
|---|---|---|
| ActivityLog.NewestFirst | KeyWorkerApp/database_utils.py:17-27 | the log listing is the log reversed: entry i of the result is entry n-1-i of the log |
| ActivityLog.AppendFacts | KeyWorkerApp/database_utils.py:7-15 | log_activity adds exactly one entry at the end, stamped later than every earlier one, and changes no earlier entry |
| ActivityLog.NewestFirstDescending | KeyWorkerApp/database_utils.py:21 | get_activity_log lists entries with strictly decreasing timestamps |
| ActivityLog.NewestFirstAfterAppend | KeyWorkerApp/database_utils.py:21 | the entry just logged is the first one get_activity_log returns, followed by the previous listing |
| Common.NatToString | KeyWorkerApp/user_management_window.py:180 | str() of a natural number is a non-empty digit string without a leading zero |
| Common.NatToStringRoundTrip | KeyWorkerApp/main.py:153 | int(str(n)) == n, so the year the dropdown shows reads back as the year |
| Common.Pad2 | KeyWorkerApp/user_management_window.py:99 | "%02d"/"%m" rendering is two digits |
| Common.Pad2RoundTrip | KeyWorkerApp/user_management_window.py:99 | the two-digit rendering reads back as the number |
| Common.Strip | KeyWorkerApp/app_user_management_window.py:72-73 | str.strip(): no whitespace at either end of the result, which is empty exactly when the input is all whitespace |
| Common.StripIsSlice | KeyWorkerApp/app_user_management_window.py:72-73 | the input is whitespace, then str.strip()'s result, then whitespace; with Strip's own contract (no whitespace at either end of the result) this determines the result |
| Common.StripTrimmed | KeyWorkerApp/form_window.py:752 | a text with no surrounding whitespace strips to itself |
| Common.Lower | KeyWorkerApp/app_user_management_window.py:72-73 | str.lower() keeps the length and lowers each character |
| Common.Split | KeyWorkerApp/user_management_window.py:153 | str.split(sep) returns at least one piece and no piece holds the separator |
| Common.SplitJoin | KeyWorkerApp/pdf_generator.py:235-236 | joining separator-free pieces and splitting again gives the pieces back |
| Common.NoYearInDigits | KeyWorkerApp/user_management_window.py:104 | a text of digits and '-' never contains "Year" |
| Common.LexLessIrreflexive | KeyWorkerApp/database_utils.py:119 | no name sorts strictly before itself |
| Common.LexLessTotal | KeyWorkerApp/database_utils.py:119 | ORDER BY name orders any two distinct names one way or the other |
| Common.LexLessTransitive | KeyWorkerApp/database_utils.py:119 | ORDER BY's text order is transitive |
| Common.MonthOfName | KeyWorkerApp/main.py:159 | the month number of a full month name lies in 1..12 |
| Common.MonthOfNameInverse | KeyWorkerApp/main.py:83 | a name's number is m exactly when it is the m-th entry of the month list, and names outside the list have none |
| Common.MonthOfAbbrev | KeyWorkerApp/user_management_window.py:99 | strptime("%b") gives a month number in 1..12 |
| Common.MonthOfAbbrevInverse | KeyWorkerApp/user_management_window.py:41 | an abbreviation's number is m exactly when it is the m-th abbreviation of the months list |
| Common.ParseMonthNumber | KeyWorkerApp/user_management_window.py:154 | strptime("%m") accepts only months 1..12 |
| Common.ParseMonthNumberPad2 | KeyWorkerApp/user_management_window.py:154 | strftime("%m") reads back through strptime("%m") |
| Tables.MaxOf | KeyWorkerApp/database_utils.py:215 | the largest rowid is a rowid of the table and no rowid exceeds it |
| Tables.NextRowIdFresh | KeyWorkerApp/database.py:26 | the rowid of a new row is positive, is not in use, and exceeds every rowid in use |
| Tables.NewRowId | KeyWorkerApp/database_utils.py:215 | the scan computes the next rowid, larger than every rowid in use |
| Tables.LeastByName | KeyWorkerApp/database_utils.py:119 | the chosen row's name comes before every other remaining row's name |
| Tables.SortByName | KeyWorkerApp/database_utils.py:119 | ORDER BY name lists every row of the table exactly once, in strictly ascending order of name |
| Credentials.FindUser | KeyWorkerApp/database_utils.py:35-36 | the SELECT by username finds a row with that username, and finds none exactly when no user has it |
| Credentials.FindUserUnique | KeyWorkerApp/database.py:27 | with UNIQUE(username), the row found for a user's name is that user's row |
| Credentials.VerifyUserIff | KeyWorkerApp/database_utils.py:32-40 | verify_user succeeds iff a user of that name exists whose stored hash is the hash of the password; the session is that user's id, name, role and first_login |
| Credentials.AddUserFacts | KeyWorkerApp/database_utils.py:50-61 | a user added under a free name keeps usernames unique, gets a fresh rowid and first_login 1, can log in with the given password, and no other row changes |
| Credentials.SetPasswordFacts | KeyWorkerApp/database_utils.py:70-96 | a password update keeps usernames unique and changes only that user's hash and flag |
| Credentials.SetPasswordThenVerify | KeyWorkerApp/database_utils.py:76 | after a reset (flag 1) or own change (flag 0) the user logs in with the new password and the session carries that flag |
| Credentials.DeleteUserThenVerify | KeyWorkerApp/database_utils.py:63-68 | a deleted user can no longer log in, and usernames stay unique |
| Residents.AddResidentFacts | KeyWorkerApp/database_utils.py:104-114 | a resident added under a free name gets a fresh positive rowid, names stay unique and every old row is kept |
| Residents.UpdateResidentFacts | KeyWorkerApp/database_utils.py:130-140 | an update keeps names unique and changes only row `id`; an unknown id changes nothing |
| Residents.UpdateSameNameAllowed | KeyWorkerApp/database_utils.py:134 | keeping a resident's own name never violates UNIQUE(name) |
| Residents.FormsWithoutResidentFacts | KeyWorkerApp/database_utils.py:149 | deleting a resident's forms removes exactly the forms with that service_user_id and keeps the forms table's invariants |
| Residents.DeletedResidentHasNoForms | KeyWorkerApp/database_utils.py:149 | after the delete, no month of that resident has a form |
| FormStore.OutsideGroupsNotAColumn | KeyWorkerApp/database_utils.py:182-194 | a key outside every column group is not a whitelisted column |
| FormStore.NotColumns | KeyWorkerApp/database_utils.py:204 | form_id, service_user_name, dob, month, year and id are not columns, so the upsert ignores them |
| FormStore.FindForm | KeyWorkerApp/database_utils.py:195-200 | the lookup on (service_user_id, form_month_year) finds a row with that key, or reports that none has it |
| FormStore.FindFormUnique | KeyWorkerApp/database.py:81 | with UNIQUE(service_user_id, form_month_year), the form under a key is the one the lookup finds |
| FormStore.NonColumnKeysIgnored | KeyWorkerApp/database_utils.py:204-206 | a key that is not a column is never written, and removing it from the payload writes the same cells |
| FormStore.WrittenCellsKey | KeyWorkerApp/database_utils.py:209-214 | the cells an insert writes carry the key the upsert looked up |
| FormStore.SameKeysWellFormed | KeyWorkerApp/database_utils.py:202-208 | rewriting rows without changing their keys keeps the unique key and NOT NULL invariants |
| FormStore.InsertWellFormed | KeyWorkerApp/database_utils.py:209-215 | inserting a row with an unused key under a fresh rowid keeps the invariants |
| FormStore.UpsertWellFormed | KeyWorkerApp/database_utils.py:179-219 | an upsert keeps the forms table's invariants, so no key is ever stored twice |
| FormStore.UpsertExistingKeepsId | KeyWorkerApp/database_utils.py:202-208 | an upsert under a stored key returns that form's id and adds no row |
| FormStore.UpsertNewInsertsOne | KeyWorkerApp/database_utils.py:209-215 | an upsert under a new key inserts exactly one row under a fresh positive id, holding exactly the whitelisted columns present |
| FormStore.UpsertCells | KeyWorkerApp/database_utils.py:204-208 | partial update: present columns take the payload's value, absent ones keep the stored value (NULL for a new row), and every other form is untouched |
| FormStore.UpsertAt | KeyWorkerApp/database_utils.py:202-208 | the upsert of a stored key overwrites that row with the written cells and returns its id |
| FormStore.UpsertSavedKey | KeyWorkerApp/database_utils.py:196-197 | the saved form holds the payload's key |
| FormStore.UpsertIdempotent | KeyWorkerApp/database_utils.py:179-219 | saving the same payload twice is the same as saving it once |
| FormStore.UpsertThenGet | KeyWorkerApp/database_utils.py:155-162 | after an upsert, get_form_data under the same key returns the saved form with its id and the payload's present columns |
| FormStore.UpsertIdTruthy | KeyWorkerApp/database_utils.py:172-177 | every upsert returns a positive id, so save_form_data always logs |
| FormStore.Tagged | KeyWorkerApp/database_utils.py:226-229 | executemany inserts one row per tuple, in order, each tagged with the form id |
| FormStore.AppointmentsOfWithout | KeyWorkerApp/database_utils.py:224 | after the DELETE, the form has no appointments and every other form keeps its own |
| FormStore.AppointmentsOfTagged | KeyWorkerApp/database_utils.py:226-229 | the inserted rows are the list for that form and nothing for any other |
| FormStore.WithoutFormTwice | KeyWorkerApp/database_utils.py:224 | deleting a form's appointments twice is deleting them once |
| FormStore.ReplaceThenGet | KeyWorkerApp/database_utils.py:221-231 | after save_appointments(f, L), get_appointments(f) returns exactly L in order; an empty L clears them |
| FormStore.ReplaceKeepsOthers | KeyWorkerApp/database_utils.py:224 | save_appointments(f, L) leaves every other form's appointments as they were |
| FormStore.ReplaceOverwrites | KeyWorkerApp/database_utils.py:221-231 | replace, not merge: a second save for the same form leaves nothing of the first |
| Schema.CreateIfNotExists | KeyWorkerApp/database.py:24-32 | CREATE TABLE IF NOT EXISTS adds a missing table with its columns and leaves existing tables untouched |
| Schema.AddColumnIfMissing | KeyWorkerApp/database.py:86-107 | a guarded ALTER leaves the column present, keeps every other column and table, and changes nothing when the column was there |
| Schema.UsersStage | KeyWorkerApp/database.py:24-40 | the users statements leave role and first_login in users, touch no other table, and change nothing on an up-to-date users table |
| Schema.FormsStage | KeyWorkerApp/database.py:61-107 | the forms statements leave the five added columns in forms, touch no other table, and change nothing when they are present |
| Schema.WithRole | KeyWorkerApp/database.py:38 | ADD COLUMN role DEFAULT 'staff' keeps every row and its other fields, and every row's role becomes the default |
| Schema.WithFirstLogin | KeyWorkerApp/database.py:40 | ADD COLUMN first_login DEFAULT 1 keeps every row and its other fields, and every row's first_login becomes the default |
| Schema.InitSchemaComplete | KeyWorkerApp/database.py:18-131 | after initialize_db all five tables exist, users has role and first_login, and forms has the five added columns |
| Schema.InitSchemaIdempotent | KeyWorkerApp/database.py:18-131 | running initialize_db a second time leaves the schema unchanged |
| Schema.AddColumnKeepsDistinct | KeyWorkerApp/database.py:86-107 | a guarded ALTER never adds a column twice |
| Schema.UpToDateSchemaUnchanged | KeyWorkerApp/database.py:35-40 | on an up-to-date schema the migration is a no-op |
| Schema.MigrateUsersDefaults | KeyWorkerApp/database.py:29-40 | rows of a users table lacking role or first_login get "staff" and 1; otherwise they keep theirs; usernames and hashes never change |
| Schema.MigrateUsersKeepsUnique | KeyWorkerApp/database.py:35-40 | the migration keeps usernames unique and does not change whether "supervisor" exists |
| Schema.InitUsersSeed | KeyWorkerApp/database.py:43-48 | after initialize_db a user "supervisor" exists; it is inserted only when none existed, with role supervisor and first_login 0 |
| Schema.InitUsersIdempotent | KeyWorkerApp/database.py:43-48 | a second initialize_db seeds no second supervisor and changes no user |
| Schema.FreshFormsColumns | KeyWorkerApp/database.py:61-107 | on a new database, forms holds its id and exactly the columns the upsert writes |
| Schema.ShopCommentsCreated | KeyWorkerApp/database.py:72-73 | the three shopping comment columns are already in CREATE TABLE forms |
| Schema.FreshSchema | KeyWorkerApp/database.py:18-131 | a new database file gets exactly the five tables, with users' and forms' columns as declared |
| Schema.FreshUsers | KeyWorkerApp/database.py:43-48 | on a new database the only user is the supervisor, id 1, who logs in with "password" and is not asked to change it |
| Schema.IconsNotCreated | KeyWorkerApp/database.py:99-107 | the icon columns exist only through the ALTERs |
| Store.Database.constructor | KeyWorkerApp/database.py:20 | a database file that does not exist yet has no tables and no rows |
| Store.Database.InitializeDb | KeyWorkerApp/database.py:18-131 | initialize_db leaves the schema InitSchema(old) and the users InitUsers(old), keeping the invariants |
| Store.Database.MigrateUsersTable | KeyWorkerApp/database.py:24-40 | the users statements, with the column list read once before both ALTERs |
| Store.Database.SeedSupervisor | KeyWorkerApp/database.py:43-48 | the supervisor is inserted unless a user of that name exists |
| Store.Database.SetUpUsers | KeyWorkerApp/database.py:24-49 | the users statements then the supervisor seed: schema UsersStage(old), users InitUsers(old), invariants kept |
| Store.Database.CreateRemainingTables | KeyWorkerApp/database.py:52-128 | the later CREATE/ALTER statements leave the schema TablesStage(old) and touch no table's rows |
| Store.Database.RemainingTables | KeyWorkerApp/database.py:52-128 | the service_users, forms, appointments and activity_log statements, in order, compute TablesStage |
| Store.Database.MigrateFormsTable | KeyWorkerApp/database.py:61-107 | CREATE TABLE forms and the five ALTERs whose duplicate-column errors are swallowed |
| Store.Database.LogActivity | KeyWorkerApp/database_utils.py:7-15 | log_activity appends one entry |
| Store.Database.GetActivityLog | KeyWorkerApp/database_utils.py:17-27 | get_activity_log returns the log newest first |
| Store.Database.VerifyUser | KeyWorkerApp/database_utils.py:32-40 | verify_user's SELECT and hash comparison compute VerifyUser on the users table |
| Store.Database.GetAllAppUsers | KeyWorkerApp/database_utils.py:42-48 | every user once, each row from the table, in ascending order of username |
| Store.Database.AddAppUser | KeyWorkerApp/database_utils.py:50-61 | succeeds iff the username is free; then the user is inserted with first_login 1; otherwise nothing changes |
| Store.Database.DeleteAppUser | KeyWorkerApp/database_utils.py:63-68 | the row of that id is removed |
| Store.Database.ResetAppUserPassword | KeyWorkerApp/database_utils.py:70-82 | without a storage error the hash is replaced and first_login set to 1; with one nothing changes and False is returned |
| Store.Database.ChangeUserPassword | KeyWorkerApp/database_utils.py:84-96 | without a storage error the hash is replaced and first_login set to 0; with one nothing changes |
| Store.Database.AddServiceUser | KeyWorkerApp/database_utils.py:98-114 | succeeds iff the name is free; only then the resident is inserted and "ADD SERVICE USER" logged |
| Store.Database.GetAllServiceUsers | KeyWorkerApp/database_utils.py:116-122 | every resident once, each row from the table, in ascending order of name |
| Store.Database.UpdateServiceUser | KeyWorkerApp/database_utils.py:124-140 | fails iff another resident has the new name; on success the row is updated and "UPDATE SERVICE USER" logged with id, name and dob |
| Store.Database.DeleteServiceUser | KeyWorkerApp/database_utils.py:142-153 | an existing resident's forms and row are deleted and "DELETE SERVICE USER" logged with the old name; appointments stay; an unknown id changes and logs nothing |
| Store.Database.GetFormData | KeyWorkerApp/database_utils.py:155-162 | the form stored under the key, with its id, or None |
| Store.Database.SaveFormDataDb | KeyWorkerApp/database_utils.py:179-219 | the forms table and returned id are Upsert(old forms, payload) |
| Store.Database.SaveFormData | KeyWorkerApp/database_utils.py:172-177 | the upsert, then one "SAVE FORM" entry naming the resident and the month; the id is always positive |
| Store.Database.GetAppointments | KeyWorkerApp/database_utils.py:164-170 | the form's appointments, in table-scan order taken as rowid order |
| Store.Database.SaveAppointments | KeyWorkerApp/database_utils.py:221-231 | the appointments become ReplaceAppointments(old, form, list) |
| FormRules.EntryShown | KeyWorkerApp/form_window.py:629-632 | _set shows a text value and leaves the entry empty for NULL |
| FormRules.SwitchRoundTrip | KeyWorkerApp/form_window.py:641-645 | a saved switch loads back in the same position; only "Yes"/"No" survive load and save, anything but "Yes" saves as "No" |
| FormRules.DateRoundTrip | KeyWorkerApp/form_window.py:755-757 | a picked date survives save and load; the sentinel is saved as "" |
| FormRules.CleanText | KeyWorkerApp/form_window.py:751-753 | get_clean_text never returns the placeholder; it returns "" or the stripped text |
| FormRules.PlaceholderTrimmed | KeyWorkerApp/form_window.py:40-41 | both placeholders have no surrounding whitespace, so get_clean_text recognises them |
| FormRules.PlaceholderRoundTrip | KeyWorkerApp/form_window.py:634-639 | an empty, blank or placeholder value shows the placeholder, which is saved as ""; any other value is saved stripped |
| FormRules.TrimmedTextRoundTrip | KeyWorkerApp/form_window.py:695-696 | a trimmed stored family text that is not the placeholder survives load and save unchanged |
| FormRules.SavedRows | KeyWorkerApp/form_window.py:811-818 | the payload's appointments are never more than the rows, and each has a name |
| FormRules.SavedRowsConcat | KeyWorkerApp/form_window.py:811-818 | the row filter works row by row |
| FormRules.SavedRowsAllNamed | KeyWorkerApp/form_window.py:811-818 | rows with a name are all kept, in order, cleaned |
| FormRules.SavedRowsDropsNameless | KeyWorkerApp/form_window.py:812 | rows without a name are all dropped |
| FormRules.AppointmentsRoundTrip | KeyWorkerApp/form_window.py:196-201 | loading settled appointments and saving the form writes the same list back |
| FormRules.RemoveFirst | KeyWorkerApp/form_window.py:520 | list.remove drops one occurrence: one shorter, same multiset minus that label |
| FormRules.RemoveFirstFacts | KeyWorkerApp/form_window.py:519-520 | removing a label from a duplicate-free list removes it and keeps every other label |
| FormRules.ToggleFacts | KeyWorkerApp/form_window.py:515-522 | toggling flips the label's membership, keeps every other label's, and never creates a duplicate |
| FormRules.ToggleTwiceAbsent | KeyWorkerApp/form_window.py:534-541 | selecting and deselecting an unselected icon restores the list |
| FormRules.ToggleTwicePresent | KeyWorkerApp/form_window.py:534-541 | deselecting and reselecting a selected icon keeps the same labels, with that one moved to the end |
| FormRules.FeelingLabelsHaveNoComma | KeyWorkerApp/form_window.py:555 | no feeling label contains a comma |
| FormRules.CareLabelsHaveNoComma | KeyWorkerApp/form_window.py:565 | no care label contains a comma |
| FormRules.IconsSplitBack | KeyWorkerApp/form_window.py:806-807 | the comma-joined selection splits back into the labels, as the PDF reads it |
| FormRules.DaysInMonth | KeyWorkerApp/form_window.py:650 | a month has 28 to 31 days |
| FormRules.ParseDay | KeyWorkerApp/form_window.py:650 | strptime's "%d" accepts only days 1..31 |
| FormRules.ParseIsoDate | KeyWorkerApp/form_window.py:650 | strptime("%Y-%m-%d") yields only dates that exist |
| FormRules.DateOfFields | KeyWorkerApp/form_window.py:650 | the date three fields denote exists when there is one |
| FormRules.MenusOf | KeyWorkerApp/form_window.py:651-653 | the month menu is set to an abbreviation |
| FormRules.ParseSavedDate | KeyWorkerApp/form_window.py:650 | a saved "YYYY-MM-DD" parses field by field |
| FormRules.SavedDateOfMenus | KeyWorkerApp/form_window.py:748 | menus showing a date save as "YYYY-MM-DD" |
| FormRules.SessionDateRoundTrip | KeyWorkerApp/form_window.py:648-653 | a session date picked and saved reads back as that date and sets the menus to what they showed |
| FormRules.ImpossibleDayNotRestored | KeyWorkerApp/form_window.py:649-655 | a day the month does not have is saved but not read back: the menus keep what they showed |
| FormRules.PreviousOfJanuary | KeyWorkerApp/form_window.py:606-610 | January of Y maps to "December Y-1", the month just before on the month line |
| FormRules.PreviousOfLaterMonth | KeyWorkerApp/form_window.py:606-610 | any other month maps to the month before, same year |
| FormRules.PreviousMonthKeyRejects | KeyWorkerApp/form_window.py:621-622 | a month that is not a full month name gives no key (the ValueError) |
| FormRules.WidgetCellsAt | KeyWorkerApp/form_window.py:764-807 | each widget column's cell comes from its own widget: entries raw, switches as "Yes"/"No", dates cleaned, texts raw or cleaned |
| FormRules.SaveThenLoad | KeyWorkerApp/form_window.py:745-807 | saving settled widgets and loading the cells back shows the same widgets |
| FormRules.EntriesSaveThenLoad | KeyWorkerApp/form_window.py:764-783 | every entry survives save and load |
| FormRules.SwitchesSaveThenLoad | KeyWorkerApp/form_window.py:769-797 | every switch survives save and load |
| FormRules.DatesSaveThenLoad | KeyWorkerApp/form_window.py:772-775 | every picked date survives save and load |
| FormRules.TextsSaveThenLoad | KeyWorkerApp/form_window.py:796-805 | settled text boxes survive save and load |
| FormRules.TextSaveThenLoad | KeyWorkerApp/form_window.py:692-706 | one settled text box survives save and load |
| FormRules.PlaceholderSaveThenLoad | KeyWorkerApp/form_window.py:799-800 | a family box holding the placeholder or trimmed text survives save and load |
| FormRules.RawSaveThenLoad | KeyWorkerApp/form_window.py:801-805 | a raw text box that is empty or not blank survives save and load |
| FormRules.LoadThenSave | KeyWorkerApp/form_window.py:624-706 | loading a canonical row and saving writes every widget column back as stored |
| FormRules.LoadThenSaveAt | KeyWorkerApp/form_window.py:647-706 | one widget column of a canonical row through a load and a save |
| FormRules.TextLoadThenSave | KeyWorkerApp/form_window.py:634-639 | one stored text through a load and a save |
| FormRules.SavedIsCanonical | KeyWorkerApp/form_window.py:745-807 | what a settled form saves is canonical, so save, reopen, save writes the same widget cells |
| FormRules.CleanTextTrimmed | KeyWorkerApp/form_window.py:751-753 | get_clean_text's result has no surrounding whitespace and is not the placeholder |
| FormRules.CarryOverProjection | KeyWorkerApp/form_window.py:698-706 | with carry-over the old current_goal goes into the last-goal box, current_goal and both feeling boxes stay empty, other boxes load as usual |
| FormEditor.HeaderCells | KeyWorkerApp/form_window.py:759-766 | the non-widget cells: resident id and name, "<month> <year>" key, the database form of the session date |
| FormEditor.DbPayload | KeyWorkerApp/form_window.py:839-842 | save_form's copy: session_datetime takes the database date, session_datetime_db is gone, other keys are kept |
| FormEditor.FoundFormHasId | KeyWorkerApp/database_utils.py:162 | a form get_form_data finds is a non-empty dictionary whose "id" is its positive rowid |
| FormEditor.SaveKeyIsFormKey | KeyWorkerApp/form_window.py:763 | the key the editor saves under is the key the main window looks the form up by |
| FormEditor.FormWindow.constructor | KeyWorkerApp/form_window.py:11-51 | form_id is the stored id or None; a stored form is loaded (with the menus on today), otherwise the widgets start cleared with both placeholders; no icon is selected |
| FormEditor.FormWindow.ClearForm | KeyWorkerApp/form_window.py:573-602 | every entry empty, switches off, date sentinels, family placeholders, other boxes empty, no appointment rows |
| FormEditor.FormWindow.LoadFormData | KeyWorkerApp/form_window.py:624-706 | clear; stop when the id is falsy; otherwise widgets, session menus (unless carry-over) and appointment rows show the stored form |
| FormEditor.FormWindow.LoadCells | KeyWorkerApp/form_window.py:659-706 | each widget shows its stored column |
| FormEditor.FormWindow.LoadSession | KeyWorkerApp/form_window.py:648-655 | the menus show a stored date that parses, and keep their value otherwise |
| FormEditor.FormWindow.LoadAppointments | KeyWorkerApp/form_window.py:657-658 | one row per stored appointment, in the store's order |
| FormEditor.FormWindow.SelectFeelingIcon | KeyWorkerApp/form_window.py:515-532 | toggles the label and appends "[label] " to the feeling box |
| FormEditor.FormWindow.SelectCareIcon | KeyWorkerApp/form_window.py:534-551 | toggles the label and appends "[label] " to the happy-response box |
| FormEditor.FormWindow.FormDataAsDict | KeyWorkerApp/form_window.py:745-819 | the payload is keyed by the window's resident id and "<month> <year>", names the resident, and its appointments all have names |
| FormEditor.FormWindow.SaveForm | KeyWorkerApp/form_window.py:837-852 | the forms table is the upsert of the payload, form_id becomes the saved id, the form's appointments are replaced by the named rows, and "SAVE FORM" is logged |
| FormEditor.FormWindow.Submit | KeyWorkerApp/form_window.py:844-852 | the store calls of save_form for a payload and its appointments |
| FormEditor.FormWindow.LoadPreviousMonthData | KeyWorkerApp/form_window.py:604-622 | when the previous month's form exists and the load is confirmed, it is loaded with carry-over; otherwise nothing changes |
| MainMenu.FutureMonthByOrdinal | KeyWorkerApp/main.py:161-162 | the future-month gate fires exactly when the selected month is later than now on the month line |
| MainMenu.YearChoices | KeyWorkerApp/main.py:89 | the years offered run down from next year to 2021 and include the current year |
| MainMenu.DirectoryOf | KeyWorkerApp/main.py:119-120 | user_data_map's keys are exactly the listed names |
| MainMenu.DirectoryOfRow | KeyWorkerApp/main.py:119-120 | with distinct names each row's name maps to that row's id and dob |
| MainMenu.ListingEmpty | KeyWorkerApp/main.py:117 | the listing is empty exactly when there are no residents |
| MainMenu.ListingCoversTable | KeyWorkerApp/main.py:113-126 | every resident's name maps to its id and dob |
| MainMenu.ListingOnlyTable | KeyWorkerApp/main.py:113-126 | only residents' names are in the map, they are the names offered, in ascending order |
| MainMenu.ListingDropdown | KeyWorkerApp/main.py:113-126 | the sorted listing of the table gives the dropdown: every resident mapped, nothing else, names in ascending order, "No users found" alone for an empty table |
| MainMenu.App.constructor | KeyWorkerApp/main.py:21-36 | nobody is logged in and the dropdown offers only "No users found" |
| MainMenu.App.HandleLogin | KeyWorkerApp/main.py:48-67 | login succeeds iff a session came back and, on a first login, the forced change succeeded; then the session's flag reads 0 |
| MainMenu.App.SetupMainWindow | KeyWorkerApp/main.py:69-111 | the admin actions exist iff the role is supervisor; the month and year dropdowns show today; the resident dropdown shows the table |
| MainMenu.App.UpdateUserDropdown | KeyWorkerApp/main.py:113-126 | user_data_map is rebuilt from the table and the first name (or "No users found") is selected |
| MainMenu.App.ProcessFormRequest | KeyWorkerApp/main.py:141-182 | "No users found" and unknown names are refused; a future month is refused iff it is later than now; otherwise a form opens for "<Month> <Year>" with the stored id; the editor shows the stored form's cells, menus and appointments, or starts cleared on today's date when none is stored, with no icons selected |
| MainMenu.App.OpenForm | KeyWorkerApp/main.py:168-181 | the editor opens for the resident under the key "<Month> <Year>" and the stored form's id; it shows the stored form's cells, session menus and appointments, or starts cleared on today's date when no form is stored; no icons are selected |
| MainMenu.BuildDirectory | KeyWorkerApp/main.py:119-120 | the loop builds DirectoryOf(rows) |
| MainMenu.MonthIndex | KeyWorkerApp/main.py:159 | months.index finds the month's position |
| Login.LoginWindow.constructor | KeyWorkerApp/login_window.py:9 | user_info starts as None |
| Login.LoginWindow.OnClose | KeyWorkerApp/login_window.py:44-47 | closing discards the session |
| Login.LoginWindow.AttemptLogin | KeyWorkerApp/login_window.py:49-65 | an empty field changes nothing; a verified user becomes the session with "LOGIN" logged under the stored name; otherwise "LOGIN FAILED" is logged under the typed name |
| ForcedChange.CheckPasswords | KeyWorkerApp/force_password_change_window.py:57-82 | a password is accepted iff it has at least 6 characters and is confirmed; each rejection names the first failing check in the order empty, length, match |
| ForcedChange.ForcePasswordChangeWindow.constructor | KeyWorkerApp/force_password_change_window.py:6-10 | password_changed_successfully starts false |
| ForcedChange.ForcePasswordChangeWindow.Enter | KeyWorkerApp/force_password_change_window.py:54-55 | the two entries hold what was typed |
| ForcedChange.ForcePasswordChangeWindow.AttemptPasswordChange | KeyWorkerApp/force_password_change_window.py:53-90 | empty: nothing changes; short: both entries cleared; mismatch: confirmation cleared; accepted: first_login 0, logged, flag set and window closed unless the store fails |
| ForcedChange.ForcePasswordChangeWindow.OnClose | KeyWorkerApp/force_password_change_window.py:92-97 | closing without success logs the cancellation and ends the application |
| AppUserAdmin.UsernameSplits | KeyWorkerApp/app_user_management_window.py:72-82 | the derived username is lower(strip(first)) + "." + lower(strip(last)) and splits back into the two parts |
| AppUserAdmin.OwnRowHasNoActions | KeyWorkerApp/app_user_management_window.py:64-69 | nobody is offered a reset or delete of their own account |
| AppUserAdmin.AppUserManagementWindow.constructor | KeyWorkerApp/app_user_management_window.py:7-49 | empty entries and the user list: every user once, in strictly ascending username order, with actions exactly on rows other than the current user's |
| AppUserAdmin.AppUserManagementWindow.RefreshUserList | KeyWorkerApp/app_user_management_window.py:51-69 | the list shows every user once, in strictly ascending username order (ORDER BY username), offering actions exactly on rows other than the current user's |
| AppUserAdmin.AppUserManagementWindow.Enter | KeyWorkerApp/app_user_management_window.py:72-74 | the three entries hold what was typed |
| AppUserAdmin.AppUserManagementWindow.AddUser | KeyWorkerApp/app_user_management_window.py:71-92 | an empty field or a taken username changes nothing, the shown list included; otherwise the user is added with first_login 1, "ADD APP USER" logged, entries cleared, list refreshed |
| AppUserAdmin.AppUserManagementWindow.Register | KeyWorkerApp/app_user_management_window.py:82-92 | a taken username changes nothing, the shown list included; a free one is added with the hash of the typed password and first_login 1, "ADD APP USER" is logged, the entries are cleared and the list shows the new table |
| AppUserAdmin.AppUserManagementWindow.DeleteUser | KeyWorkerApp/app_user_management_window.py:94-101 | after confirmation the user is deleted and "DELETE APP USER" logged; without it nothing changes |
| AppUserAdmin.AppUserManagementWindow.ResetPassword | KeyWorkerApp/app_user_management_window.py:103-114 | an empty answer changes nothing; otherwise first_login 1 and "RESET PASSWORD" logged, unless the store fails |
| ResidentAdmin.EditMenus | KeyWorkerApp/user_management_window.py:152-158 | a date of birth that splits into three pieces with a month number gives the menus: year, month abbreviation, day |
| ResidentAdmin.JoinSplit | KeyWorkerApp/user_management_window.py:153 | splitting at '-' and joining again gives the text back |
| ResidentAdmin.DobRoundTrip | KeyWorkerApp/user_management_window.py:97-102 | the date of birth the window writes reads back into the same menus |
| ResidentAdmin.EditedDobSavesBack | KeyWorkerApp/user_management_window.py:147-158 | a stored date of birth with a two-digit month, opened and saved unchanged, is written back unchanged |
| ResidentAdmin.MenuDobHasNoYear | KeyWorkerApp/user_management_window.py:104 | menus holding digits never produce the "Year" placeholder, so only a blank name is rejected |
| ResidentAdmin.UserManagementWindow.constructor | KeyWorkerApp/user_management_window.py:8-70 | add mode, the resident list, cleared entries |
| ResidentAdmin.UserManagementWindow.RefreshUserList | KeyWorkerApp/user_management_window.py:72-95 | the list shows get_all_service_users |
| ResidentAdmin.UserManagementWindow.ClearEntries | KeyWorkerApp/user_management_window.py:174-180 | an empty name and today's date in the menus |
| ResidentAdmin.UserManagementWindow.CancelEditMode | KeyWorkerApp/user_management_window.py:167-172 | back to add mode with cleared entries and a refreshed list |
| ResidentAdmin.UserManagementWindow.Enter | KeyWorkerApp/user_management_window.py:97-101 | the name entry and the three menus hold what was chosen |
| ResidentAdmin.UserManagementWindow.EnterEditMode | KeyWorkerApp/user_management_window.py:147-162 | edit mode for the resident's id with its name and date of birth; a malformed date clears the entries, name included |
| ResidentAdmin.UserManagementWindow.AddOrUpdateUser | KeyWorkerApp/user_management_window.py:96-125 | a blank name changes nothing; in edit mode the resident is updated and edit mode left, otherwise a resident is added and the entries cleared, the list then showing the new table; a name clash changes nothing, the shown list included |
| ResidentAdmin.UserManagementWindow.DeleteUser | KeyWorkerApp/user_management_window.py:127-145 | only after confirmation and the current user's password does the resident go, with their forms; the list refreshes and edit mode of that resident ends; without them nothing changes, the shown list included |

## Left out

- Store.Database.GetAppointments: the query has no ORDER BY, so SQL fixes no order; the model takes SQLite's table-scan order to be rowid order, which is what a plain scan of a rowid table returns.
- NextRowId: SQLite's random choice of an unused rowid once the largest rowid is 2^63 - 1 is not modelled; integers are unbounded, so max + 1 is always used.
- **SQLite mechanics are not modelled.** This covers connections, commits,
  the `row_factory`, and storage errors other than UNIQUE violations. Only
  the two password updates, whose callers branch on failure, take a
  `storageFails` flag. The rest assume that storage succeeds.
- **`CURRENT_TIMESTAMP` is a counter.** The log's clock is the entry's
  position, so two entries never share a timestamp. In the source, two
  entries within one second share one.
- **Foreign keys are not enforced,** as in the source, which never turns them
  on. Deleting a resident leaves their forms' appointments behind, and the
  model keeps them.
- **`hash_password` (SHA-256) is an opaque function.** The model proves
  nothing that depends on what it computes.
- **Strings are ASCII.** `strip`, `lower` and digit recognition cover ASCII
  only: `strip` removes the ASCII characters `str.isspace()` accepts (space,
  tab, line feed, vertical tab, form feed, carriage return and 0x1C..0x1F),
  but not U+0085, U+00A0 or the other Unicode spaces Python also strips. `strptime("%b")`/`"%B"` are case-sensitive here; Python ignores case.
  The menus only ever offer the exact names.
- **`PreviousMonthKey` does not reach year 1.** For January of year 1 it
  returns no key, where Python raises OverflowError rather than ValueError.
  The menus never offer such a year.
- **Widgets, fonts, layout, the date picker, images and button colours are
  not modelled.** Neither are the PDF (`pdf_generator.py`) and the activity
  log window. The only PDF property stated is that the comma-joined icon
  lists split back.
- **Message boxes are left out.** Those that only inform are dropped. A
  confirmation is a `confirm: bool` parameter. A password prompt is a string
  parameter, where `""` is a cancel.
- **The clock is a parameter.** It is the `now`/`today` date of the methods
  that read it.
- **Typing is the `Enter` methods.** Typing into entries and picking from
  menus are modelled by `Enter` methods that set the fields.
- **Editing appointment rows in the form is not modelled.** Adding a blank
  row and deleting a row (`add_new_appointment_row` with no data,
  `delete_row`) are not modelled as operations. The saved rows are whatever
  `appointmentRows` holds.
- **Reopening a stored form does not restore the icon selections.** In the
  source, `_load_form_data` never reads the icon columns. The model
  reproduces this: the constructor starts with no icon selected, so saving a
  reopened form writes empty icon lists.
- **The main window's month dropdown is not modelled separately.** It offers
  exactly the full month names, so `ProcessFormRequest` requires a month from
  that list.
- **Distinct column lists are not proved for the literal lists.**
  `Schema.AddColumnKeepsDistinct` states that distinctness is preserved, but
  the literal column lists of the source are not shown to be distinct.
- **A carried-over NULL goal is modelled as a stop.**
  `FormRules.CarriedGoal` is the value the last-goal box receives: `str()` of
  the stored goal. When the stored goal is NULL, Tkinter rejects the insert,
  and the model leaves other_notes, the box filled after it, empty.
  `FormRules.CarryOverProjection` states the projection for a text goal only.
