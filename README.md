# Employee presence tracking: a Dafny model

This project models the core of a browser application that tracks retail staff
by the Wi-Fi network their phone is on. An administrator keeps a registry of
stores, each with the SSIDs and BSSIDs of its networks. The administrator also
sees a dashboard of attendance sessions and can download an attendance report
as comma-separated text. An employee signs in with an id and a PIN. They can
clock in only while connected to a network of one of their assigned stores, and
they can clock out and schedule shifts.

The model follows the application's own structure:

- `types.dfy`: the records (users, stores, employees, presence events, sessions, shifts).
- `seqs.dfy`: the array combinators the code uses (`filter`, `find`, `map`, `flat`, de-duplication through a `Set`).
- `text.dfy`: JavaScript's `trim`, `split`, `join` and integer printing.
- `csv.dfy`: quoted and bare fields of comma-separated text, as section 2 of RFC 4180 reads them back.
- `mockdata.dfy`: the fixture data and the seeded event generator (`services/mockData.ts`).
- `registry.dfy`: the application shell (`App.tsx`), as the class `App`.
- `storeform.dfy`: the store form (`views/StoreRegistry.tsx`), as the class `Form`.
- `attendance.dfy`: the employee portal (`views/EmployeePortal.tsx`), as the class `EmployeePortal`.
- `dashboard.dfy`: the dashboard figures, the report text and the preview table (`views/Dashboard.tsx`).
- `login.dfy`: the sign-in form (`views/Login.tsx`), as the class `LoginForm`.
- `scenarios.dfy`: worked cases over the fixture data.

React state that a component updates becomes a field of a class; each handler
becomes a method whose `ensures` gives the whole new state. Clock readings,
random numbers and locale formatting are parameters. Instants are whole
milliseconds (`int`), where the source keeps ISO-8601 strings.

## Model

| member | source | states |
|---|---|---|
| Seqs.Filter | App.tsx:82 | the result is a subsequence of the input; it holds exactly the elements that pass the test |
| Seqs.FilterCount | App.tsx:82 | every copy of a passing element is kept and every copy of a failing one dropped (multiset) |
| Seqs.FilterAllPass | App.tsx:82 | filtering returns the input unchanged iff every element passes |
| Seqs.FilterAppend | App.tsx:82 | filtering distributes over concatenation |
| Seqs.FilterIdempotent | App.tsx:82 | filtering twice with one test is filtering once |
| Seqs.FilterEmpty | views/Dashboard.tsx:22 | nothing is left iff no element passes |
| Seqs.FilterLength | views/Dashboard.tsx:22 | nothing is dropped iff every element passes |
| Seqs.FirstIndex | App.tsx:97 | None iff no element passes; otherwise the index of an element that passes, with none before it passing |
| Seqs.Find | App.tsx:97 | `find`: None iff no element passes, otherwise the first element that passes |
| Seqs.Map | App.tsx:78 | `map`: same length, each element transformed in place |
| Seqs.Flatten | views/EmployeePortal.tsx:36 | `flat` keeps exactly the elements of the inner lists |
| Seqs.FlattenAppend | views/EmployeePortal.tsx:36 | `flat` keeps the order of the parts: flattening a concatenation concatenates the flattenings |
| Seqs.FlattenFirst | views/EmployeePortal.tsx:68 | the flattened list is empty iff every part is, and otherwise starts with the first element of the first non-empty part |
| Seqs.IndexOf | views/EmployeePortal.tsx:36 | the position of the first occurrence of an element |
| Seqs.Dedupe | views/EmployeePortal.tsx:36 | `Array.from(new Set(...))` has the same elements, no repeats, ordered by the position of each element's first occurrence in the input |
| Text.Trim | views/StoreRegistry.tsx:89 | a trimmed text neither starts nor ends with whitespace |
| Text.TrimPiece | views/StoreRegistry.tsx:89 | every character of the trimmed text is in the input; the result is empty iff the input is all whitespace |
| Text.TrimIdempotent | views/StoreRegistry.tsx:89 | trimming twice is trimming once |
| Text.TrimFixpoint | views/StoreRegistry.tsx:89 | a text is its own trim iff no whitespace sits at either end |
| Text.TrimSlice | views/StoreRegistry.tsx:89 | the trim is one contiguous piece of the text, and only whitespace lies before and after it |
| Text.TrimLeadingWhitespace | views/StoreRegistry.tsx:89 | a leading whitespace character does not survive a trim |
| Text.Split | views/StoreRegistry.tsx:89 | `split` gives at least one piece, and no piece holds the separator |
| Text.JoinSplit | views/StoreRegistry.tsx:89 | joining the pieces of a split with the separator gives back the text |
| Text.SplitJoin | views/Dashboard.tsx:91-95 | splitting a join gives back the pieces when none holds the separator |
| Text.JoinFree | views/Dashboard.tsx:87 | a character in no piece and not in the separator is not in the joined text |
| Text.JoinAppend | views/Dashboard.tsx:91-95 | joining two lists joins their joins with one separator |
| Text.JoinSplitPiece | views/Dashboard.tsx:87 | cutting one piece in two at the separator leaves the joined text unchanged |
| Text.NatToString | views/Dashboard.tsx:85 | `String(n)`: decimal digits with no leading zero |
| Text.NatToStringValue | views/Dashboard.tsx:85 | reading back the printed digits gives the number |
| Text.IntToString | views/Dashboard.tsx:85 | a printed integer holds no comma, no quote and no line break |
| Csv.UnescapeEscape | views/Dashboard.tsx:45 | undoubling the quotes of an escaped text gives the text back |
| Csv.EscapeFree | views/Dashboard.tsx:45 | escaping introduces no character except the double quote |
| Csv.RecordFree | views/Dashboard.tsx:43-47 | a character other than comma and quote that is in no cell is not in the rendered line |
| Csv.SafeText | views/Dashboard.tsx:45 | `safeText` encloses the text in quotes, and the inside reads back as the text |
| Csv.ReadFieldCell | views/Dashboard.tsx:79-87 | a quoted cell, or a bare one without comma or quote, reads back as its text |
| Csv.RecordRoundTrip | views/Dashboard.tsx:78-87 | a line of such cells joined with commas reads back as the cell texts, one field each |
| Csv.RenderSplitBare | views/Dashboard.tsx:82 | a bare cell holding a comma renders exactly like two bare cells |
| MockData.Insert | services/mockData.ts:132 | insertion adds one event and puts it first when it is not older than the head |
| MockData.InsertPermutes | services/mockData.ts:132 | insertion keeps every event and adds exactly the new one (multiset) |
| MockData.InsertNewestFirst | services/mockData.ts:132 | insertion keeps the list sorted newest first |
| MockData.SortNewestFirst | services/mockData.ts:132 | the sort returns a permutation of its input, newest first |
| MockData.Reversed | services/mockData.ts:132 | the reversal puts element `k` at position `n-1-k` |
| MockData.SortStrictlyRising | services/mockData.ts:132 | strictly oldest-first input comes out of the sort reversed |
| MockData.SortTiedAhead | services/mockData.ts:132 | the stable sort puts an earlier-pushed event ahead of a later one with the same timestamp |
| MockData.LaterEventsRising | services/mockData.ts:104-130 | the heartbeats and the second entry carry strictly increasing timestamps, 15 minutes apart and then the entry 30 minutes before now |
| MockData.MockEventsOrder | services/mockData.ts:87-133 | the seeded events come out as: second entry, heartbeats 4 to 1, first entry, heartbeat 0 |
| MockData.MockEventsCount | services/mockData.ts:87-133 | the generator returns seven events |
| MockData.GenerateMockEvents | services/mockData.ts:87-133 | the generator's loop pushes the entry, five heartbeats and the second entry, then sorts them: seven events, newest first |
| Registry.AppendStore | App.tsx:73-75 | a new store goes last and every other store keeps its place |
| Registry.ReplaceStore | App.tsx:77-79 | an update replaces every store with the updated id and keeps all others in place |
| Registry.RemoveStore | App.tsx:81-83 | a delete keeps exactly the stores with another id, every copy of them, in order |
| Registry.RemoveEmployee | App.tsx:85-89 | a delete keeps exactly the employees with another id, every copy of them, in order |
| Registry.ReplaceKeepsIds | App.tsx:77-79 | an update keeps the list of ids |
| Registry.ReplaceAbsent | App.tsx:77-79 | an update with an unknown id changes nothing |
| Registry.ReplaceIdempotent | App.tsx:77-79 | repeating an update changes nothing more |
| Registry.RemoveStoreGone | App.tsx:81-83 | after a delete no store with that id can be found |
| Registry.RemoveStoreAbsent | App.tsx:81-83 | deleting an unknown id changes nothing |
| Registry.RemoveStoreIdempotent | App.tsx:81-83 | deleting twice is deleting once |
| Registry.AppendThenRemove | App.tsx:73-83 | adding a store and then deleting its id is the same as deleting that id from the old list |
| Registry.ReplaceThenRemove | App.tsx:77-83 | deleting an updated store is the same as deleting it without the update |
| Registry.EditUnchangedKeepsStores | views/StoreRegistry.tsx:44-117 | opening a registered store for editing and saving it untouched is an update that leaves the registry unchanged |
| Registry.PrependCapped | App.tsx:52 | the live buffer puts the new event first, then the older events in order, and holds at most 50 |
| Registry.PrependCappedDrops | App.tsx:52 | no event is dropped while there is room; when the buffer is full only the oldest is dropped |
| Registry.LiveEvent | App.tsx:41-51 | a live event is emp-101's at store-001 at the tick's time, an exit or a heartbeat, with signal from -60 to -51 |
| Registry.Route | App.tsx:91-106 | the sign-in screen iff signed out; the portal iff the user is not a super administrator, with the first employee whose id is the user's, or none when no id matches; otherwise the console on the current view |
| Registry.App.constructor | App.tsx:16-29 | the shell starts signed out on the dashboard, over the fixture lists, with no events |
| Registry.App.Login | App.tsx:32-36 | after sign-in the user is the mode's demo user; events are seeded only on the change from signed out |
| Registry.App.Logout | App.tsx:67-71 | sign-out clears the user and returns to the dashboard view; the lists stay |
| Registry.App.Navigate | App.tsx:111 | only the view changes |
| Registry.App.AddStore | App.tsx:73-75 | the store list becomes `AppendStore` of the old list; nothing else changes |
| Registry.App.UpdateStore | App.tsx:77-79 | the store list becomes `ReplaceStore` of the old list; nothing else changes |
| Registry.App.DeleteStore | App.tsx:81-83 | the store list becomes `RemoveStore` of the old list; nothing else changes |
| Registry.App.ApplySubmission | views/StoreRegistry.tsx:101-113 | an add request appends the store and an update request replaces it |
| Registry.App.DeleteEmployee | App.tsx:85-89 | the employee is removed only when the user confirms |
| Registry.App.LiveTick | App.tsx:39-53 | a tick prepends the event to the capped buffer and keeps the shell's invariant |
| StoreForm.ParseList | views/StoreRegistry.tsx:89-90 | the parsed list holds exactly the non-empty trimmed pieces between commas, every repeat kept, in the order typed |
| StoreForm.ParsedClean | views/StoreRegistry.tsx:89-90 | every parsed entry is non-empty, holds no comma, and has no whitespace at either end |
| StoreForm.ParsePrint | views/StoreRegistry.tsx:52-53 | parsing the `join(', ')` text of a clean list gives the list back |
| StoreForm.ParsePrintParse | views/StoreRegistry.tsx:52-53 | a parsed list survives being shown for editing and saved unchanged |
| StoreForm.BuildStore | views/StoreRegistry.tsx:86-99 | a saved store takes the typed name, or "Unnamed Store" when it is empty; the typed threshold, or -75 when it is 0; the tenant "tenant-current" and the parsed lists |
| StoreForm.SubmissionFor | views/StoreRegistry.tsx:101-113 | the form asks for an update iff it is editing a non-empty id, and otherwise adds a store with the fresh id |
| StoreForm.EditRoundTrip | views/StoreRegistry.tsx:44-99 | filling the form from a saved store and saving it untouched rebuilds the same store |
| StoreForm.BuiltResubmittable | views/StoreRegistry.tsx:86-99 | every store the form saves can be saved again unchanged |
| StoreForm.Form.constructor | views/StoreRegistry.tsx:14-26 | the form starts closed and blank, with a threshold of -75 |
| StoreForm.Form.StartAdd | views/StoreRegistry.tsx:29-41 | "Add Store" opens a blank form that is not tied to a store |
| StoreForm.Form.StartEdit | views/StoreRegistry.tsx:44-59 | "Edit" opens the form filled from the store, with its lists joined by ", " |
| StoreForm.Form.SetName | views/StoreRegistry.tsx:160 | only the name changes |
| StoreForm.Form.SetRssiThreshold | views/StoreRegistry.tsx:178-185 | only the threshold changes |
| StoreForm.Form.SetRawSsids | views/StoreRegistry.tsx:200 | only the SSID text changes |
| StoreForm.Form.SetRawBssids | views/StoreRegistry.tsx:210 | only the BSSID text changes |
| StoreForm.Form.ClearFloorPlan | views/StoreRegistry.tsx:233 | the floor-plan address becomes empty |
| StoreForm.Form.Cancel | views/StoreRegistry.tsx:297 | the form closes and keeps what was typed |
| StoreForm.Form.Submit | views/StoreRegistry.tsx:83-117 | saving returns the `SubmissionFor` the form's state, then closes the form and forgets the edited id |
| Attendance.MyStores | views/EmployeePortal.tsx:80-81 | the employee's stores are exactly the stores with an assigned id, every copy of them, in store-list order |
| Attendance.MyStoresAll | views/EmployeePortal.tsx:80-81 | an employee assigned to every store gets the whole store list |
| Attendance.Authorize | views/EmployeePortal.tsx:79-90 | clock-in is authorized iff some assigned store lists the SSID; the store chosen is the first such store, and nobody without an employee record is authorized |
| Attendance.DwellMinutes | views/EmployeePortal.tsx:107 | the dwell is the elapsed time rounded to the nearest minute, a half rounding up |
| Attendance.DwellWholeMinutes | views/EmployeePortal.tsx:107 | a whole number of minutes is kept as is |
| Attendance.JsRem | views/EmployeePortal.tsx:48 | JavaScript's `%` is the remainder of the quotient truncated toward zero, with the dividend's sign |
| Attendance.SplitDuration | views/EmployeePortal.tsx:45-49 | the live display shows whole hours and then whole minutes under 60 for a non-negative elapsed time |
| Attendance.SplitDurationMinutes | views/EmployeePortal.tsx:45-49 | the hours and minutes shown add up to the whole minutes elapsed |
| Attendance.HoursAndMinutes | views/EmployeePortal.tsx:375-384 | a non-negative total is shown as hours plus fewer than 60 minutes |
| Attendance.ClockInShowsMinusOne | views/EmployeePortal.tsx:76-100 | as written: with no history, between clock-in and the next tick the today card shows minus one hour and minus one minute |
| Attendance.ClampedTodayTotalMinutes | views/EmployeePortal.tsx:375-384 | corrected: the open session counts from zero while the clock lags its entry time; the total equals the as-written one exactly when it does not lag |
| Attendance.ClampedTodayShown | views/EmployeePortal.tsx:375-384 | corrected: with recorded dwells non-negative, the today card shows non-negative hours and minutes under 60 that add up to the total |
| Attendance.AllStoreSsids | views/EmployeePortal.tsx:36 | the network selector lists every SSID of every store once, nothing else, in order of first appearance in the stores' lists |
| Attendance.AutoConnectTarget | views/EmployeePortal.tsx:60-74 | the phone joins the first SSID of the first of the employee's stores that has any, unless that SSID is empty; with no such store it joins none; a joined network is authorized for clock-in |
| Attendance.FirstSsid | views/EmployeePortal.tsx:68 | the first SSID of the stores' lists taken together is the first SSID of the first store with any, and there is none iff no store has one |
| Attendance.Close | views/EmployeePortal.tsx:105-113 | clock-out keeps the session's identity and entry time, and sets the exit time and the rounded dwell |
| Attendance.ClockOutTotal | views/EmployeePortal.tsx:102-118 | closing the open session leaves today's total the same or one minute higher |
| Attendance.EmployeePortal.constructor | views/EmployeePortal.tsx:14-33 | the portal opens off duty, not connected, with only the user's own shifts |
| Attendance.EmployeePortal.Tick | views/EmployeePortal.tsx:39-53 | each tick updates the clock, and updates the duration text only while on duty |
| Attendance.EmployeePortal.SelectNetwork | views/EmployeePortal.tsx:55-58 | choosing a network clears the message iff the network changed |
| Attendance.EmployeePortal.AutoConnect | views/EmployeePortal.tsx:60-74 | with no network, no session and an employee record, the portal joins the first SSID of the employee's stores |
| Attendance.EmployeePortal.ClockIn | views/EmployeePortal.tsx:76-100 | clock-in opens a session at the authorized store, or shows the access-denied message and opens none |
| Attendance.EmployeePortal.ClockOut | views/EmployeePortal.tsx:102-118 | clock-out moves the closed session to the head of the history; with no open session nothing changes |
| Attendance.EmployeePortal.AddShift | views/EmployeePortal.tsx:120-134 | a shift with a date, a start and an end is appended for the user; an incomplete one is not saved |
| Attendance.EmployeePortal.TodayDuration | views/EmployeePortal.tsx:375-384 | today's card shows the recorded dwell plus the open session's whole minutes, as hours and minutes |
| Dashboard.ActiveSessions | views/Dashboard.tsx:22 | the active count is 0 iff no session is open, and equals the number of sessions iff all are open |
| Dashboard.ActiveSessionsAppend | views/Dashboard.tsx:22 | the count over two lists is the sum of the counts |
| Dashboard.RoundDiv | views/Dashboard.tsx:24 | `Math.round(a / n)` is the integer nearest to the quotient, a half rounding up |
| Dashboard.AvgDwell | views/Dashboard.tsx:23-25 | the average is 0 with no sessions, otherwise the rounded mean of the dwell minutes |
| Dashboard.SumDwellBounds | views/Dashboard.tsx:24 | the sum of the dwells lies between n times the least and n times the greatest |
| Dashboard.AvgDwellBounds | views/Dashboard.tsx:23-25 | the average lies between the least and the greatest dwell |
| Dashboard.AvgDwellUniform | views/Dashboard.tsx:23-25 | when all dwells are equal, the average is that dwell |
| Dashboard.EmployeeName | views/Dashboard.tsx:75-79 | the name of the first employee with the id, or "Unknown" when there is none or that name is empty |
| Dashboard.StoreName | views/Dashboard.tsx:76-81 | the name of the first store with the id, or "Unknown" when there is none or that name is empty |
| Dashboard.TimeOut | views/Dashboard.tsx:84 | "Active" while the session is open, otherwise the formatted exit time |
| Dashboard.StatusText | views/Dashboard.tsx:86 | "Completed" iff the session is closed, "Active / On-Site" iff it is open |
| Dashboard.RowSplitsDate | views/Dashboard.tsx:78-87 | as written: a date holding a comma is read back as two fields, so the line has nine fields under eight headings |
| Dashboard.FixedRowFields | views/Dashboard.tsx:78-87 | corrected: with the date and times quoted, every line reads back as the eight intended fields |
| Dashboard.HeaderFields | views/Dashboard.tsx:62-71 | the heading line reads back as the eight headings |
| Dashboard.RowFields | views/Dashboard.tsx:78-87 | as written: a line reads back as its eight fields, one under each heading, when the date and the times hold no comma or quote |
| Dashboard.ReportRows | views/Dashboard.tsx:74-88 | one line per session, in session order, as the report writes it |
| Dashboard.FixedReportRows | views/Dashboard.tsx:74-88 | corrected: one line per session, in session order, with the date and the times quoted |
| Dashboard.ReportTextLines | views/Dashboard.tsx:91-95 | a report text splits back into its six summary lines, its heading line and its session lines, when no text holds a line break |
| Dashboard.ReportLines | views/Dashboard.tsx:91-95 | the report as written splits into the six summary lines, the heading line and one line per session, when no text holds a line break |
| Dashboard.FixedReportLines | views/Dashboard.tsx:91-95 | corrected: the report with quoted dates and times splits the same way |
| Dashboard.Preview | views/Dashboard.tsx:226-236 | the preview shows the first five sessions at most, in order, "Online" iff open and "Offline" iff closed, and the duration is the dwell minutes followed by "m" |
| Login.SanitizePin | views/Login.tsx:29-33 | a PIN box keeps the first six digits typed, in order, and nothing else |
| Login.SanitizeFixpoint | views/Login.tsx:29-33 | a value is kept as typed iff it is at most six digits |
| Login.SanitizeDigits | views/Login.tsx:29-33 | a value of digits only is cut to its first six |
| Login.SanitizeIgnoresNonDigit | views/Login.tsx:31 | a non-digit typed anywhere in the box changes nothing |
| Login.SanitizeIdempotent | views/Login.tsx:29-33 | sanitising twice is sanitising once |
| Login.Validate | views/Login.tsx:43-66 | the first failing validation gives its message: employee id, then PIN length, then PIN match on sign-up; for admins, email and password length |
| Login.EmployeePinAccepted | views/Login.tsx:43-58 | an accepted employee PIN from the PIN box has four to six digits |
| Login.LoginForm.constructor | views/Login.tsx:10-27 | the form opens on the admin tab with the demo email and employee id filled in |
| Login.LoginForm.PinChange | views/Login.tsx:243-262 | a PIN box holds the sanitised value, so both boxes stay PIN-shaped |
| Login.LoginForm.SetEmail | views/Login.tsx:177 | only the email changes |
| Login.LoginForm.SetPassword | views/Login.tsx:192 | only the password changes |
| Login.LoginForm.SetEmpId | views/Login.tsx:226 | only the employee id changes |
| Login.LoginForm.SelectTab | views/Login.tsx:112-119 | a tab sets the mode and clears the message |
| Login.LoginForm.ToggleSignup | views/Login.tsx:76-82 | the toggle flips sign-up and clears the message, the password and both PINs |
| Login.LoginForm.Submit | views/Login.tsx:35-41 | submitting clears the message, marks the form busy, and hands the delayed part the fields as they are now, with both PINs PIN-shaped |
| Login.LoginForm.Complete | views/Login.tsx:41-73 | on the values captured at submit: the user is signed in, in the submitted mode, iff no validation fails, otherwise the first failing message is shown; the form is no longer busy and no field changes |
| Scenarios.GouthamiStores | views/EmployeePortal.tsx:80-81 | Gouthami's only store is the flagship |
| Scenarios.GouthamiAutoConnects | views/EmployeePortal.tsx:60-90 | Gouthami's phone joins "Intelense_5G", and clock-in there is authorized at the flagship |
| Scenarios.SyedRefusedAtCoffeeShop | views/EmployeePortal.tsx:85-89 | Syed is refused on a network of no assigned store |
| Scenarios.MyStoresFollowStoreList | views/EmployeePortal.tsx:81 | an employee assigned to every store gets the whole store list |
| Scenarios.DwellExamples | views/EmployeePortal.tsx:107 | 95 minutes are kept as 95; 90 seconds round to 2 and 89.999 seconds to 1 |
| Scenarios.FixtureDashboard | views/Dashboard.tsx:22-25 | the seeded sessions give 2 active and an average of 75 |
| Scenarios.DateCommaExample | views/Dashboard.tsx:82 | with the date "Jan 5, 2024", the line as written has nine fields and the corrected line eight |
| Scenarios.SwitchTabWhileBusy | views/Login.tsx:35-73 | an admin who submits and then picks the employee tab before the delay ends is signed in as an admin |
| Scenarios.DefaultFormsValidate | views/Login.tsx:14-66 | the admin form as it opens is refused; the employee form with a four-digit PIN goes through |

## Left out

- Timers (the one-second portal clock, the five-second live feed and the one-second sign-in delay) are not modelled as timers: each tick is a method that takes the clock reading.
- `Math.random` becomes parameters: the heartbeat signal offsets, the exit chance and the live feed's map position.
- `Date.now()` identifiers (`sess-`, `shift-`, `store-`, `evt-live-`) are built from the clock reading passed in; the model does not claim that they are unique.
- Instants are whole milliseconds, not ISO-8601 strings; `toISOString`, `toLocaleDateString`, `toLocaleTimeString` and `toLocaleString` are functions the report takes as parameters.
- Floating point is not modelled: geofence coordinates and radius, the floor-plan aspect ratio, event positions in percent, and the progress-bar widths.
- The floor-plan upload (`FileReader`, `Image`) is left out; the removal button is modelled.
- The Blob download, `URL.createObjectURL` and the link click are left out; the model stops at the report text.
- `window.confirm` is the boolean parameter of `Registry.App.DeleteEmployee`; `alert` on sign-up has no effect on state and is left out.
- The AI staffing insight (`services/geminiService.ts`) is a network call and is not part of this model.
- The profile page, the floor map and the live feed panel (`views/Profile.tsx`, `components/FloorMap.tsx`, `components/LiveFeed.tsx`) are display components; they are not part of this model.
- The dashboard's hourly chart is fixed display data and is not modelled.
- Browser `required` attributes on form inputs are not modelled; the model saves what the handlers are given.
- `Number("")` and `Number` of non-numeric text (0 and NaN) are not modelled: the threshold is an integer.
- The sign-up name, organisation and display-name boxes are not read by any validation and are not modelled.
- Login.Validate: `password.length` counts UTF-16 code units in the source; the model counts characters.
- The RSSI threshold and the geofence are stored but never enforced at clock-in, in the model as in the source.
- Dashboard.Report: the summary line for the generation time takes the locale text as given; a comma inside it stays unquoted, as in the source. The session lines are the lines as written (`Dashboard.Row`); `Dashboard.FixedReport` is the report with the corrected lines.
- Auto-connect picks store-001's first SSID, `Intelense_5G` (services/mockData.ts:29-30). An empty SSID is not rejected explicitly at clock-in (views/EmployeePortal.tsx:76-90); it is refused only because no parsed SSID list holds an empty entry.

## Findings

| source | as written | input that shows it | evidently intended | confidence | as-written member | corrected member |
|---|---|---|---|---|---|---|
| views/Dashboard.tsx:82-84 | the date and the times are written bare, while the other text fields go through `safeText` | a session whose date formats as "Jan 5, 2024": the line reads back with nine fields under eight headings, and every later field shifts one column to the right | the date and times quoted like the names, so that each line has eight fields | high; not executed | Dashboard.RowSplitsDate | Dashboard.FixedRowFields |
| views/EmployeePortal.tsx:375-384 | the open session's whole minutes are taken from the clock of the last one-second tick, which after clock-in is older than the session's entry time | clock-in with no history: until the next tick the today card reads "-1h -1m" | the open session counted from zero until the clock passes its entry time | medium; not executed | Attendance.ClockInShowsMinusOne | Attendance.ClampedTodayShown |

`Dashboard.Report` builds the report as written, from `Dashboard.Row`; `Dashboard.FixedReport` is the same report from the corrected line `Dashboard.FixedRow`. The portal's today card is modelled as written by `Attendance.TodayTotalMinutes`; `Attendance.ClampedTodayTotalMinutes` is the corrected total.
