// The admin dashboard's figures (views/Dashboard.tsx): the count of open
// sessions, the rounded average dwell, the attendance report text the
// download button saves, and the recent-sessions preview. Locale formatting
// of instants is taken as given functions from an instant to a text.

module Dashboard {
  import opened Types
  import opened Seqs
  import Text
  import Csv
  import Attendance

  function IsOpenSession(s: Session): bool { s.IsOpen() }

  /** `sessions.filter(s => !s.exitTime).length`: the sessions still open. */
  function ActiveSessions(sessions: seq<Session>): (r: nat)
    ensures r <= |sessions|
    ensures r == 0 <==> forall i :: 0 <= i < |sessions| ==> !sessions[i].IsOpen()
    ensures r == |sessions| <==> forall i :: 0 <= i < |sessions| ==> sessions[i].IsOpen()
  {
    FilterEmpty(IsOpenSession, sessions);
    FilterLength(IsOpenSession, sessions);
    |Filter(IsOpenSession, sessions)|
  }

  /** The count over two lists of sessions is the sum of the counts. */
  lemma ActiveSessionsAppend(a: seq<Session>, b: seq<Session>)
    ensures ActiveSessions(a + b) == ActiveSessions(a) + ActiveSessions(b)
  {
    FilterAppend(IsOpenSession, a, b);
  }

  /** `Math.round(a / n)` for a positive count `n`: the whole number nearest to the quotient,
      a half rounding up. */
  function RoundDiv(a: int, n: int): (r: int)
    requires n > 0
    ensures 2 * n * r - n <= 2 * a < 2 * n * r + n
  {
    var q := (2 * a + n) / (2 * n);
    var m := (2 * a + n) % (2 * n);
    assert 2 * a + n == 2 * n * q + m && 0 <= m < 2 * n;
    q
  }

  /** The average dwell card: 0 with no sessions, otherwise the rounded mean of the dwell
      minutes. */
  function AvgDwell(sessions: seq<Session>): (r: int)
    ensures sessions == [] ==> r == 0
    ensures sessions != [] ==>
      2 * |sessions| * r - |sessions| <= 2 * Attendance.SumDwell(sessions) < 2 * |sessions| * r + |sessions|
  {
    if |sessions| > 0 then RoundDiv(Attendance.SumDwell(sessions), |sessions|) else 0
  }

  lemma {:induction false} SumDwellBounds(sessions: seq<Session>, lo: int, hi: int)
    requires forall i :: 0 <= i < |sessions| ==> lo <= sessions[i].dwellMinutes <= hi
    ensures |sessions| * lo <= Attendance.SumDwell(sessions) <= |sessions| * hi
  {
    if sessions != [] {
      SumDwellBounds(sessions[1..], lo, hi);
      assert |sessions| * lo == lo + (|sessions| - 1) * lo;
      assert |sessions| * hi == hi + (|sessions| - 1) * hi;
    }
  }

  /** Helper for RoundedBetween: a positive count times a positive value is positive. */
  lemma ProductSign(n: int, x: int)
    requires n > 0
    ensures x > 0 ==> n * x > 0
  {
  }

  /** A rounded quotient lies between the bounds of the quotient. */
  lemma RoundedBetween(n: int, a: int, r: int, lo: int, hi: int)
    requires n > 0 && 2 * n * r - n <= 2 * a < 2 * n * r + n
    requires n * lo <= a <= n * hi
    ensures lo <= r <= hi
  {
    var u := 2 * (r - hi) - 1;
    assert n * u == 2 * n * r - n - 2 * (n * hi);
    ProductSign(n, u);
    var v := 2 * (lo - r) - 1;
    assert n * v == 2 * (n * lo) - 2 * n * r - n;
    ProductSign(n, v);
  }

  /** The average lies between the least and the greatest dwell. */
  lemma AvgDwellBounds(sessions: seq<Session>, lo: int, hi: int)
    requires sessions != []
    requires forall i :: 0 <= i < |sessions| ==> lo <= sessions[i].dwellMinutes <= hi
    ensures lo <= AvgDwell(sessions) <= hi
  {
    SumDwellBounds(sessions, lo, hi);
    RoundedBetween(|sessions|, Attendance.SumDwell(sessions), AvgDwell(sessions), lo, hi);
  }

  /** When every session has the same dwell, that is the average. */
  lemma AvgDwellUniform(sessions: seq<Session>, d: int)
    requires sessions != []
    requires forall i :: 0 <= i < |sessions| ==> sessions[i].dwellMinutes == d
    ensures AvgDwell(sessions) == d
  {
    AvgDwellBounds(sessions, d, d);
  }

  /** `emp?.name || 'Unknown'` for the first employee with the id. */
  function EmployeeName(employees: seq<Employee>, id: string): (r: string)
    ensures r != ""
    ensures (forall i :: 0 <= i < |employees| ==> employees[i].id != id) ==> r == "Unknown"
    ensures forall i :: (0 <= i < |employees| && employees[i].id == id &&
                         forall j :: 0 <= j < i ==> employees[j].id != id) ==>
      r == (if employees[i].name == "" then "Unknown" else employees[i].name)
    ensures r == "Unknown" || exists i :: 0 <= i < |employees| && employees[i].name == r
  {
    match FirstIndex((e: Employee) => e.id == id, employees)
    case None => "Unknown"
    case Some(k) => if employees[k].name == "" then "Unknown" else employees[k].name
  }

  /** `store?.name || 'Unknown'` for the first store with the id. */
  function StoreName(stores: seq<Store>, id: string): (r: string)
    ensures r != ""
    ensures (forall i :: 0 <= i < |stores| ==> stores[i].id != id) ==> r == "Unknown"
    ensures forall i :: (0 <= i < |stores| && stores[i].id == id &&
                         forall j :: 0 <= j < i ==> stores[j].id != id) ==>
      r == (if stores[i].name == "" then "Unknown" else stores[i].name)
    ensures r == "Unknown" || exists i :: 0 <= i < |stores| && stores[i].name == r
  {
    match FirstIndex((s: Store) => s.id == id, stores)
    case None => "Unknown"
    case Some(k) => if stores[k].name == "" then "Unknown" else stores[k].name
  }

  /** The Time Out column: the formatted exit time, or "Active" while the session is open. */
  function TimeOut(s: Session, formatTime: int -> string): (r: string)
    ensures s.IsOpen() ==> r == "Active"
    ensures !s.IsOpen() ==> r == formatTime(s.exitTime.value)
  {
    match s.exitTime
    case None => "Active"
    case Some(t) => formatTime(t)
  }

  /** The Status column. */
  function StatusText(s: Session): (r: string)
    ensures r == "Completed" <==> !s.IsOpen()
    ensures r == "Active / On-Site" <==> s.IsOpen()
  {
    if s.exitTime.Some? then "Completed" else "Active / On-Site"
  }

  /** The status texts hold no comma and no quote. */
  lemma StatusPlain(s: Session)
    ensures ',' !in StatusText(s) && '"' !in StatusText(s)
  {
  }

  /** The fields of a session's report line as the report writes them: the names and the
      employee id quoted, everything else bare. */
  function RowCells(s: Session, employees: seq<Employee>, stores: seq<Store>,
                    formatDate: int -> string, formatTime: int -> string): seq<Csv.Cell>
  {
    [ Csv.Quoted(EmployeeName(employees, s.employeeId)), Csv.Quoted(s.employeeId),
      Csv.Quoted(StoreName(stores, s.storeId)), Csv.Bare(formatDate(s.entryTime)),
      Csv.Bare(formatTime(s.entryTime)), Csv.Bare(TimeOut(s, formatTime)),
      Csv.Bare(Text.IntToString(s.dwellMinutes)), Csv.Bare(StatusText(s)) ]
  }

  function Row(s: Session, employees: seq<Employee>, stores: seq<Store>,
               formatDate: int -> string, formatTime: int -> string): string
  {
    Csv.RenderRecord(RowCells(s, employees, stores, formatDate, formatTime))
  }

  /** Cutting the fourth of eight cells at a comma does not change the rendered line. */
  lemma SplitFourthCell(n1: string, n2: string, n3: string, a: string, b: string, t1: string,
                        t2: string, d: string, st: string)
    ensures Csv.RenderRecord([Csv.Quoted(n1), Csv.Quoted(n2), Csv.Quoted(n3), Csv.Bare(a + "," + b),
                              Csv.Bare(t1), Csv.Bare(t2), Csv.Bare(d), Csv.Bare(st)]) ==
            Csv.RenderRecord([Csv.Quoted(n1), Csv.Quoted(n2), Csv.Quoted(n3), Csv.Bare(a), Csv.Bare(b),
                              Csv.Bare(t1), Csv.Bare(t2), Csv.Bare(d), Csv.Bare(st)])
  {
    var xs := [Csv.Quoted(n1), Csv.Quoted(n2), Csv.Quoted(n3)];
    var ys := [Csv.Bare(t1), Csv.Bare(t2), Csv.Bare(d), Csv.Bare(st)];
    Csv.RenderSplitBare(xs, a, b, ys);
    assert xs + [Csv.Bare(a + "," + b)] + ys ==
      [Csv.Quoted(n1), Csv.Quoted(n2), Csv.Quoted(n3), Csv.Bare(a + "," + b),
       Csv.Bare(t1), Csv.Bare(t2), Csv.Bare(d), Csv.Bare(st)];
    assert xs + [Csv.Bare(a), Csv.Bare(b)] + ys ==
      [Csv.Quoted(n1), Csv.Quoted(n2), Csv.Quoted(n3), Csv.Bare(a), Csv.Bare(b),
       Csv.Bare(t1), Csv.Bare(t2), Csv.Bare(d), Csv.Bare(st)];
  }

  /** Three quoted cells and six bare ones without commas or quotes read back as nine fields. */
  lemma NineFields(n1: string, n2: string, n3: string, a: string, b: string, t1: string,
                   t2: string, d: string, st: string)
    requires ',' !in a && '"' !in a && ',' !in b && '"' !in b
    requires ',' !in t1 && '"' !in t1 && ',' !in t2 && '"' !in t2
    requires ',' !in d && '"' !in d && ',' !in st && '"' !in st
    ensures Csv.ParseRecord(Csv.RenderRecord([Csv.Quoted(n1), Csv.Quoted(n2), Csv.Quoted(n3),
      Csv.Bare(a), Csv.Bare(b), Csv.Bare(t1), Csv.Bare(t2), Csv.Bare(d), Csv.Bare(st)])) ==
      [n1, n2, n3, a, b, t1, t2, d, st]
  {
    var cells := [Csv.Quoted(n1), Csv.Quoted(n2), Csv.Quoted(n3), Csv.Bare(a), Csv.Bare(b),
                  Csv.Bare(t1), Csv.Bare(t2), Csv.Bare(d), Csv.Bare(st)];
    NineTexts(n1, n2, n3, a, b, t1, t2, d, st);
    Csv.RecordRoundTrip(cells);
  }

  lemma NineTexts(n1: string, n2: string, n3: string, a: string, b: string, t1: string,
                  t2: string, d: string, st: string)
    requires ',' !in a && '"' !in a && ',' !in b && '"' !in b
    requires ',' !in t1 && '"' !in t1 && ',' !in t2 && '"' !in t2
    requires ',' !in d && '"' !in d && ',' !in st && '"' !in st
    ensures var cells := [Csv.Quoted(n1), Csv.Quoted(n2), Csv.Quoted(n3), Csv.Bare(a), Csv.Bare(b),
                          Csv.Bare(t1), Csv.Bare(t2), Csv.Bare(d), Csv.Bare(st)];
      (forall k :: 0 <= k < |cells| ==> Csv.Readable(cells[k])) &&
      Map(Csv.CellText, cells) == [n1, n2, n3, a, b, t1, t2, d, st]
  {
  }

  /** Three quoted cells and five bare ones without commas or quotes read back as eight
      fields. */
  lemma MixedEightFields(n1: string, n2: string, n3: string, a: string, t1: string,
                         t2: string, d: string, st: string)
    requires ',' !in a && '"' !in a && ',' !in t1 && '"' !in t1 && ',' !in t2 && '"' !in t2
    requires ',' !in d && '"' !in d && ',' !in st && '"' !in st
    ensures Csv.ParseRecord(Csv.RenderRecord([Csv.Quoted(n1), Csv.Quoted(n2), Csv.Quoted(n3),
      Csv.Bare(a), Csv.Bare(t1), Csv.Bare(t2), Csv.Bare(d), Csv.Bare(st)])) ==
      [n1, n2, n3, a, t1, t2, d, st]
  {
    var cells := [Csv.Quoted(n1), Csv.Quoted(n2), Csv.Quoted(n3), Csv.Bare(a), Csv.Bare(t1),
                  Csv.Bare(t2), Csv.Bare(d), Csv.Bare(st)];
    MixedEightTexts(n1, n2, n3, a, t1, t2, d, st);
    Csv.RecordRoundTrip(cells);
  }

  lemma MixedEightTexts(n1: string, n2: string, n3: string, a: string, t1: string,
                        t2: string, d: string, st: string)
    requires ',' !in a && '"' !in a && ',' !in t1 && '"' !in t1 && ',' !in t2 && '"' !in t2
    requires ',' !in d && '"' !in d && ',' !in st && '"' !in st
    ensures var cells := [Csv.Quoted(n1), Csv.Quoted(n2), Csv.Quoted(n3), Csv.Bare(a),
                          Csv.Bare(t1), Csv.Bare(t2), Csv.Bare(d), Csv.Bare(st)];
      (forall k :: 0 <= k < |cells| ==> Csv.Readable(cells[k])) &&
      Map(Csv.CellText, cells) == [n1, n2, n3, a, t1, t2, d, st]
  {
  }

  /** A line as the report writes it reads back as its eight fields, one under each heading,
      as long as the formatted date and times hold no comma and no quote. */
  lemma RowFields(s: Session, employees: seq<Employee>, stores: seq<Store>,
                  formatDate: int -> string, formatTime: int -> string)
    requires ',' !in formatDate(s.entryTime) && '"' !in formatDate(s.entryTime)
    requires ',' !in formatTime(s.entryTime) && '"' !in formatTime(s.entryTime)
    requires ',' !in TimeOut(s, formatTime) && '"' !in TimeOut(s, formatTime)
    ensures Csv.ParseRecord(Row(s, employees, stores, formatDate, formatTime)) ==
      [ EmployeeName(employees, s.employeeId), s.employeeId, StoreName(stores, s.storeId),
        formatDate(s.entryTime), formatTime(s.entryTime), TimeOut(s, formatTime),
        Text.IntToString(s.dwellMinutes), StatusText(s) ]
  {
    var st := StatusText(s);
    StatusPlain(s);
    MixedEightFields(EmployeeName(employees, s.employeeId), s.employeeId, StoreName(stores, s.storeId),
                     formatDate(s.entryTime), formatTime(s.entryTime), TimeOut(s, formatTime),
                     Text.IntToString(s.dwellMinutes), st);
  }

  /** With the date written bare, a date holding a comma ("Jan 5, 2024") is read back as two
      fields: the line has nine fields under eight column headings, and every field after
      the date sits one column to the right. */
  lemma RowSplitsDate(s: Session, employees: seq<Employee>, stores: seq<Store>,
                      formatDate: int -> string, formatTime: int -> string, a: string, b: string)
    requires formatDate(s.entryTime) == a + "," + b
    requires ',' !in a && '"' !in a && ',' !in b && '"' !in b
    requires ',' !in formatTime(s.entryTime) && '"' !in formatTime(s.entryTime)
    requires ',' !in TimeOut(s, formatTime) && '"' !in TimeOut(s, formatTime)
    ensures Csv.ParseRecord(Row(s, employees, stores, formatDate, formatTime)) ==
      [ EmployeeName(employees, s.employeeId), s.employeeId, StoreName(stores, s.storeId), a, b,
        formatTime(s.entryTime), TimeOut(s, formatTime), Text.IntToString(s.dwellMinutes),
        StatusText(s) ]
  {
    var n1, n3 := EmployeeName(employees, s.employeeId), StoreName(stores, s.storeId);
    var t1, t2 := formatTime(s.entryTime), TimeOut(s, formatTime);
    var d, st := Text.IntToString(s.dwellMinutes), StatusText(s);
    StatusPlain(s);
    assert Row(s, employees, stores, formatDate, formatTime) ==
      Csv.RenderRecord([Csv.Quoted(n1), Csv.Quoted(s.employeeId), Csv.Quoted(n3), Csv.Bare(a + "," + b),
                        Csv.Bare(t1), Csv.Bare(t2), Csv.Bare(d), Csv.Bare(st)]);
    SplitFourthCell(n1, s.employeeId, n3, a, b, t1, t2, d, st);
    NineFields(n1, s.employeeId, n3, a, b, t1, t2, d, st);
  }

  /** The fields of a report line with the locale-formatted date and times quoted like the
      names, so that a comma inside them stays inside its field. */
  function FixedRowCells(s: Session, employees: seq<Employee>, stores: seq<Store>,
                         formatDate: int -> string, formatTime: int -> string): seq<Csv.Cell>
  {
    [ Csv.Quoted(EmployeeName(employees, s.employeeId)), Csv.Quoted(s.employeeId),
      Csv.Quoted(StoreName(stores, s.storeId)), Csv.Quoted(formatDate(s.entryTime)),
      Csv.Quoted(formatTime(s.entryTime)), Csv.Quoted(TimeOut(s, formatTime)),
      Csv.Bare(Text.IntToString(s.dwellMinutes)), Csv.Bare(StatusText(s)) ]
  }

  function FixedRow(s: Session, employees: seq<Employee>, stores: seq<Store>,
                    formatDate: int -> string, formatTime: int -> string): string
  {
    Csv.RenderRecord(FixedRowCells(s, employees, stores, formatDate, formatTime))
  }

  /** Six quoted cells and two bare ones without commas or quotes read back as eight fields. */
  lemma EightFields(q1: string, q2: string, q3: string, q4: string, q5: string, q6: string,
                    d: string, st: string)
    requires ',' !in d && '"' !in d && ',' !in st && '"' !in st
    ensures Csv.ParseRecord(Csv.RenderRecord([Csv.Quoted(q1), Csv.Quoted(q2), Csv.Quoted(q3),
      Csv.Quoted(q4), Csv.Quoted(q5), Csv.Quoted(q6), Csv.Bare(d), Csv.Bare(st)])) ==
      [q1, q2, q3, q4, q5, q6, d, st]
  {
    var cells := [Csv.Quoted(q1), Csv.Quoted(q2), Csv.Quoted(q3), Csv.Quoted(q4),
                  Csv.Quoted(q5), Csv.Quoted(q6), Csv.Bare(d), Csv.Bare(st)];
    EightTexts(q1, q2, q3, q4, q5, q6, d, st);
    Csv.RecordRoundTrip(cells);
  }

  lemma EightTexts(q1: string, q2: string, q3: string, q4: string, q5: string, q6: string,
                   d: string, st: string)
    requires ',' !in d && '"' !in d && ',' !in st && '"' !in st
    ensures var cells := [Csv.Quoted(q1), Csv.Quoted(q2), Csv.Quoted(q3), Csv.Quoted(q4),
                          Csv.Quoted(q5), Csv.Quoted(q6), Csv.Bare(d), Csv.Bare(st)];
      (forall k :: 0 <= k < |cells| ==> Csv.Readable(cells[k])) &&
      Map(Csv.CellText, cells) == [q1, q2, q3, q4, q5, q6, d, st]
  {
  }

  /** Every line with the date and the times quoted reads back as exactly eight fields, one
      under each heading, whatever the names and the formatted texts hold. */
  lemma FixedRowFields(s: Session, employees: seq<Employee>, stores: seq<Store>,
                       formatDate: int -> string, formatTime: int -> string)
    ensures Csv.ParseRecord(FixedRow(s, employees, stores, formatDate, formatTime)) ==
      [ EmployeeName(employees, s.employeeId), s.employeeId, StoreName(stores, s.storeId),
        formatDate(s.entryTime), formatTime(s.entryTime), TimeOut(s, formatTime),
        Text.IntToString(s.dwellMinutes), StatusText(s) ]
  {
    var st := StatusText(s);
    StatusPlain(s);
    EightFields(EmployeeName(employees, s.employeeId), s.employeeId, StoreName(stores, s.storeId),
                formatDate(s.entryTime), formatTime(s.entryTime), TimeOut(s, formatTime),
                Text.IntToString(s.dwellMinutes), st);
  }

  const Headers: seq<string> := ["Employee Name", "Employee ID", "Store Location", "Date",
                                 "Time In", "Time Out", "Duration (Mins)", "Status"]

  const HeaderLine: string := Text.Join(Headers, ",")

  function BareCell(t: string): Csv.Cell { Csv.Bare(t) }

  /** Texts with no comma and no quote, joined with commas, read back as themselves. */
  lemma BareRoundTrip(texts: seq<string>)
    requires |texts| >= 1
    requires forall k :: 0 <= k < |texts| ==> ',' !in texts[k] && '"' !in texts[k]
    ensures Csv.ParseRecord(Text.Join(texts, ",")) == texts
  {
    var cells := Map(BareCell, texts);
    assert Map(Csv.RenderCell, cells) == texts;
    assert Map(Csv.CellText, cells) == texts;
    Csv.RecordRoundTrip(cells);
  }

  /** The heading line reads back as the eight headings. */
  lemma HeaderFields()
    ensures Csv.ParseRecord(HeaderLine) == Headers
  {
    BareRoundTrip(Headers);
  }

  /** The summary at the top of the report; `generatedOn` is the clock reading as the locale
      prints it. The sixth line is empty. */
  function SummaryLines(generatedOn: string, storeCount: int, sessions: seq<Session>): seq<string>
  {
    [ "EMPLOYEE ATTENDANCE REPORT",
      "Generated On," + generatedOn,
      "Total Locations," + Text.IntToString(storeCount),
      "Total Shifts Recorded," + Text.IntToString(|sessions|),
      "Average Shift Duration," + Text.IntToString(AvgDwell(sessions)) + " minutes",
      "" ]
  }

  /** One report line per session, in session order, as the report writes it. */
  function ReportRows(sessions: seq<Session>, employees: seq<Employee>, stores: seq<Store>,
                      formatDate: int -> string, formatTime: int -> string): (r: seq<string>)
    ensures |r| == |sessions|
    ensures forall i :: 0 <= i < |sessions| ==>
      r[i] == Row(sessions[i], employees, stores, formatDate, formatTime)
  {
    if sessions == [] then []
    else [Row(sessions[0], employees, stores, formatDate, formatTime)] +
         ReportRows(sessions[1..], employees, stores, formatDate, formatTime)
  }

  /** The session lines with the date and the times quoted. */
  function FixedReportRows(sessions: seq<Session>, employees: seq<Employee>, stores: seq<Store>,
                           formatDate: int -> string, formatTime: int -> string): (r: seq<string>)
    ensures |r| == |sessions|
    ensures forall i :: 0 <= i < |sessions| ==>
      r[i] == FixedRow(sessions[i], employees, stores, formatDate, formatTime)
  {
    if sessions == [] then []
    else [FixedRow(sessions[0], employees, stores, formatDate, formatTime)] +
         FixedReportRows(sessions[1..], employees, stores, formatDate, formatTime)
  }

  /** The summary, the headings and the given session lines, one per line. */
  function ReportText(generatedOn: string, storeCount: int, sessions: seq<Session>,
                      rows: seq<string>): string
  {
    Text.Join(SummaryLines(generatedOn, storeCount, sessions) + [HeaderLine] + rows, "\n")
  }

  /** The text the report download saves. */
  function Report(generatedOn: string, stores: seq<Store>, employees: seq<Employee>,
                  sessions: seq<Session>, formatDate: int -> string, formatTime: int -> string): string
  {
    ReportText(generatedOn, |stores|, sessions,
               ReportRows(sessions, employees, stores, formatDate, formatTime))
  }

  /** The report with the date and the times of every session line quoted. */
  function FixedReport(generatedOn: string, stores: seq<Store>, employees: seq<Employee>,
                       sessions: seq<Session>, formatDate: int -> string, formatTime: int -> string): string
  {
    ReportText(generatedOn, |stores|, sessions,
               FixedReportRows(sessions, employees, stores, formatDate, formatTime))
  }

  /** Helper for RowNoBreak: the fixed cell texts of a session line hold no line break. */
  lemma FixedTextsNoBreak()
    ensures '\n' !in "Unknown" && '\n' !in "Active"
    ensures '\n' !in "Completed" && '\n' !in "Active / On-Site"
  {
  }

  /** A session line holds no line break when none of its texts does. */
  lemma RowNoBreak(s: Session, employees: seq<Employee>, stores: seq<Store>,
                   formatDate: int -> string, formatTime: int -> string)
    requires forall i :: 0 <= i < |employees| ==> '\n' !in employees[i].name
    requires forall i :: 0 <= i < |stores| ==> '\n' !in stores[i].name
    requires '\n' !in s.employeeId
    requires forall t :: '\n' !in formatDate(t) && '\n' !in formatTime(t)
    ensures '\n' !in Row(s, employees, stores, formatDate, formatTime)
    ensures '\n' !in FixedRow(s, employees, stores, formatDate, formatTime)
  {
    var cells := RowCells(s, employees, stores, formatDate, formatTime);
    var fixed := FixedRowCells(s, employees, stores, formatDate, formatTime);
    FixedTextsNoBreak();
    assert forall k :: 0 <= k < |cells| ==> '\n' !in cells[k].text by {
      assert cells[0].text == EmployeeName(employees, s.employeeId);
      assert cells[2].text == StoreName(stores, s.storeId);
      assert cells[5].text == TimeOut(s, formatTime);
      assert cells[7].text == StatusText(s);
    }
    assert forall k :: 0 <= k < |fixed| ==> fixed[k].text == cells[k].text;
    Csv.RecordFree(cells, '\n');
    Csv.RecordFree(fixed, '\n');
  }

  lemma HeaderNoBreak()
    ensures '\n' !in HeaderLine
  {
    forall k | 0 <= k < |Headers| ensures '\n' !in Headers[k] {
    }
    Text.JoinFree(Headers, ",", '\n');
  }

  /** Helpers for SummaryNoBreak, each a literal label of the summary lines; kept apart so that
      each literal is checked on its own. */
  lemma TitleNoBreak()
    ensures '\n' !in "EMPLOYEE ATTENDANCE REPORT" && '\n' !in "Generated On,"
  {
  }

  lemma CountLabelsNoBreak()
    ensures '\n' !in "Total Locations," && '\n' !in "Total Shifts Recorded,"
  {
  }

  lemma AverageLabelNoBreak()
    ensures '\n' !in "Average Shift Duration," && '\n' !in " minutes"
  {
  }

  lemma SummaryNoBreak(generatedOn: string, storeCount: int, sessions: seq<Session>)
    requires '\n' !in generatedOn
    ensures forall k :: 0 <= k < 6 ==> '\n' !in SummaryLines(generatedOn, storeCount, sessions)[k]
  {
    var lines := SummaryLines(generatedOn, storeCount, sessions);
    var c, m := Text.IntToString(storeCount), Text.IntToString(|sessions|);
    var avg := Text.IntToString(AvgDwell(sessions));
    TitleNoBreak();
    CountLabelsNoBreak();
    AverageLabelNoBreak();
    assert lines[1] == "Generated On," + generatedOn;
    assert lines[2] == "Total Locations," + c;
    assert lines[3] == "Total Shifts Recorded," + m;
    assert lines[4] == "Average Shift Duration," + avg + " minutes";
  }

  lemma RowsNoBreak(sessions: seq<Session>, employees: seq<Employee>, stores: seq<Store>,
                    formatDate: int -> string, formatTime: int -> string)
    requires forall i :: 0 <= i < |employees| ==> '\n' !in employees[i].name
    requires forall i :: 0 <= i < |stores| ==> '\n' !in stores[i].name
    requires forall i :: 0 <= i < |sessions| ==> '\n' !in sessions[i].employeeId
    requires forall t :: '\n' !in formatDate(t) && '\n' !in formatTime(t)
    ensures forall k :: 0 <= k < |sessions| ==>
      '\n' !in ReportRows(sessions, employees, stores, formatDate, formatTime)[k]
    ensures forall k :: 0 <= k < |sessions| ==>
      '\n' !in FixedReportRows(sessions, employees, stores, formatDate, formatTime)[k]
  {
    forall k | 0 <= k < |sessions|
      ensures '\n' !in ReportRows(sessions, employees, stores, formatDate, formatTime)[k]
      ensures '\n' !in FixedReportRows(sessions, employees, stores, formatDate, formatTime)[k]
    {
      RowNoBreak(sessions[k], employees, stores, formatDate, formatTime);
    }
  }

  /** Splitting a report text at line breaks gives back its lines: six summary lines, the
      heading line and the session lines, when none of them holds a line break. */
  lemma ReportTextLines(generatedOn: string, storeCount: int, sessions: seq<Session>,
                        rows: seq<string>)
    requires '\n' !in generatedOn
    requires forall k :: 0 <= k < |rows| ==> '\n' !in rows[k]
    ensures Text.Split(ReportText(generatedOn, storeCount, sessions, rows), '\n') ==
      SummaryLines(generatedOn, storeCount, sessions) + [HeaderLine] + rows
  {
    var summary := SummaryLines(generatedOn, storeCount, sessions);
    var lines := summary + [HeaderLine] + rows;
    SummaryNoBreak(generatedOn, storeCount, sessions);
    HeaderNoBreak();
    assert forall k :: 0 <= k < |lines| ==> '\n' !in lines[k] by {
      forall k | 0 <= k < |lines| ensures '\n' !in lines[k] {
        if k < 6 {
          assert lines[k] == summary[k];
        } else if k > 6 {
          assert lines[k] == rows[k - 7];
        }
      }
    }
    Text.SplitJoin(lines, '\n');
  }

  /** The saved report has six summary lines, the heading line and one line per session, in
      that order, when no name, id or formatted text holds a line break. */
  lemma ReportLines(generatedOn: string, stores: seq<Store>, employees: seq<Employee>,
                    sessions: seq<Session>, formatDate: int -> string, formatTime: int -> string)
    requires '\n' !in generatedOn
    requires forall i :: 0 <= i < |employees| ==> '\n' !in employees[i].name
    requires forall i :: 0 <= i < |stores| ==> '\n' !in stores[i].name
    requires forall i :: 0 <= i < |sessions| ==> '\n' !in sessions[i].employeeId
    requires forall t :: '\n' !in formatDate(t) && '\n' !in formatTime(t)
    ensures Text.Split(Report(generatedOn, stores, employees, sessions, formatDate, formatTime), '\n') ==
      SummaryLines(generatedOn, |stores|, sessions) + [HeaderLine] +
      ReportRows(sessions, employees, stores, formatDate, formatTime)
    ensures |Text.Split(Report(generatedOn, stores, employees, sessions, formatDate, formatTime), '\n')| ==
      7 + |sessions|
  {
    RowsNoBreak(sessions, employees, stores, formatDate, formatTime);
    ReportTextLines(generatedOn, |stores|, sessions,
                    ReportRows(sessions, employees, stores, formatDate, formatTime));
  }

  /** The same for the report with the date and the times quoted. */
  lemma FixedReportLines(generatedOn: string, stores: seq<Store>, employees: seq<Employee>,
                         sessions: seq<Session>, formatDate: int -> string, formatTime: int -> string)
    requires '\n' !in generatedOn
    requires forall i :: 0 <= i < |employees| ==> '\n' !in employees[i].name
    requires forall i :: 0 <= i < |stores| ==> '\n' !in stores[i].name
    requires forall i :: 0 <= i < |sessions| ==> '\n' !in sessions[i].employeeId
    requires forall t :: '\n' !in formatDate(t) && '\n' !in formatTime(t)
    ensures Text.Split(FixedReport(generatedOn, stores, employees, sessions, formatDate, formatTime), '\n') ==
      SummaryLines(generatedOn, |stores|, sessions) + [HeaderLine] +
      FixedReportRows(sessions, employees, stores, formatDate, formatTime)
    ensures |Text.Split(FixedReport(generatedOn, stores, employees, sessions, formatDate, formatTime), '\n')| ==
      7 + |sessions|
  {
    RowsNoBreak(sessions, employees, stores, formatDate, formatTime);
    ReportTextLines(generatedOn, |stores|, sessions,
                    FixedReportRows(sessions, employees, stores, formatDate, formatTime));
  }

  /** A row of the recent-sessions table; instants are kept as instants. */
  datatype PreviewRow = PreviewRow(employee: string, loginTime: int, logoffTime: Option<int>,
                                   duration: string, status: string)

  function PreviewOf(s: Session, employees: seq<Employee>): PreviewRow
  {
    PreviewRow(EmployeeName(employees, s.employeeId), s.entryTime, s.exitTime,
               Text.IntToString(s.dwellMinutes) + "m",
               if s.exitTime.Some? then "Offline" else "Online")
  }

  /** `sessions.slice(0, 5)`: the first five sessions at most, "Online" while open and
      "Offline" once closed, with the dwell in minutes as the duration. */
  function Preview(sessions: seq<Session>, employees: seq<Employee>): (r: seq<PreviewRow>)
    ensures |r| == Min(|sessions|, 5)
    ensures forall i :: 0 <= i < |r| ==>
      r[i].employee == EmployeeName(employees, sessions[i].employeeId) &&
      r[i].loginTime == sessions[i].entryTime && r[i].logoffTime == sessions[i].exitTime
    ensures forall i :: 0 <= i < |r| ==>
      (r[i].status == "Online" <==> sessions[i].IsOpen()) &&
      (r[i].status == "Offline" <==> !sessions[i].IsOpen())
    ensures forall i :: 0 <= i < |r| ==>
      r[i].duration == Text.IntToString(sessions[i].dwellMinutes) + "m"
  {
    var shown := sessions[..Min(|sessions|, 5)];
    Map((s: Session) => PreviewOf(s, employees), shown)
  }
}
