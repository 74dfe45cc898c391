// Worked cases over the fixture data: who can clock in where, what the
// dashboard shows for the seeded sessions, where each demo user is routed,
// and a report line whose date splits into two fields.

module Scenarios {
  import opened Types
  import opened Seqs
  import Text
  import Csv
  import MockData
  import Attendance
  import Registry
  import Dashboard
  import Login

  /** Gouthami's phone joins the flagship's first network by itself, and clocking in on it
      is accepted at the flagship. */
  lemma GouthamiAutoConnects()
    ensures Attendance.AutoConnectTarget(MockData.MockStores, Some(MockData.Gouthami)) == Some("Intelense_5G")
    ensures Attendance.Authorize(MockData.MockStores, Some(MockData.Gouthami), "Intelense_5G") ==
      Some(MockData.DowntownFlagship)
  {
    StoreIdsDiffer();
    GouthamiStores();
    var mine := Attendance.MyStores(MockData.MockStores, Some(MockData.Gouthami));
    assert Attendance.HasSsids(mine[0]);
  }

  lemma StoreIdsDiffer()
    ensures "store-001" != "store-002" && "store-003" != "store-002"
    ensures "store-002" != "store-001" && "store-003" != "store-001"
  {
  }

  /** Gouthami's stores are the flagship alone. */
  lemma GouthamiStores()
    ensures Attendance.MyStores(MockData.MockStores, Some(MockData.Gouthami)) == [MockData.DowntownFlagship]
  {
    StoreIdsDiffer();
    var mine := Attendance.MyStores(MockData.MockStores, Some(MockData.Gouthami));
    var ids := Attendance.AssignedStoreIds(Some(MockData.Gouthami));
    assert ids == ["store-001"];
    assert multiset(mine)[MockData.DowntownFlagship] == 1;
    assert forall s :: s in mine ==> s == MockData.DowntownFlagship;
    assert multiset(mine) == multiset{MockData.DowntownFlagship};
    assert |mine| == 1;
  }

  /** Syed, assigned only to the boutique, cannot clock in from a coffee shop's network. */
  lemma SyedRefusedAtCoffeeShop()
    ensures Attendance.Authorize(MockData.MockStores, Some(MockData.Syed), "Starbucks_Free_WiFi").None?
  {
    StoreIdsDiffer();
    var ids := Attendance.AssignedStoreIds(Some(MockData.Syed));
    assert ids == ["store-002"];
    assert forall s :: s in MockData.MockStores && s.id in ids ==> s == MockData.MallBoutique;
    assert "Starbucks_Free_WiFi" !in MockData.MallBoutique.ssids;
  }

  /** Without an employee record nobody clocks in, whatever the network. */
  lemma NoEmployeeRefused(ssid: string)
    ensures Attendance.Authorize(MockData.MockStores, None, ssid).None?
  {
  }

  /** Spandana's stores come in the order of the store list. */
  lemma MyStoresFollowStoreList()
    ensures Attendance.MyStores(MockData.MockStores, Some(MockData.Spandana)) == MockData.MockStores
  {
    Attendance.MyStoresAll(MockData.MockStores, Some(MockData.Spandana));
  }

  /** A stay of ninety-five minutes is recorded as 95; a minute and a half rounds up to 2. */
  lemma DwellExamples(t: int)
    ensures Attendance.DwellMinutes(t, t + 5700000) == 95
    ensures Attendance.DwellMinutes(t, t + 90000) == 2
    ensures Attendance.DwellMinutes(t, t + 89999) == 1
  {
    Attendance.DwellWholeMinutes(t, 95);
  }

  /** Both seeded sessions are open, and their mean dwell of 120 and 30 minutes is 75. */
  lemma FixtureDashboard(now: int)
    ensures Dashboard.ActiveSessions(MockData.MockSessions(now)) == 2
    ensures Dashboard.AvgDwell(MockData.MockSessions(now)) == 75
  {
    var s := MockData.MockSessions(now);
    assert Attendance.SumDwell(s[1..]) == 30;
  }

  /** The demo employee lands in the portal with Gouthami's record; the administrator lands
      in the console on the chosen view. */
  lemma FixtureRouting(view: Registry.View)
    ensures Registry.Route(true, Some(MockData.MockEmployeeUser), MockData.MockEmployees, view) ==
      Registry.PortalScreen(MockData.MockEmployeeUser, Some(MockData.Gouthami))
    ensures Registry.Route(true, Some(MockData.MockAdmin), MockData.MockEmployees, view) ==
      Registry.AdminScreen(view)
  {
  }

  function UsDate(t: int): string { "Jan 5, 2024" }

  function UsTime(t: int): string { "10:00 AM" }

  /** Gouthami's seeded session, with the date printed as "Jan 5, 2024": the line written
      as the report writes it has nine fields under eight headings, while the line with the
      date quoted has eight. */
  lemma DateCommaExample(now: int)
    ensures |Csv.ParseRecord(Dashboard.Row(MockData.MockSessions(now)[0], MockData.MockEmployees,
                                           MockData.MockStores, UsDate, UsTime))| == 9
    ensures |Csv.ParseRecord(Dashboard.FixedRow(MockData.MockSessions(now)[0], MockData.MockEmployees,
                                                MockData.MockStores, UsDate, UsTime))| == 8
    ensures |Dashboard.Headers| == 8
  {
    var s := MockData.MockSessions(now)[0];
    assert UsDate(s.entryTime) == "Jan 5" + "," + " 2024";
    assert Dashboard.TimeOut(s, UsTime) == "Active";
    Dashboard.RowSplitsDate(s, MockData.MockEmployees, MockData.MockStores, UsDate, UsTime,
                            "Jan 5", " 2024");
    Dashboard.FixedRowFields(s, MockData.MockEmployees, MockData.MockStores, UsDate, UsTime);
  }

  /** An administrator submits, then switches to the employee tab before the delay is over:
      the sign-in still goes ahead as administrator, on the values submitted. */
  method SwitchTabWhileBusy() returns (signedIn: Option<LoginMode>)
    ensures signedIn == Some(AdminMode)
  {
    var form := new Login.LoginForm();
    form.SetPassword("s3cret");
    var sub := form.Submit();
    form.SelectTab(EmployeeMode);
    signedIn := form.Complete(sub);
  }

  /** The admin form as it opens has the email filled in but no password, so it is refused;
      the employee form with its pre-filled id and a four-digit PIN goes through. */
  lemma DefaultFormsValidate()
    ensures Login.Validate(AdminMode, false, "admin@techcorp.com", "", "emp-101", "", "") ==
      Some(Login.BadCredentials)
    ensures Login.Validate(EmployeeMode, false, "admin@techcorp.com", "", "emp-101", "1234", "").None?
  {
  }
}
