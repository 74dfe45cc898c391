// The employee portal (views/EmployeePortal.tsx): Wi-Fi clock-in
// authorization, the clock-in / clock-out state machine over the current
// session and the attendance history, the live duration display, today's
// total, shift scheduling and the simulated auto-connection.

module Attendance {
  import opened Types
  import opened Seqs
  import Text

  const AccessDenied := "Access Denied: You are not connected to an assigned store Wi-Fi network."

  function StoreSsids(s: Store): seq<string> { s.ssids }

  /** `employee?.assignedStoreIds || []`. */
  function AssignedStoreIds(employee: Option<Employee>): seq<string>
  {
    match employee
    case None => []
    case Some(e) => e.assignedStoreIds
  }

  /** The employee's stores: the store list filtered to the assigned ids. */
  function MyStores(stores: seq<Store>, employee: Option<Employee>): (r: seq<Store>)
    ensures forall s :: s in r <==> s in stores && s.id in AssignedStoreIds(employee)
    ensures IsSubsequence(r, stores)
    ensures forall s :: multiset(r)[s] == if s.id in AssignedStoreIds(employee) then multiset(stores)[s] else 0
  {
    var ids := AssignedStoreIds(employee);
    FilterCount((s: Store) => s.id in ids, stores);
    Filter((s: Store) => s.id in ids, stores)
  }

  /** The store whose network proves presence: the first of the employee's stores
      (in store-list order) that lists the observed SSID. */
  function Authorize(stores: seq<Store>, employee: Option<Employee>, ssid: string): (r: Option<Store>)
    ensures r.Some? <==> exists s :: s in stores && s.id in AssignedStoreIds(employee) && ssid in s.ssids
    ensures r.Some? ==> r.value in stores && r.value.id in AssignedStoreIds(employee) && ssid in r.value.ssids
    ensures r.Some? ==> var mine := MyStores(stores, employee);
      exists i :: 0 <= i < |mine| && mine[i] == r.value && forall j :: 0 <= j < i ==> ssid !in mine[j].ssids
    ensures employee.None? ==> r.None?
  {
    var mine := MyStores(stores, employee);
    var r := Find((s: Store) => ssid in s.ssids, mine);
    assert r.None? ==> forall s :: s in mine ==> ssid !in s.ssids;
    assert r.Some? ==> r.value in mine;
    r
  }

  /** Math.round of an elapsed time in minutes: the nearest whole minute, half a minute rounding up. */
  function DwellMinutes(entryTime: int, exitTime: int): (m: int)
    ensures 60000 * m - 30000 <= exitTime - entryTime < 60000 * m + 30000
  {
    (exitTime - entryTime + 30000) / 60000
  }

  /** A whole number of minutes needs no rounding. */
  lemma DwellWholeMinutes(entryTime: int, k: int)
    ensures DwellMinutes(entryTime, entryTime + 60000 * k) == k
  {
    var m := DwellMinutes(entryTime, entryTime + 60000 * k);
    assert 60000 * (m - k) - 30000 <= 0 < 60000 * (m - k) + 30000;
  }

  /** JavaScript's integer quotient rounded toward zero. */
  function JsTruncDiv(a: int, b: int): int
    requires b > 0
  {
    if a >= 0 then a / b else -((-a) / b)
  }

  /** JavaScript's `%`: the remainder of the quotient rounded toward zero, with the sign of
      the dividend. */
  function JsRem(a: int, b: int): (r: int)
    requires b > 0
    ensures a == b * JsTruncDiv(a, b) + r
    ensures a >= 0 ==> 0 <= r < b
    ensures a < 0 ==> -b < r <= 0
  {
    if a >= 0 then a % b else -((-a) % b)
  }

  /** The live `Xh Ym` split of an elapsed time: Math.floor of hours, and Math.floor of
      the minutes in the remainder. */
  function SplitDuration(diffMs: int): (r: (int, int))
    ensures diffMs >= 0 ==> 0 <= r.0 && 0 <= r.1 < 60
    ensures diffMs >= 0 ==>
      3600000 * r.0 + 60000 * r.1 <= diffMs < 3600000 * r.0 + 60000 * (r.1 + 1)
    ensures diffMs < 0 ==> r.0 < 0 && -60 <= r.1 <= 0
  {
    (diffMs / 3600000, JsRem(diffMs, 3600000) / 60000)
  }

  /** Hours and minutes of the split together are the whole minutes elapsed. */
  lemma SplitDurationMinutes(diffMs: int)
    requires diffMs >= 0
    ensures 60 * SplitDuration(diffMs).0 + SplitDuration(diffMs).1 == diffMs / 60000
  {
    var (h, m) := SplitDuration(diffMs);
    var w := diffMs / 60000;
    assert 60000 * w <= diffMs < 60000 * (w + 1);
    assert 60000 * (60 * h + m) <= diffMs < 60000 * (60 * h + m + 1);
  }

  function FormatDuration(diffMs: int): string
  {
    var (h, m) := SplitDuration(diffMs);
    Text.IntToString(h) + "h " + Text.IntToString(m) + "m"
  }

  /** The sum of the dwell minutes of some sessions (the `reduce` over them). */
  function SumDwell(sessions: seq<Session>): int
  {
    if sessions == [] then 0 else sessions[0].dwellMinutes + SumDwell(sessions[1..])
  }

  /** Today's total in minutes: all recorded dwell plus the whole minutes of the open session. */
  function TodayTotalMinutes(history: seq<Session>, current: Option<Session>, now: int): int
  {
    SumDwell(history) + match current
      case None => 0
      case Some(s) => (now - s.entryTime) / 60000
  }

  /** The hours and minutes shown for a total: Math.floor(total / 60) and total % 60. */
  function HoursAndMinutes(total: int): (r: (int, int))
    ensures total >= 0 ==> 60 * r.0 + r.1 == total && 0 <= r.1 < 60
  {
    (total / 60, JsRem(total, 60))
  }

  /** Right after clock-in the clock still holds the last tick, taken before the session's
      entry time, so with nothing recorded yet the today card reads minus one hour and minus
      one minute until the next tick. */
  lemma ClockInShowsMinusOne(s: Session, now: int)
    requires s.entryTime - 60000 <= now < s.entryTime
    ensures HoursAndMinutes(TodayTotalMinutes([], Some(s), now)) == (-1, -1)
  {
    assert (now - s.entryTime) / 60000 == -1;
  }

  /** Today's total with the open session counted from zero while the clock lags behind its
      entry time. */
  function ClampedTodayTotalMinutes(history: seq<Session>, current: Option<Session>, now: int): (r: int)
    ensures r >= SumDwell(history)
    ensures r == TodayTotalMinutes(history, current, now) <==>
      current.None? || now >= current.value.entryTime
  {
    SumDwell(history) + match current
      case None => 0
      case Some(s) => if now >= s.entryTime then (now - s.entryTime) / 60000 else 0
  }

  /** With recorded sessions of non-negative length, the clamped total shows whole hours and
      minutes under sixty, and they add up to the total. */
  lemma {:induction false} ClampedTodayShown(history: seq<Session>, current: Option<Session>, now: int)
    requires forall k :: 0 <= k < |history| ==> history[k].dwellMinutes >= 0
    ensures var total := ClampedTodayTotalMinutes(history, current, now);
      var (h, m) := HoursAndMinutes(total);
      h >= 0 && 0 <= m < 60 && 60 * h + m == total
  {
    SumDwellNonNegative(history);
  }

  lemma {:induction false} SumDwellNonNegative(sessions: seq<Session>)
    requires forall k :: 0 <= k < |sessions| ==> sessions[k].dwellMinutes >= 0
    ensures SumDwell(sessions) >= 0
  {
    if sessions != [] {
      SumDwellNonNegative(sessions[1..]);
    }
  }

  /** `stores.flatMap(s => s.ssids)`: the SSID lists one after the other. */
  function FlatSsids(stores: seq<Store>): seq<string>
  {
    Flatten(Map(StoreSsids, stores))
  }

  /** Every SSID of every store, once each, in order of first appearance. */
  function AllStoreSsids(stores: seq<Store>): (r: seq<string>)
    ensures forall s, x :: s in stores && x in s.ssids ==> x in r
    ensures forall x :: x in r ==> exists s :: s in stores && x in s.ssids
    ensures forall x :: x in r <==> x in FlatSsids(stores)
    ensures forall i, j :: 0 <= i < j < |r| ==> r[i] != r[j]
    ensures forall i, j :: 0 <= i < j < |r| ==>
      IndexOf(FlatSsids(stores), r[i]) < IndexOf(FlatSsids(stores), r[j])
  {
    var lists := Map(StoreSsids, stores);
    assert forall s :: s in stores ==> s.ssids in lists;
    Dedupe(Flatten(lists))
  }

  function HasSsids(s: Store): bool { s.ssids != [] }

  /** An employee assigned to every store has them all, in order. */
  lemma MyStoresAll(stores: seq<Store>, employee: Option<Employee>)
    requires forall i :: 0 <= i < |stores| ==> stores[i].id in AssignedStoreIds(employee)
    ensures MyStores(stores, employee) == stores
  {
    var ids := AssignedStoreIds(employee);
    FilterAllPass((s: Store) => s.id in ids, stores);
  }

  /** The network a phone would join by itself: the first SSID of the employee's stores, that
      is, the first SSID of the first of them with any; none when that SSID is empty or no
      store has one. */
  function AutoConnectTarget(stores: seq<Store>, employee: Option<Employee>): (r: Option<string>)
    ensures r.Some? ==> r.value != ""
    ensures r.Some? ==> Authorize(stores, employee, r.value).Some?
    ensures var mine := MyStores(stores, employee);
      match FirstIndex(HasSsids, mine)
      case None => r.None?
      case Some(k) => r == if mine[k].ssids[0] != "" then Some(mine[k].ssids[0]) else None
  {
    var mine := MyStores(stores, employee);
    var all := FlatSsids(mine);
    FirstSsid(mine);
    if all != [] && all[0] != "" then
      assert all[0] in all;
      assert exists l :: l in Map(StoreSsids, mine) && all[0] in l;
      assert exists s :: s in mine && all[0] in s.ssids;
      Some(all[0])
    else None
  }

  /** The first SSID of the flattened lists is the first SSID of the first store with any. */
  lemma FirstSsid(stores: seq<Store>)
    ensures match FirstIndex(HasSsids, stores)
      case None => FlatSsids(stores) == []
      case Some(k) => FlatSsids(stores) != [] && FlatSsids(stores)[0] == stores[k].ssids[0]
  {
    var lists := Map(StoreSsids, stores);
    FlattenFirst(lists);
    FirstIndexSame(NonEmpty, HasSsids, lists, stores);
  }

  /** The session clock-out produces: exit time set, dwell rounded to the minute. */
  function Close(s: Session, now: int): (c: Session)
    ensures c.id == s.id && c.employeeId == s.employeeId && c.storeId == s.storeId
    ensures c.entryTime == s.entryTime && c.lastKnownLocation == s.lastKnownLocation
    ensures c.exitTime == Some(now) && c.dwellMinutes == DwellMinutes(s.entryTime, now)
  {
    s.(exitTime := Some(now), dwellMinutes := DwellMinutes(s.entryTime, now))
  }

  /** Closing the open session moves it into the history: today's total stays the same or
      gains one minute, since the live part rounds down and the closed part rounds to nearest. */
  lemma {:induction false} ClockOutTotal(history: seq<Session>, s: Session, now: int)
    ensures var before := TodayTotalMinutes(history, Some(s), now);
            var after := TodayTotalMinutes([Close(s, now)] + history, None, now);
            before <= after <= before + 1
  {
    assert ([Close(s, now)] + history)[1..] == history;
    var d := now - s.entryTime;
    var w := d / 60000;
    var m := DwellMinutes(s.entryTime, now);
    assert 60000 * w <= d < 60000 * w + 60000;
    assert 60000 * (m - w) < 60000 + 30000;
    assert 60000 * (w - m) < 30000;
  }

  /** The portal's state for one signed-in employee. */
  class EmployeePortal {
    const user: UserProfile
    const stores: seq<Store>
    const employee: Option<Employee>
    var currentTime: int
    var shifts: seq<Shift>
    var currentSession: Option<Session>
    var attendanceHistory: seq<Session>
    var sessionDuration: string
    var error: Option<string>
    var simulatedSSID: string
    var isAddingShift: bool

    /** At most one open session: the current one; every recorded session is closed, and every
        session and shift belongs to the user, every session to an assigned store. */
    ghost predicate Valid()
      reads this
    {
      && (currentSession.Some? ==>
            currentSession.value.IsOpen()
            && currentSession.value.employeeId == user.id
            && currentSession.value.storeId in AssignedStoreIds(employee))
      && (forall k :: 0 <= k < |attendanceHistory| ==>
            !attendanceHistory[k].IsOpen()
            && attendanceHistory[k].employeeId == user.id
            && attendanceHistory[k].storeId in AssignedStoreIds(employee))
      && (forall k :: 0 <= k < |shifts| ==> shifts[k].employeeId == user.id)
    }

    /** The portal as it mounts: the user's own scheduled shifts, off duty, not connected. */
    constructor (user: UserProfile, stores: seq<Store>, employee: Option<Employee>,
                 mockShifts: seq<Shift>, now: int)
      ensures Valid()
      ensures this.user == user && this.stores == stores && this.employee == employee
      ensures shifts == Filter((s: Shift) => s.employeeId == user.id, mockShifts)
      ensures currentSession == None && attendanceHistory == [] && error == None
      ensures sessionDuration == "00:00" && simulatedSSID == "" && !isAddingShift
      ensures currentTime == now
    {
      this.user := user;
      this.stores := stores;
      this.employee := employee;
      currentTime := now;
      var own := Filter((s: Shift) => s.employeeId == user.id, mockShifts);
      assert forall k :: 0 <= k < |own| ==> own[k] in own;
      shifts := own;
      currentSession := None;
      attendanceHistory := [];
      sessionDuration := "00:00";
      error := None;
      simulatedSSID := "";
      isAddingShift := false;
    }

    /** One tick of the one-second timer. */
    method Tick(now: int)
      modifies this
      ensures currentTime == now
      ensures old(currentSession).None? ==> sessionDuration == old(sessionDuration)
      ensures old(currentSession).Some? ==>
        sessionDuration == FormatDuration(now - old(currentSession).value.entryTime)
      ensures currentSession == old(currentSession) && attendanceHistory == old(attendanceHistory)
      ensures shifts == old(shifts) && error == old(error) && simulatedSSID == old(simulatedSSID)
      ensures isAddingShift == old(isAddingShift)
    {
      sessionDuration := if currentSession.Some? then FormatDuration(now - currentSession.value.entryTime)
                         else sessionDuration;
      currentTime := now;
    }

    /** Choosing a network in the simulator; the selector is disabled while on duty.
        A change of network clears the error message. */
    method SelectNetwork(ssid: string)
      requires currentSession.None?
      modifies this
      ensures simulatedSSID == ssid
      ensures error == if ssid != old(simulatedSSID) then None else old(error)
      ensures currentSession == old(currentSession) && attendanceHistory == old(attendanceHistory)
      ensures shifts == old(shifts) && sessionDuration == old(sessionDuration)
      ensures currentTime == old(currentTime) && isAddingShift == old(isAddingShift)
    {
      if ssid != simulatedSSID {
        error := None;
      }
      simulatedSSID := ssid;
    }

    /** The auto-connect effect: with no network, no session and a known employee, join the
        first SSID of the employee's stores. */
    method AutoConnect()
      modifies this
      ensures var fires := old(simulatedSSID) == "" && old(currentSession).None? && employee.Some?;
        simulatedSSID == if fires && AutoConnectTarget(stores, employee).Some?
                         then AutoConnectTarget(stores, employee).value
                         else old(simulatedSSID)
      ensures error == if simulatedSSID != old(simulatedSSID) then None else old(error)
      ensures currentSession == old(currentSession) && attendanceHistory == old(attendanceHistory)
      ensures shifts == old(shifts) && sessionDuration == old(sessionDuration)
      ensures currentTime == old(currentTime) && isAddingShift == old(isAddingShift)
    {
      if simulatedSSID == "" && currentSession.None? && employee.Some? {
        var target := AutoConnectTarget(stores, employee);
        if target.Some? {
          SelectNetwork(target.value);
        }
      }
    }

    /** Clock-in. The button exists only while off duty. */
    method ClockIn(now: int)
      requires Valid()
      requires currentSession.None?
      modifies this
      ensures Valid()
      ensures match Authorize(stores, employee, simulatedSSID)
        case None =>
          error == Some(AccessDenied) && currentSession == None
        case Some(store) =>
          error == None &&
          currentSession == Some(Session("sess-" + Text.IntToString(now), user.id, store.id,
                                         now, None, 0, None))
      ensures attendanceHistory == old(attendanceHistory) && shifts == old(shifts)
      ensures sessionDuration == old(sessionDuration) && simulatedSSID == old(simulatedSSID)
      ensures currentTime == old(currentTime) && isAddingShift == old(isAddingShift)
    {
      error := None;
      var authorized := Authorize(stores, employee, simulatedSSID);
      if authorized.None? {
        error := Some(AccessDenied);
        return;
      }
      currentSession := Some(Session("sess-" + Text.IntToString(now), user.id,
                                     authorized.value.id, now, None, 0, None));
    }

    /** Clock-out: with an open session, close it at `now` and put it at the head of the
        history; otherwise nothing happens. */
    method ClockOut(now: int)
      requires Valid()
      modifies this
      ensures Valid()
      ensures old(currentSession).None? ==>
        attendanceHistory == old(attendanceHistory) && sessionDuration == old(sessionDuration)
        && currentSession == None
      ensures old(currentSession).Some? ==>
        attendanceHistory == [Close(old(currentSession).value, now)] + old(attendanceHistory)
        && currentSession == None && sessionDuration == "00:00"
      ensures shifts == old(shifts) && error == old(error) && simulatedSSID == old(simulatedSSID)
      ensures currentTime == old(currentTime) && isAddingShift == old(isAddingShift)
    {
      if currentSession.None? {
        return;
      }
      var completed := Close(currentSession.value, now);
      attendanceHistory := [completed] + attendanceHistory;
      currentSession := None;
      sessionDuration := "00:00";
    }

    /** Scheduling a shift from the form; only a form with date, start and end is saved. */
    method AddShift(date: string, startTime: string, endTime: string, now: int)
      requires Valid()
      modifies this
      ensures Valid()
      ensures date != "" && startTime != "" && endTime != "" ==>
        shifts == old(shifts) + [Shift("shift-" + Text.IntToString(now), user.id, date,
                                       startTime, endTime, Scheduled)]
        && !isAddingShift
      ensures !(date != "" && startTime != "" && endTime != "") ==>
        shifts == old(shifts) && isAddingShift == old(isAddingShift)
      ensures currentSession == old(currentSession) && attendanceHistory == old(attendanceHistory)
      ensures error == old(error) && simulatedSSID == old(simulatedSSID)
      ensures sessionDuration == old(sessionDuration) && currentTime == old(currentTime)
    {
      if date != "" && startTime != "" && endTime != "" {
        var shift := Shift("shift-" + Text.IntToString(now), user.id, date, startTime, endTime,
                           Scheduled);
        shifts := shifts + [shift];
        isAddingShift := false;
      }
    }

    /** Today's duration card: whole hours and the minutes left over of today's total. */
    function TodayDuration(): (r: (int, int))
      reads this
      ensures var total := TodayTotalMinutes(attendanceHistory, currentSession, currentTime);
        total >= 0 ==> 60 * r.0 + r.1 == total && 0 <= r.1 < 60
    {
      HoursAndMinutes(TodayTotalMinutes(attendanceHistory, currentSession, currentTime))
    }
  }
}
