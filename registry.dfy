// The application shell (App.tsx): the in-memory store and employee
// registries, the live event buffer, sign-in and sign-out, and the choice of
// screen for the signed-in user.

module Registry {
  import opened Types
  import opened Seqs
  import Text
  import MockData
  import StoreForm

  datatype View = DashboardView | StoresView | EmployeesView | SettingsView | ProfileView

  /** What the shell shows: the sign-in form, the employee portal, or the admin console. */
  datatype Screen =
    | LoginScreen
    | PortalScreen(user: UserProfile, employee: Option<Employee>)
    | AdminScreen(view: View)

  /** `[...stores, newStore]`: the new store goes last and every other store stays put. */
  function AppendStore(stores: seq<Store>, s: Store): (r: seq<Store>)
    ensures |r| == |stores| + 1 && r[|stores|] == s
    ensures forall i :: 0 <= i < |stores| ==> r[i] == stores[i]
  {
    stores + [s]
  }

  /** `stores.map(s => s.id === u.id ? u : s)`. */
  function ReplaceStore(stores: seq<Store>, u: Store): (r: seq<Store>)
    ensures |r| == |stores|
    ensures forall i :: 0 <= i < |stores| ==>
      (stores[i].id == u.id ==> r[i] == u) && (stores[i].id != u.id ==> r[i] == stores[i])
  {
    Map((s: Store) => if s.id == u.id then u else s, stores)
  }

  function StoreId(s: Store): string { s.id }

  /** `stores.filter(s => s.id !== id)`. */
  function RemoveStore(stores: seq<Store>, id: string): (r: seq<Store>)
    ensures forall s :: s in r <==> s in stores && s.id != id
    ensures IsSubsequence(r, stores)
    ensures forall s :: multiset(r)[s] == if s.id != id then multiset(stores)[s] else 0
  {
    FilterCount((s: Store) => s.id != id, stores);
    Filter((s: Store) => s.id != id, stores)
  }

  /** `employees.filter(e => e.id !== id)`. */
  function RemoveEmployee(employees: seq<Employee>, id: string): (r: seq<Employee>)
    ensures forall e :: e in r <==> e in employees && e.id != id
    ensures IsSubsequence(r, employees)
    ensures forall e :: multiset(r)[e] == if e.id != id then multiset(employees)[e] else 0
  {
    FilterCount((e: Employee) => e.id != id, employees);
    Filter((e: Employee) => e.id != id, employees)
  }

  /** An update keeps the list of ids exactly as it was. */
  lemma ReplaceKeepsIds(stores: seq<Store>, u: Store)
    ensures Map(StoreId, ReplaceStore(stores, u)) == Map(StoreId, stores)
  {
  }

  /** An update with an id that no store has changes nothing. */
  lemma {:induction false} ReplaceAbsent(stores: seq<Store>, u: Store)
    requires forall i :: 0 <= i < |stores| ==> stores[i].id != u.id
    ensures ReplaceStore(stores, u) == stores
  {
    var r := ReplaceStore(stores, u);
    assert forall i :: 0 <= i < |stores| ==> r[i] == stores[i];
  }

  /** Applying the same update twice is applying it once. */
  lemma {:induction false} ReplaceIdempotent(stores: seq<Store>, u: Store)
    ensures ReplaceStore(ReplaceStore(stores, u), u) == ReplaceStore(stores, u)
  {
    var r := ReplaceStore(stores, u);
    var rr := ReplaceStore(r, u);
    forall i | 0 <= i < |stores| ensures rr[i] == r[i] {
      assert r[i].id == stores[i].id;
    }
  }

  /** Deleting a store removes exactly the stores with that id: nothing is left to find. */
  lemma {:induction false} RemoveStoreGone(stores: seq<Store>, id: string)
    ensures Find((s: Store) => s.id == id, RemoveStore(stores, id)).None?
  {
    var r := RemoveStore(stores, id);
    assert forall i :: 0 <= i < |r| ==> r[i] in r;
  }

  /** Deleting an id that no store has changes nothing. */
  lemma {:induction false} RemoveStoreAbsent(stores: seq<Store>, id: string)
    requires forall i :: 0 <= i < |stores| ==> stores[i].id != id
    ensures RemoveStore(stores, id) == stores
  {
    FilterAllPass((s: Store) => s.id != id, stores);
  }

  /** Deleting twice is deleting once. */
  lemma RemoveStoreIdempotent(stores: seq<Store>, id: string)
    ensures RemoveStore(RemoveStore(stores, id), id) == RemoveStore(stores, id)
  {
    FilterIdempotent((s: Store) => s.id != id, stores);
  }

  /** Adding a store and deleting its id is deleting that id from the old list. */
  lemma AppendThenRemove(stores: seq<Store>, s: Store)
    ensures RemoveStore(AppendStore(stores, s), s.id) == RemoveStore(stores, s.id)
  {
    var p := (x: Store) => x.id != s.id;
    FilterAppend(p, stores, [s]);
    assert Filter(p, [s]) == [];
    assert Filter(p, stores) + [] == Filter(p, stores);
  }

  /** Deleting a store after updating it is deleting it. */
  lemma {:induction false} ReplaceThenRemove(stores: seq<Store>, u: Store)
    ensures RemoveStore(ReplaceStore(stores, u), u.id) == RemoveStore(stores, u.id)
  {
    if stores != [] {
      var p := (x: Store) => x.id != u.id;
      var r := ReplaceStore(stores, u);
      ReplaceThenRemove(stores[1..], u);
      assert r[1..] == ReplaceStore(stores[1..], u);
      assert Filter(p, r) == (if p(r[0]) then [r[0]] else []) + Filter(p, r[1..]);
      assert Filter(p, stores) == (if p(stores[0]) then [stores[0]] else []) + Filter(p, stores[1..]);
    }
  }

  /** Opening a registered store in the form and saving it untouched leaves the registry as it
      was, when no other store shares its id. */
  lemma EditUnchangedKeepsStores(stores: seq<Store>, i: nat, freshId: string)
    requires i < |stores| && stores[i].id != "" && StoreForm.Resubmittable(stores[i])
    requires forall j :: 0 <= j < |stores| && stores[j].id == stores[i].id ==> j == i
    ensures var s := stores[i];
      var sub := StoreForm.SubmissionFor(Some(s.id), StoreForm.FormData(s.name, s.rssiThreshold, s.floorPlanUrl),
                                         StoreForm.PrintList(s.ssids), StoreForm.PrintList(s.bssids), freshId);
      sub.UpdateRequest? && ReplaceStore(stores, sub.store) == stores
  {
    var s := stores[i];
    StoreForm.EditRoundTrip(s);
    var r := ReplaceStore(stores, s);
    assert forall j :: 0 <= j < |stores| ==> r[j] == stores[j];
  }

  /** `[newEvent, ...prev].slice(0, 50)`: the new event first, then the newest of the others. */
  function PrependCapped(e: PresenceEvent, events: seq<PresenceEvent>): (r: seq<PresenceEvent>)
    ensures |r| == Min(|events| + 1, 50)
    ensures r[0] == e
    ensures forall i :: 1 <= i < |r| ==> r[i] == events[i - 1]
  {
    ([e] + events)[..Min(|events| + 1, 50)]
  }

  /** While the buffer has room nothing is dropped; once full, only the oldest event goes. */
  lemma PrependCappedDrops(e: PresenceEvent, events: seq<PresenceEvent>)
    ensures |events| < 50 ==> PrependCapped(e, events) == [e] + events
    ensures |events| == 50 ==> PrependCapped(e, events) == [e] + events[..49]
  {
    var r := PrependCapped(e, events);
    if |events| < 50 {
      assert forall i :: 0 <= i < |r| ==> r[i] == ([e] + events)[i];
    } else if |events| == 50 {
      assert forall i :: 0 <= i < |r| ==> r[i] == ([e] + events[..49])[i];
    }
  }

  /** A fresh event from the live simulator: emp-101's phone at the flagship, either leaving
      (`isExit`, the one-in-twenty chance) or sending a heartbeat. `rssiOffset` is the random
      whole number from 0 to 9 added to the base signal of -60. */
  function LiveEvent(now: int, isExit: bool, rssiOffset: int, x: int, y: int): (e: PresenceEvent)
    ensures e.employeeId == "emp-101" && e.storeId == "store-001" && e.timestamp == now
    ensures e.eventType == (if isExit then Exit else Heartbeat)
    ensures 0 <= rssiOffset < 10 ==> -60 <= e.rssi < -50
  {
    PresenceEvent("evt-live-" + Text.IntToString(now), "emp-101", "store-001",
                  if isExit then Exit else Heartbeat, now, "ShopNet_Staff",
                  "aa:bb:cc:dd:ee:01", -60 + rssiOffset, Some(Point(x, y)))
  }

  /** The screen for the shell's state: the sign-in form until signed in; the portal, with the
      employee whose id is the user's, for anyone who is not a super administrator; otherwise
      the admin console on the current view. */
  function Route(isAuthenticated: bool, user: Option<UserProfile>, employees: seq<Employee>,
                 view: View): (r: Screen)
    ensures r.LoginScreen? <==> !isAuthenticated
    ensures r.PortalScreen? <==>
      isAuthenticated && user.Some? && user.value.role != "Super Administrator"
    ensures r.PortalScreen? ==> r.user == user.value
    ensures r.PortalScreen? && r.employee.Some? ==>
      r.employee.value in employees && r.employee.value.id == r.user.id
    ensures r.PortalScreen? && r.employee.Some? ==>
      exists k :: 0 <= k < |employees| && employees[k] == r.employee.value &&
        forall j :: 0 <= j < k ==> employees[j].id != r.user.id
    ensures r.PortalScreen? && r.employee.None? ==>
      forall i :: 0 <= i < |employees| ==> employees[i].id != r.user.id
    ensures r.AdminScreen? ==> r.view == view
  {
    if !isAuthenticated then LoginScreen
    else if user.Some? && user.value.role != "Super Administrator" then
      var found := Find((e: Employee) => e.id == user.value.id, employees);
      PortalScreen(user.value, found)
    else AdminScreen(view)
  }

  /** The shell's state. */
  class App {
    var isAuthenticated: bool
    var user: Option<UserProfile>
    var currentView: View
    var stores: seq<Store>
    var employees: seq<Employee>
    var events: seq<PresenceEvent>
    const sessions: seq<Session>

    /** A user is present exactly while signed in, and it is one of the two demo users; the
        live feed never holds more than fifty events. */
    ghost predicate Valid()
      reads this
    {
      && (isAuthenticated <==> user.Some?)
      && (user.Some? ==> user.value == MockData.MockAdmin || user.value == MockData.MockEmployeeUser)
      && |events| <= 50
    }

    /** The shell as it loads: signed out, on the dashboard, over the fixture lists; `loadTime`
        is the clock reading when the fixtures were built. */
    constructor (loadTime: int)
      ensures Valid()
      ensures !isAuthenticated && user == None && currentView == DashboardView
      ensures stores == MockData.MockStores && employees == MockData.MockEmployees
      ensures events == [] && sessions == MockData.MockSessions(loadTime)
    {
      isAuthenticated := false;
      user := None;
      currentView := DashboardView;
      stores := MockData.MockStores;
      employees := MockData.MockEmployees;
      events := [];
      sessions := MockData.MockSessions(loadTime);
    }

    function Screen(): Screen
      reads this
    {
      Route(isAuthenticated, user, employees, currentView)
    }

    /** Sign-in from the form in `mode`. Becoming signed in loads the seeded events, with
        `now` the clock reading and `noise` the random signal offsets of the heartbeats. */
    method Login(mode: LoginMode, now: int, noise: seq<int>)
      requires Valid()
      requires |noise| == 5 && forall k :: 0 <= k < 5 ==> 0 <= noise[k] < 10
      modifies this
      ensures Valid()
      ensures isAuthenticated
      ensures user == Some(if mode == AdminMode then MockData.MockAdmin else MockData.MockEmployeeUser)
      ensures events == if old(isAuthenticated) then old(events)
                        else MockData.SortNewestFirst(MockData.PushedEvents(now, noise))
      ensures stores == old(stores) && employees == old(employees)
      ensures currentView == old(currentView)
    {
      if !isAuthenticated {
        events := MockData.GenerateMockEvents(now, noise);
      }
      isAuthenticated := true;
      user := Some(if mode == AdminMode then MockData.MockAdmin else MockData.MockEmployeeUser);
    }

    /** Sign-out: no user, back to the dashboard view; the lists and events stay. */
    method Logout()
      requires Valid()
      modifies this
      ensures Valid()
      ensures !isAuthenticated && user == None && currentView == DashboardView
      ensures stores == old(stores) && employees == old(employees) && events == old(events)
    {
      isAuthenticated := false;
      user := None;
      currentView := DashboardView;
    }

    method Navigate(view: View)
      requires Valid()
      modifies this
      ensures Valid()
      ensures currentView == view
      ensures isAuthenticated == old(isAuthenticated) && user == old(user)
      ensures stores == old(stores) && employees == old(employees) && events == old(events)
    {
      currentView := view;
    }

    method AddStore(s: Store)
      modifies this
      ensures stores == AppendStore(old(stores), s)
      ensures isAuthenticated == old(isAuthenticated) && user == old(user)
      ensures currentView == old(currentView)
      ensures employees == old(employees) && events == old(events)
    {
      stores := stores + [s];
    }

    method UpdateStore(s: Store)
      modifies this
      ensures stores == ReplaceStore(old(stores), s)
      ensures isAuthenticated == old(isAuthenticated) && user == old(user)
      ensures currentView == old(currentView)
      ensures employees == old(employees) && events == old(events)
    {
      stores := ReplaceStore(stores, s);
    }

    method DeleteStore(id: string)
      modifies this
      ensures stores == RemoveStore(old(stores), id)
      ensures isAuthenticated == old(isAuthenticated) && user == old(user)
      ensures currentView == old(currentView)
      ensures employees == old(employees) && events == old(events)
    {
      stores := RemoveStore(stores, id);
    }

    /** What the store form's save hands to the shell: `onUpdateStore` for an edit,
        `onAddStore` for a new store. */
    method ApplySubmission(sub: StoreForm.Submission)
      modifies this
      ensures stores == match sub
        case AddRequest(s) => AppendStore(old(stores), s)
        case UpdateRequest(s) => ReplaceStore(old(stores), s)
      ensures isAuthenticated == old(isAuthenticated) && user == old(user)
      ensures currentView == old(currentView)
      ensures employees == old(employees) && events == old(events)
    {
      match sub
      case AddRequest(s) => AddStore(s);
      case UpdateRequest(s) => UpdateStore(s);
    }

    /** Removing an employee happens only once the user confirms it. */
    method DeleteEmployee(id: string, confirmed: bool)
      modifies this
      ensures employees == if confirmed then RemoveEmployee(old(employees), id) else old(employees)
      ensures isAuthenticated == old(isAuthenticated) && user == old(user)
      ensures currentView == old(currentView)
      ensures stores == old(stores) && events == old(events)
    {
      if confirmed {
        employees := RemoveEmployee(employees, id);
      }
    }

    /** One beat of the five-second live timer, which runs only while signed in. */
    method LiveTick(e: PresenceEvent)
      requires Valid() && isAuthenticated
      modifies this
      ensures Valid()
      ensures events == PrependCapped(e, old(events))
      ensures isAuthenticated == old(isAuthenticated) && user == old(user)
      ensures currentView == old(currentView)
      ensures stores == old(stores) && employees == old(employees)
    {
      events := PrependCapped(e, events);
    }
  }
}
