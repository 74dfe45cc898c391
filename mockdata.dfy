// The fixture data of services/mockData.ts: the two demo users, three
// stores, three employees, the seeded presence events, two open sessions and
// two scheduled shifts. Values computed from the clock take the clock reading
// as a parameter.

module MockData {
  import opened Types
  import opened Seqs
  import Text

  const MockAdmin := UserProfile(
    "admin-001", "Issac Samuel Paul", "admin@techcorp.com", "Super Administrator",
    "https://api.dicebear.com/7.x/avataaars/svg?seed=Sarah", "tenant-alpha", "Alpha Retail Corp")

  const MockEmployeeUser := UserProfile(
    "emp-101", "Gouthami", "gouthami@example.com", "Store Manager",
    "https://api.dicebear.com/7.x/avataaars/svg?seed=Alice", "tenant-alpha", "Alpha Retail Corp")

  const DowntownFlagship := Store(
    "store-001", "tenant-alpha", "Downtown Flagship",
    ["Intelense_5G", "ShopNet_Staff", "ShopNet_Guest"],
    ["d8:b0:20:f4:14:3d", "aa:bb:cc:dd:ee:01", "aa:bb:cc:dd:ee:02"],
    -75,
    Some("https://images.unsplash.com/photo-1555679427-1f6dfcce943b?q=80&w=1000&auto=format&fit=crop"))

  const MallBoutique := Store(
    "store-002", "tenant-alpha", "Mall Boutique",
    ["Boutique_Secure"], ["11:22:33:44:55:66"], -80, None)

  const AirportKiosk := Store(
    "store-003", "tenant-alpha", "Airport Kiosk",
    ["Airport_Public", "Kiosk_Mgmt"], ["99:88:77:66:55:44"], -65, None)

  const MockStores: seq<Store> := [DowntownFlagship, MallBoutique, AirportKiosk]

  const Gouthami := Employee(
    "emp-101", "Gouthami", "gouthami@example.com", "Store Manager", ["store-001"],
    "https://api.dicebear.com/7.x/avataaars/svg?seed=Alice")

  const Spandana := Employee(
    "emp-102", "Spandana", "quack@example.com", "Auditor",
    ["store-001", "store-002", "store-003"],
    "https://api.dicebear.com/7.x/avataaars/svg?seed=Bob")

  const Syed := Employee(
    "emp-103", "Syed", "syed@example.com", "Assistant Manager", ["store-002"],
    "https://api.dicebear.com/7.x/avataaars/svg?seed=Charlie")

  const MockEmployees: seq<Employee> := [Gouthami, Spandana, Syed]

  /** The seeded sessions, both still open, as of the clock reading `now`. */
  function MockSessions(now: int): seq<Session>
  {
    [ Session("sess-1", "emp-101", "store-001", now - 7200000, None, 120, Some(Point(45, 40))),
      Session("sess-2", "emp-102", "store-002", now - 1800000, None, 30, Some(Point(80, 80))) ]
  }

  /** The seeded shifts, for the dates of today and tomorrow. */
  function MockShifts(today: string, tomorrow: string): seq<Shift>
  {
    [ Shift("shift-1", "emp-101", today, "09:00", "17:00", Scheduled),
      Shift("shift-2", "emp-101", tomorrow, "10:00", "18:00", Scheduled) ]
  }

  /** Gouthami enters the flagship two hours ago. */
  function FirstEntry(now: int): PresenceEvent
  {
    PresenceEvent("evt-1", "emp-101", "store-001", Entry, now - 7200000, "ShopNet_Staff",
                  "aa:bb:cc:dd:ee:01", -55, Some(Point(20, 30)))
  }

  /** Heartbeat `i` of Gouthami, every fifteen minutes from her entry; `noise` is the random
      part of the signal strength, a whole number from 0 to 9. */
  function HeartbeatEvent(now: int, i: nat, noise: int): PresenceEvent
  {
    PresenceEvent("evt-1-hb-" + Text.IntToString(i), "emp-101", "store-001", Heartbeat,
                  now - 7200000 + i * 900000, "ShopNet_Staff", "aa:bb:cc:dd:ee:01",
                  -58 + noise, Some(Point(20 + i * 5, 30 + i * 2)))
  }

  /** Spandana enters the boutique thirty minutes ago. */
  function SecondEntry(now: int): PresenceEvent
  {
    PresenceEvent("evt-2", "emp-102", "store-002", Entry, now - 1800000, "Boutique_Secure",
                  "11:22:33:44:55:66", -62, Some(Point(80, 80)))
  }

  /** The first `n` heartbeats. */
  function Heartbeats(now: int, noise: seq<int>, n: nat): (r: seq<PresenceEvent>)
    requires n <= |noise|
    ensures |r| == n
  {
    seq(n, i requires 0 <= i < n => HeartbeatEvent(now, i, noise[i]))
  }

  /** The events in the order the generator pushes them. */
  function PushedEvents(now: int, noise: seq<int>): seq<PresenceEvent>
    requires |noise| == 5
  {
    [FirstEntry(now)] + Heartbeats(now, noise, 5) + [SecondEntry(now)]
  }

  /** Timestamps never increase from one event to the next. */
  ghost predicate NewestFirst(s: seq<PresenceEvent>)
  {
    forall i, j :: 0 <= i < j < |s| ==> s[i].timestamp >= s[j].timestamp
  }

  /** Puts `e` before the first event that is not newer than it. */
  function Insert(e: PresenceEvent, s: seq<PresenceEvent>): (r: seq<PresenceEvent>)
    ensures |r| == |s| + 1
    ensures r[0] == if s == [] || e.timestamp >= s[0].timestamp then e else s[0]
  {
    if s == [] || e.timestamp >= s[0].timestamp then
      [e] + s
    else
      [s[0]] + Insert(e, s[1..])
  }

  /** Inserting adds the event and loses nothing. */
  lemma {:induction false} InsertPermutes(e: PresenceEvent, s: seq<PresenceEvent>)
    ensures multiset(Insert(e, s)) == multiset(s) + multiset{e}
  {
    if s != [] && e.timestamp < s[0].timestamp {
      InsertPermutes(e, s[1..]);
      assert s == [s[0]] + s[1..];
    }
  }

  /** Inserting into events no newer than `b` an event no newer than `b` keeps them so. */
  lemma {:induction false} InsertBounded(e: PresenceEvent, s: seq<PresenceEvent>, b: int)
    requires e.timestamp <= b
    requires forall k :: 0 <= k < |s| ==> s[k].timestamp <= b
    ensures forall k :: 0 <= k < |s| + 1 ==> Insert(e, s)[k].timestamp <= b
  {
    if s != [] && e.timestamp < s[0].timestamp {
      InsertBounded(e, s[1..], b);
    }
  }

  lemma {:induction false} InsertNewestFirst(e: PresenceEvent, s: seq<PresenceEvent>)
    requires NewestFirst(s)
    ensures NewestFirst(Insert(e, s))
  {
    if s != [] && e.timestamp < s[0].timestamp {
      var t := Insert(e, s[1..]);
      InsertNewestFirst(e, s[1..]);
      InsertBounded(e, s[1..], s[0].timestamp);
      var r := [s[0]] + t;
      assert r == Insert(e, s);
      assert forall j :: 0 < j < |r| ==> r[j] == t[j - 1];
    }
  }

  /** The stable sort by descending timestamp that `events.sort((a, b) => b - a)` performs:
      events with equal timestamps keep their order. */
  function SortNewestFirst(s: seq<PresenceEvent>): (r: seq<PresenceEvent>)
    ensures NewestFirst(r)
    ensures multiset(r) == multiset(s)
  {
    if s == [] then []
    else
      var t := SortNewestFirst(s[1..]);
      InsertNewestFirst(s[0], t);
      InsertPermutes(s[0], t);
      HeadTail(s);
      Insert(s[0], t)
  }

  /** An event older than every event of `a` goes after all of them. */
  lemma {:induction false} InsertBehind(e: PresenceEvent, a: seq<PresenceEvent>, b: seq<PresenceEvent>)
    requires forall k :: 0 <= k < |a| ==> a[k].timestamp > e.timestamp
    ensures Insert(e, a + b) == a + Insert(e, b)
  {
    if a != [] {
      var ab := a + b;
      assert ab[0] == a[0] && ab[1..] == a[1..] + b;
      assert Insert(e, ab) == [a[0]] + Insert(e, a[1..] + b);
      InsertBehind(e, a[1..], b);
      assert [a[0]] + (a[1..] + Insert(e, b)) == a + Insert(e, b);
    } else {
      assert a + b == b;
    }
  }

  /** An event older than every event of `a` goes at its end. */
  lemma InsertLast(e: PresenceEvent, a: seq<PresenceEvent>)
    requires forall k :: 0 <= k < |a| ==> a[k].timestamp > e.timestamp
    ensures Insert(e, a) == a + [e]
  {
    InsertBehind(e, a, []);
    assert a + [] == a;
  }

  lemma {:induction false} SortCons(x: PresenceEvent, s: seq<PresenceEvent>)
    ensures SortNewestFirst([x] + s) == Insert(x, SortNewestFirst(s))
  {
    assert ([x] + s)[1..] == s;
  }

  /** Timestamps strictly increase from one event to the next. */
  ghost predicate OldestFirstStrict(s: seq<PresenceEvent>)
  {
    forall i, j :: 0 <= i < j < |s| ==> s[i].timestamp < s[j].timestamp
  }

  function Reversed(s: seq<PresenceEvent>): (r: seq<PresenceEvent>)
    ensures |r| == |s|
    ensures forall k :: 0 <= k < |s| ==> r[k] == s[|s| - 1 - k]
  {
    if s == [] then [] else Reversed(s[1..]) + [s[0]]
  }

  lemma RisingTail(s: seq<PresenceEvent>)
    requires s != [] && OldestFirstStrict(s)
    ensures OldestFirstStrict(s[1..])
  {
    var t := s[1..];
    forall i, j | 0 <= i < j < |t| ensures t[i].timestamp < t[j].timestamp {
      assert t[i] == s[i + 1] && t[j] == s[j + 1];
    }
  }

  /** In a strictly rising run, every later event is newer than the first. */
  lemma RisingTailAbove(s: seq<PresenceEvent>)
    requires s != [] && OldestFirstStrict(s)
    ensures forall k :: 0 <= k < |s| - 1 ==> Reversed(s[1..])[k].timestamp > s[0].timestamp
  {
    var t := s[1..];
    forall k | 0 <= k < |t| ensures Reversed(t)[k].timestamp > s[0].timestamp {
      assert Reversed(t)[k] == s[|t| - k];
    }
  }

  lemma ReversedInit(s: seq<PresenceEvent>)
    requires s != []
    ensures Reversed(s)[..|s| - 1] == Reversed(s[1..])
    ensures Reversed(s) == Reversed(s[1..]) + [s[0]]
  {
  }

  /** Events that arrive strictly oldest first come out of the sort reversed. */
  lemma {:induction false} SortStrictlyRising(s: seq<PresenceEvent>)
    requires OldestFirstStrict(s)
    ensures SortNewestFirst(s) == Reversed(s)
  {
    if s != [] {
      var t := s[1..];
      RisingTail(s);
      SortStrictlyRising(t);
      RisingTailAbove(s);
      InsertLast(s[0], Reversed(t));
    }
  }

  /** An event tied with the oldest of a strictly rising run sorts just ahead of it. */
  lemma {:induction false} SortTiedAhead(e: PresenceEvent, s: seq<PresenceEvent>)
    requires s != [] && OldestFirstStrict(s) && e.timestamp == s[0].timestamp
    ensures SortNewestFirst([e] + s) == Reversed(s)[..|s| - 1] + [e, s[0]]
  {
    var a := Reversed(s[1..]);
    SortCons(e, s);
    SortStrictlyRising(s);
    RisingTailAbove(s);
    InsertBehind(e, a, [s[0]]);
    assert Insert(e, [s[0]]) == [e, s[0]];
    ReversedInit(s);
  }

  /** The events pushed after the first entry: the heartbeats, then the second entry. */
  function LaterEvents(now: int, noise: seq<int>): (r: seq<PresenceEvent>)
    requires |noise| == 5
    ensures |r| == 6
  {
    Heartbeats(now, noise, 5) + [SecondEntry(now)]
  }

  /** The later events arrive strictly oldest first. */
  lemma LaterEventsRising(now: int, noise: seq<int>)
    requires |noise| == 5
    ensures OldestFirstStrict(LaterEvents(now, noise))
  {
    var rest := LaterEvents(now, noise);
    assert forall k :: 0 <= k < 5 ==> rest[k].timestamp == now - 7200000 + k * 900000;
    assert rest[5].timestamp == now - 1800000;
  }

  lemma LaterEventsReversed(now: int, noise: seq<int>)
    requires |noise| == 5
    ensures Reversed(LaterEvents(now, noise))[..5] ==
      [SecondEntry(now), HeartbeatEvent(now, 4, noise[4]), HeartbeatEvent(now, 3, noise[3]),
       HeartbeatEvent(now, 2, noise[2]), HeartbeatEvent(now, 1, noise[1])]
  {
  }

  /** The seeded events come out newest first: the second entry, the heartbeats from the last
      to the second, then the first entry ahead of the heartbeat that shares its timestamp. */
  lemma MockEventsOrder(now: int, noise: seq<int>)
    requires |noise| == 5
    ensures SortNewestFirst(PushedEvents(now, noise)) ==
      [SecondEntry(now), HeartbeatEvent(now, 4, noise[4]), HeartbeatEvent(now, 3, noise[3]),
       HeartbeatEvent(now, 2, noise[2]), HeartbeatEvent(now, 1, noise[1]), FirstEntry(now),
       HeartbeatEvent(now, 0, noise[0])]
  {
    var e1 := FirstEntry(now);
    var rest := LaterEvents(now, noise);
    assert PushedEvents(now, noise) == [e1] + rest;
    LaterEventsRising(now, noise);
    assert e1.timestamp == rest[0].timestamp;
    SortTiedAhead(e1, rest);
    LaterEventsReversed(now, noise);
  }

  /** The generator yields seven events: the two entries and five heartbeats. */
  lemma MockEventsCount(now: int, noise: seq<int>)
    requires |noise| == 5
    ensures |SortNewestFirst(PushedEvents(now, noise))| == 7
  {
    var p := PushedEvents(now, noise);
    assert |multiset(SortNewestFirst(p))| == |multiset(p)| == |p|;
  }

  /** generateMockEvents: push the entry, five heartbeats and the second entry, then sort. */
  method GenerateMockEvents(now: int, noise: seq<int>) returns (events: seq<PresenceEvent>)
    requires |noise| == 5 && forall k :: 0 <= k < 5 ==> 0 <= noise[k] < 10
    ensures events == SortNewestFirst(PushedEvents(now, noise))
    ensures |events| == 7
  {
    events := [FirstEntry(now)];
    for i := 0 to 5
      invariant events == [FirstEntry(now)] + Heartbeats(now, noise, i)
    {
      assert Heartbeats(now, noise, i + 1) == Heartbeats(now, noise, i) + [HeartbeatEvent(now, i, noise[i])];
      events := events + [HeartbeatEvent(now, i, noise[i])];
    }
    events := events + [SecondEntry(now)];
    events := SortNewestFirst(events);
    MockEventsCount(now, noise);
  }
}
