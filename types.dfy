// The records of the presence-tracking dashboard (types.ts).
// Timestamps are integer milliseconds since the epoch; every ISO string the
// application stores is represented by the instant it encodes.

module Types {

  datatype Option<+T> = None | Some(value: T)

  datatype EventType = Entry | Heartbeat | Exit

  /** The two sign-in forms, and the kind of user each one signs in. */
  datatype LoginMode = AdminMode | EmployeeMode

  datatype ShiftStatus = Scheduled | Completed | Cancelled

  /** A position on a floor plan, in percent of its width and height. */
  datatype Point = Point(x: int, y: int)

  /** The signed-in user, as the login screen hands it to the application. */
  datatype UserProfile = UserProfile(
    id: string,
    name: string,
    email: string,
    role: string,
    avatarUrl: string,
    tenantId: string,
    tenantName: string)

  /** A store and the Wi-Fi networks that prove presence in it. */
  datatype Store = Store(
    id: string,
    tenantId: string,
    name: string,
    ssids: seq<string>,
    bssids: seq<string>,
    rssiThreshold: int,
    floorPlanUrl: Option<string>)

  /** An employee; `assignedStoreIds` may name stores that no longer exist. */
  datatype Employee = Employee(
    id: string,
    name: string,
    email: string,
    role: string,
    assignedStoreIds: seq<string>,
    avatarUrl: string)

  datatype PresenceEvent = PresenceEvent(
    id: string,
    employeeId: string,
    storeId: string,
    eventType: EventType,
    timestamp: int,
    ssid: string,
    bssid: string,
    rssi: int,
    location: Option<Point>)

  /** An attendance session; it is open while `exitTime` is absent. */
  datatype Session = Session(
    id: string,
    employeeId: string,
    storeId: string,
    entryTime: int,
    exitTime: Option<int>,
    dwellMinutes: int,
    lastKnownLocation: Option<Point>)
  {
    predicate IsOpen() { exitTime.None? }
  }

  datatype Shift = Shift(
    id: string,
    employeeId: string,
    date: string,
    startTime: string,
    endTime: string,
    status: ShiftStatus)
}
