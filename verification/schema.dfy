/** The record shapes of the registry's four tables, the three enumerations and their
    string literals, the authorization gate every handler opens with, and the invariants
    the handlers keep. */
module Schema {
  import opened Common
  import opened Db

  /** `ROLES`: the three roles a user may hold. */
  datatype Role = AdminRole | StaffRole | UserRole

  function RoleLiteral(r: Role): string {
    match r
    case AdminRole => "admin"
    case StaffRole => "staff"
    case UserRole => "user"
  }

  /** `roleValidator`: accepts exactly the three role literals. */
  function ParseRole(s: string): (r: Option<Role>)
    ensures r.Some? ==> RoleLiteral(r.value) == s
    ensures forall role: Role :: s == RoleLiteral(role) ==> r == Some(role)
  {
    if s == "admin" then Some(AdminRole)
    else if s == "staff" then Some(StaffRole)
    else if s == "user" then Some(UserRole)
    else None
  }

  /** `VEHICLE_STATUS`. */
  datatype VehicleStatus = Registered | Pending | Blocked

  function VehicleStatusLiteral(v: VehicleStatus): string {
    match v
    case Registered => "registered"
    case Pending => "pending"
    case Blocked => "blocked"
  }

  /** `vehicleStatusValidator`: accepts exactly the three status literals. */
  function ParseVehicleStatus(s: string): (r: Option<VehicleStatus>)
    ensures r.Some? ==> VehicleStatusLiteral(r.value) == s
    ensures forall v: VehicleStatus :: s == VehicleStatusLiteral(v) ==> r == Some(v)
  {
    if s == "registered" then Some(Registered)
    else if s == "pending" then Some(Pending)
    else if s == "blocked" then Some(Blocked)
    else None
  }

  /** `PARKING_STATUS`; no handler ever sets `InViolation` ("violation"). */
  datatype ParkingStatus = Active | Completed | InViolation

  function ParkingStatusLiteral(p: ParkingStatus): string {
    match p
    case Active => "active"
    case Completed => "completed"
    case InViolation => "violation"
  }

  /** `parkingStatusValidator`: accepts exactly the three session status literals. */
  function ParseParkingStatus(s: string): (r: Option<ParkingStatus>)
    ensures r.Some? ==> ParkingStatusLiteral(r.value) == s
    ensures forall p: ParkingStatus :: s == ParkingStatusLiteral(p) ==> r == Some(p)
  {
    if s == "active" then Some(Active)
    else if s == "completed" then Some(Completed)
    else if s == "violation" then Some(InViolation)
    else None
  }

  /** User ids are strings; the seed writes a placeholder that names no user. */
  type UserId = string

  /** A `users` document as the identity lookup resolves it; the role is optional. */
  datatype User = User(
    id: UserId,
    name: Option<string>,
    email: Option<string>,
    role: Option<Role>,
    phone: Option<string>,
    department: Option<string>)

  /** A `vehicles` record. The status is the stored string: schema validation is off and
      `updateVehicleStatus` writes whatever string it is given. */
  datatype Vehicle = Vehicle(
    licensePlate: string,
    ownerName: string,
    ownerEmail: string,
    ownerPhone: string,
    vehicleModel: string,
    vehicleColor: string,
    status: string,
    registeredBy: UserId,
    notes: Option<string>)

  /** A `parkingSessions` record; `entryTime` is always present, `exitTime` optional. */
  datatype ParkingSession = ParkingSession(
    vehicleId: Id,
    licensePlate: string,
    entryTime: nat,
    exitTime: Option<nat>,
    status: ParkingStatus,
    location: string,
    staffId: Option<UserId>,
    notes: Option<string>)

  /** A `violations` record; the vehicle link and the resolution fields are optional. */
  datatype Violation = Violation(
    vehicleId: Option<Id>,
    licensePlate: string,
    violationType: string,
    description: string,
    location: string,
    reportedBy: UserId,
    resolved: bool,
    resolvedBy: Option<UserId>,
    resolvedAt: Option<nat>)

  /** The three tables the handlers read and write. */
  datatype Store = Store(
    vehicles: Table<Vehicle>,
    sessions: Table<ParkingSession>,
    violations: Table<Violation>)

  const EmptyStore := Store([], [], [])

  /** The gate at the top of every handler: a resolved caller whose role is staff or admin. */
  predicate IsStaffOrAdmin(caller: Option<User>) {
    caller.Some? && (caller.value.role == Some(StaffRole) || caller.value.role == Some(AdminRole))
  }

  /** The gate as the handlers use it: the caller to act as, or Unauthorized. */
  function Authorize(caller: Option<User>): (r: Result<User>)
    ensures r.Ok? <==> caller.Some? && caller.value.role in {Some(StaffRole), Some(AdminRole)}
    ensures r.Ok? ==> r.value == caller.value
    ensures r.Err? ==> r.error == Unauthorized
  {
    if IsStaffOrAdmin(caller) then Ok(caller.value) else Err(Unauthorized)
  }

  function PlateIs(plate: string): Doc<Vehicle> -> bool {
    (d: Doc<Vehicle>) => d.value.licensePlate == plate
  }

  /** The `by_license_plate` lookup on vehicles. */
  function VehiclesWithPlate(vs: Table<Vehicle>, plate: string): seq<Doc<Vehicle>> {
    Filter(vs, PlateIs(plate))
  }

  predicate PlateRegistered(vs: Table<Vehicle>, plate: string) {
    exists i :: 0 <= i < |vs| && vs[i].value.licensePlate == plate
  }

  /** The plate lookup comes back empty exactly when no vehicle has the plate. */
  lemma PlateLookupEmpty(vs: Table<Vehicle>, plate: string)
    ensures |VehiclesWithPlate(vs, plate)| == 0 <==> !PlateRegistered(vs, plate)
  {
    var m := VehiclesWithPlate(vs, plate);
    if PlateRegistered(vs, plate) {
      var i :| 0 <= i < |vs| && vs[i].value.licensePlate == plate;
      assert vs[i] in m;
    }
  }

  /** Plates are unique across vehicles. */
  predicate UniquePlates(s: Store) {
    forall i, j :: 0 <= i < j < |s.vehicles| ==>
      s.vehicles[i].value.licensePlate != s.vehicles[j].value.licensePlate
  }

  /** With unique plates the plate lookup matches at most one vehicle. */
  lemma UniquePlatesLookup(s: Store, plate: string)
    ensures UniquePlates(s) ==> |VehiclesWithPlate(s.vehicles, plate)| <= 1
  {
    if UniquePlates(s) {
      FilterAtMostOne(s.vehicles, PlateIs(plate));
    }
  }

  function ActiveWithPlate(plate: string): Doc<ParkingSession> -> bool {
    (d: Doc<ParkingSession>) => d.value.licensePlate == plate && d.value.status == Active
  }

  /** The `by_license_plate` lookup on sessions narrowed to status "active". */
  function ActiveSessionsWithPlate(ss: Table<ParkingSession>, plate: string): seq<Doc<ParkingSession>> {
    Filter(ss, ActiveWithPlate(plate))
  }

  /** Every active session carrying the plate is found by the active-session lookup, so
      the lookup is empty exactly when no session with the plate is active. */
  lemma ActiveLookupFinds(ss: Table<ParkingSession>, plate: string)
    ensures forall i :: 0 <= i < |ss| && ss[i].value.status == Active && ss[i].value.licensePlate == plate ==>
              ss[i] in ActiveSessionsWithPlate(ss, plate)
    ensures |ActiveSessionsWithPlate(ss, plate)| == 0 <==>
              !exists i :: 0 <= i < |ss| && ss[i].value.status == Active && ss[i].value.licensePlate == plate
  {
    var m := ActiveSessionsWithPlate(ss, plate);
    if |m| > 0 {
      assert m[0] in m;
      var i :| 0 <= i < |ss| && ss[i] == m[0];
      assert ss[i].value.status == Active && ss[i].value.licensePlate == plate;
    }
  }

  /** At most one session per plate is active. */
  predicate SingleActive(s: Store) {
    forall i, j ::
      0 <= i < j < |s.sessions| && s.sessions[i].value.status == Active && s.sessions[j].value.status == Active
      ==> s.sessions[i].value.licensePlate != s.sessions[j].value.licensePlate
  }

  /** With a single active session per plate the active-session lookup matches at most one. */
  lemma SingleActiveLookup(s: Store, plate: string)
    ensures SingleActive(s) ==> |ActiveSessionsWithPlate(s.sessions, plate)| <= 1
  {
    if SingleActive(s) {
      FilterAtMostOne(s.sessions, ActiveWithPlate(plate));
    }
  }

  predicate WellFormedStore(s: Store) {
    WellFormed(s.vehicles) && WellFormed(s.sessions) && WellFormed(s.violations)
  }

  /** Every session names an existing vehicle carrying the session's plate, and so does
      every violation that names a vehicle at all. */
  predicate LinksConsistent(s: Store) {
    && (forall i :: 0 <= i < |s.sessions| ==>
          s.sessions[i].value.vehicleId < |s.vehicles| &&
          s.vehicles[s.sessions[i].value.vehicleId].value.licensePlate == s.sessions[i].value.licensePlate)
    && (forall i :: 0 <= i < |s.violations| && s.violations[i].value.vehicleId.Some? ==>
          s.violations[i].value.vehicleId.value < |s.vehicles| &&
          s.vehicles[s.violations[i].value.vehicleId.value].value.licensePlate == s.violations[i].value.licensePlate)
  }

  /** The "violation" session status is never reached. */
  predicate NoSessionInViolation(s: Store) {
    forall i :: 0 <= i < |s.sessions| ==> s.sessions[i].value.status != InViolation
  }

  /** What every handler, seeding included, keeps. */
  predicate Invariant(s: Store) {
    WellFormedStore(s) && SingleActive(s) && LinksConsistent(s) && NoSessionInViolation(s)
  }
}
