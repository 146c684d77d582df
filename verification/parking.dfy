/** The parking session ledger: start, end, list active sessions, history. */
module Parking {
  import opened Common
  import opened Db
  import opened Schema

  /** `startParkingSession`. After the gate, three checks in this order: the plate must
      belong to a vehicle, the vehicle must not be "blocked", and the plate must have no
      active session. Then one insert: an active session entered at `now`, linked to the
      vehicle and handled by the caller. */
  function StartParkingSession(s: Store, caller: Option<User>, now: nat, plate: string, location: string,
                               notes: Option<string>): (r: Result<(Store, Id)>)
    ensures !IsStaffOrAdmin(caller) ==> r == Err(Unauthorized)
    ensures IsStaffOrAdmin(caller) && !PlateRegistered(s.vehicles, plate) ==> r == Err(VehicleNotRegistered)
    ensures IsStaffOrAdmin(caller) && |VehiclesWithPlate(s.vehicles, plate)| > 1 ==> r == Err(NotUnique)
    ensures IsStaffOrAdmin(caller) && |VehiclesWithPlate(s.vehicles, plate)| == 1
            && VehiclesWithPlate(s.vehicles, plate)[0].value.status == VehicleStatusLiteral(Blocked) ==>
              r == Err(VehicleBlocked)
    ensures IsStaffOrAdmin(caller) && |VehiclesWithPlate(s.vehicles, plate)| == 1
            && VehiclesWithPlate(s.vehicles, plate)[0].value.status != VehicleStatusLiteral(Blocked)
            && |ActiveSessionsWithPlate(s.sessions, plate)| == 1 ==>
              r == Err(SessionAlreadyActive)
    ensures IsStaffOrAdmin(caller) && |VehiclesWithPlate(s.vehicles, plate)| == 1
            && VehiclesWithPlate(s.vehicles, plate)[0].value.status != VehicleStatusLiteral(Blocked)
            && |ActiveSessionsWithPlate(s.sessions, plate)| > 1 ==>
              r == Err(NotUnique)
    ensures r.Ok? <==>
              && IsStaffOrAdmin(caller)
              && |VehiclesWithPlate(s.vehicles, plate)| == 1
              && VehiclesWithPlate(s.vehicles, plate)[0].value.status != VehicleStatusLiteral(Blocked)
              && |ActiveSessionsWithPlate(s.sessions, plate)| == 0
    ensures r.Ok? ==>
              var (s', id) := r.value;
              && s'.vehicles == s.vehicles && s'.violations == s.violations
              && |s'.sessions| == |s.sessions| + 1 && s'.sessions[..|s.sessions|] == s.sessions
              && s'.sessions[|s.sessions|].id == id
              && (WellFormed(s.sessions) ==> WellFormed(s'.sessions))
    ensures r.Ok? ==>
              var p := r.value.0.sessions[|s.sessions|].value;
              && p.status == Active && p.entryTime == now && p.exitTime == None
              && p.licensePlate == plate && p.location == location && p.notes == notes
              && p.staffId == Some(caller.value.id)
              && exists d :: d in s.vehicles && d.id == p.vehicleId && d.value.licensePlate == plate
                             && d.value.status != VehicleStatusLiteral(Blocked)
  {
    PlateLookupEmpty(s.vehicles, plate);
    match Authorize(caller)
    case Err(e) => Err(e)
    case Ok(user) =>
      match Unique(VehiclesWithPlate(s.vehicles, plate))
      case Err(e) => Err(e)
      case Ok(None) => Err(VehicleNotRegistered)
      case Ok(Some(vehicle)) =>
        if vehicle.value.status == "blocked" then Err(VehicleBlocked)
        else
          match Unique(ActiveSessionsWithPlate(s.sessions, plate))
          case Err(e) => Err(e)
          case Ok(Some(_)) => Err(SessionAlreadyActive)
          case Ok(None) =>
            var session := ParkingSession(vehicle.id, plate, now, None, Active, location, Some(user.id), notes);
            var (sessions', id) := Insert(s.sessions, session);
            Ok((s.(sessions := sessions'), id))
  }

  /** `endParkingSession`: whatever the session's status, mark it completed at `now` and
      overwrite its notes (clearing them when absent). */
  function EndParkingSession(s: Store, caller: Option<User>, now: nat, sessionId: Id, notes: Option<string>)
    : (r: Result<Store>)
    ensures !IsStaffOrAdmin(caller) ==> r == Err(Unauthorized)
    ensures IsStaffOrAdmin(caller) ==> (r.Err? <==> !Has(s.sessions, sessionId))
    ensures r.Err? ==> r.error in {Unauthorized, NotFound}
    ensures r.Ok? ==>
              && r.value.vehicles == s.vehicles && r.value.violations == s.violations
              && |r.value.sessions| == |s.sessions|
    ensures r.Ok? ==> forall i :: 0 <= i < |s.sessions| ==>
              var (before, after) := (s.sessions[i], r.value.sessions[i]);
              && after.id == before.id
              && (before.id == sessionId ==>
                    after.value == before.value.(exitTime := Some(now), status := Completed, notes := notes))
              && (before.id != sessionId ==> after == before)
    ensures r.Ok? ==> forall i :: 0 <= i < |s.sessions| && r.value.sessions[i].value.status == Active ==>
              r.value.sessions[i] == s.sessions[i]
  {
    match Authorize(caller)
    case Err(e) => Err(e)
    case Ok(_) =>
      match Patch(s.sessions, sessionId,
                  (p: ParkingSession) => p.(exitTime := Some(now), status := Completed, notes := notes))
      case Err(e) => Err(e)
      case Ok(sessions') => Ok(s.(sessions := sessions'))
  }

  function IsActive(d: Doc<ParkingSession>): bool { d.value.status == Active }

  /** `getActiveSessions`: exactly the sessions whose status is active, in insertion order. */
  function GetActiveSessions(s: Store, caller: Option<User>): (r: Result<seq<Doc<ParkingSession>>>)
    ensures r.Err? <==> !IsStaffOrAdmin(caller)
    ensures r.Err? ==> r.error == Unauthorized
    ensures r.Ok? ==> forall d :: d in r.value <==> d in s.sessions && d.value.status == Active
    ensures r.Ok? && WellFormed(s.sessions) ==> IdsAscending(r.value)
  {
    match Authorize(caller)
    case Err(e) => Err(e)
    case Ok(_) =>
      FilterIdsAscending(s.sessions, IsActive);
      Ok(Filter(s.sessions, IsActive))
  }

  function SessionPlateIs(plate: string): Doc<ParkingSession> -> bool {
    (d: Doc<ParkingSession>) => d.value.licensePlate == plate
  }

  /** The sessions `getParkingHistory` draws from: those with the plate when a truthy plate
      is given, all of them otherwise. */
  function HistoryCandidates(s: Store, plate: Option<string>): seq<Doc<ParkingSession>> {
    if Truthy(plate) then Filter(s.sessions, SessionPlateIs(plate.value)) else s.sessions
  }

  const HistoryLimit := 50

  /** `getParkingHistory`: the 50 newest sessions, newest first, restricted to the plate
      when a truthy plate is given. */
  function GetParkingHistory(s: Store, caller: Option<User>, plate: Option<string>)
    : (r: Result<seq<Doc<ParkingSession>>>)
    ensures r.Err? <==> !IsStaffOrAdmin(caller)
    ensures r.Err? ==> r.error == Unauthorized
    ensures r.Ok? ==> |r.value| <= HistoryLimit
    ensures r.Ok? ==> forall d :: d in r.value ==>
              d in s.sessions && (Truthy(plate) ==> d.value.licensePlate == plate.value)
    ensures r.Ok? ==> |r.value| == Min(HistoryLimit, |HistoryCandidates(s, plate)|)
    ensures r.Ok? && WellFormed(s.sessions) ==> IdsDescending(r.value)
    ensures r.Ok? && WellFormed(s.sessions) ==>
              forall d, e :: d in r.value && e in HistoryCandidates(s, plate) && e !in r.value ==> e.id < d.id
  {
    match Authorize(caller)
    case Err(e) => Err(e)
    case Ok(_) =>
      var candidates := HistoryCandidates(s, plate);
      FilterIdsAscending(s.sessions, SessionPlateIs(if plate.Some? then plate.value else ""));
      Ok(Newest(candidates, HistoryLimit))
  }
}
