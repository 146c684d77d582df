/** The vehicle registry handlers: register, list, look up by plate, set status. */
module Vehicles {
  import opened Common
  import opened Db
  import opened Schema

  /** The arguments of `registerVehicle`; `notes` may be left out. */
  datatype RegisterArgs = RegisterArgs(
    licensePlate: string,
    ownerName: string,
    ownerEmail: string,
    ownerPhone: string,
    vehicleModel: string,
    vehicleColor: string,
    notes: Option<string>)

  /** `registerVehicle`: after the gate, look the plate up with `.unique()`; an existing
      vehicle refuses the registration, otherwise insert the arguments with status
      "registered" and the caller as registrar. */
  function RegisterVehicle(s: Store, caller: Option<User>, args: RegisterArgs): (r: Result<(Store, Id)>)
    ensures !IsStaffOrAdmin(caller) ==> r == Err(Unauthorized)
    ensures IsStaffOrAdmin(caller) && |VehiclesWithPlate(s.vehicles, args.licensePlate)| == 1 ==>
              r == Err(DuplicatePlate)
    ensures IsStaffOrAdmin(caller) && |VehiclesWithPlate(s.vehicles, args.licensePlate)| > 1 ==>
              r == Err(NotUnique)
    ensures r.Ok? <==> IsStaffOrAdmin(caller) && !PlateRegistered(s.vehicles, args.licensePlate)
    ensures r.Ok? ==>
              var (s', id) := r.value;
              && s'.sessions == s.sessions && s'.violations == s.violations
              && |s'.vehicles| == |s.vehicles| + 1 && s'.vehicles[..|s.vehicles|] == s.vehicles
              && s'.vehicles[|s.vehicles|].id == id
    ensures r.Ok? ==>
              var v := r.value.0.vehicles[|s.vehicles|].value;
              && v.licensePlate == args.licensePlate && v.ownerName == args.ownerName
              && v.ownerEmail == args.ownerEmail && v.ownerPhone == args.ownerPhone
              && v.vehicleModel == args.vehicleModel && v.vehicleColor == args.vehicleColor
              && v.notes == args.notes
              && v.status == VehicleStatusLiteral(Registered) && v.registeredBy == caller.value.id
    ensures r.Ok? && WellFormed(s.vehicles) ==> WellFormed(r.value.0.vehicles) && !Has(s.vehicles, r.value.1)
    ensures r.Ok? && UniquePlates(s) ==> UniquePlates(r.value.0)
  {
    PlateLookupEmpty(s.vehicles, args.licensePlate);
    match Authorize(caller)
    case Err(e) => Err(e)
    case Ok(user) =>
      match Unique(VehiclesWithPlate(s.vehicles, args.licensePlate))
      case Err(e) => Err(e)
      case Ok(Some(_)) => Err(DuplicatePlate)
      case Ok(None) =>
        var v := Vehicle(args.licensePlate, args.ownerName, args.ownerEmail, args.ownerPhone,
                         args.vehicleModel, args.vehicleColor, "registered", user.id, args.notes);
        var (vehicles', id) := Insert(s.vehicles, v);
        Ok((s.(vehicles := vehicles'), id))
  }

  function StatusIs(status: string): Doc<Vehicle> -> bool {
    (d: Doc<Vehicle>) => d.value.status == status
  }

  /** `getVehicles`: with a truthy status, the vehicles whose stored status equals it;
      with no status or the empty string, every vehicle. Insertion order either way. */
  function GetVehicles(s: Store, caller: Option<User>, status: Option<string>): (r: Result<seq<Doc<Vehicle>>>)
    ensures r.Err? <==> !IsStaffOrAdmin(caller)
    ensures r.Err? ==> r.error == Unauthorized
    ensures r.Ok? && Truthy(status) ==>
              forall d :: d in r.value <==> d in s.vehicles && d.value.status == status.value
    ensures r.Ok? && !Truthy(status) ==> r.value == s.vehicles
    ensures r.Ok? && WellFormed(s.vehicles) ==> IdsAscending(r.value)
  {
    match Authorize(caller)
    case Err(e) => Err(e)
    case Ok(_) =>
      if Truthy(status) then
        FilterIdsAscending(s.vehicles, StatusIs(status.value));
        Ok(Filter(s.vehicles, StatusIs(status.value)))
      else
        Ok(s.vehicles)
  }

  /** `searchVehicle`: the vehicle carrying the plate, or none; `.unique()` throws when
      several do, which unique plates rule out. */
  function SearchVehicle(s: Store, caller: Option<User>, plate: string): (r: Result<Option<Doc<Vehicle>>>)
    ensures !IsStaffOrAdmin(caller) ==> r == Err(Unauthorized)
    ensures IsStaffOrAdmin(caller) ==> (r == Ok(None) <==> !PlateRegistered(s.vehicles, plate))
    ensures IsStaffOrAdmin(caller) ==> (r == Err(NotUnique) <==> |VehiclesWithPlate(s.vehicles, plate)| > 1)
    ensures r.Ok? && r.value.Some? ==> r.value.value in s.vehicles && r.value.value.value.licensePlate == plate
    ensures IsStaffOrAdmin(caller) && UniquePlates(s) ==> r.Ok?
  {
    PlateLookupEmpty(s.vehicles, plate);
    UniquePlatesLookup(s, plate);
    match Authorize(caller)
    case Err(e) => Err(e)
    case Ok(_) => Unique(VehiclesWithPlate(s.vehicles, plate))
  }

  /** `updateVehicleStatus`: overwrite the status with any string and the notes with the
      argument (clearing them when it is absent), with no check of the previous status. */
  function UpdateVehicleStatus(s: Store, caller: Option<User>, vehicleId: Id, status: string, notes: Option<string>)
    : (r: Result<Store>)
    ensures !IsStaffOrAdmin(caller) ==> r == Err(Unauthorized)
    ensures IsStaffOrAdmin(caller) ==> (r.Err? <==> !Has(s.vehicles, vehicleId))
    ensures r.Err? ==> r.error in {Unauthorized, NotFound}
    ensures r.Ok? ==>
              && r.value.sessions == s.sessions && r.value.violations == s.violations
              && |r.value.vehicles| == |s.vehicles|
    ensures r.Ok? ==> forall i :: 0 <= i < |s.vehicles| ==>
              var (before, after) := (s.vehicles[i], r.value.vehicles[i]);
              && after.id == before.id
              && (before.id == vehicleId ==> after.value == before.value.(status := status, notes := notes))
              && (before.id != vehicleId ==> after == before)
  {
    match Authorize(caller)
    case Err(e) => Err(e)
    case Ok(_) =>
      match Patch(s.vehicles, vehicleId, (v: Vehicle) => v.(status := status, notes := notes))
      case Err(e) => Err(e)
      case Ok(vehicles') => Ok(s.(vehicles := vehicles'))
  }

  /** A status update touches neither plates nor anything the store invariant speaks of. */
  lemma UpdateVehicleStatusKeepsPlates(s: Store, caller: Option<User>, vehicleId: Id, status: string, notes: Option<string>)
    requires UpdateVehicleStatus(s, caller, vehicleId, status, notes).Ok?
    ensures var s' := UpdateVehicleStatus(s, caller, vehicleId, status, notes).value;
      forall i :: 0 <= i < |s.vehicles| ==> s'.vehicles[i].value.licensePlate == s.vehicles[i].value.licensePlate
  {
  }
}
