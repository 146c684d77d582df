/** The violation log: report, list, resolve. */
module Violations {
  import opened Common
  import opened Db
  import opened Schema

  /** `reportViolation`: after the gate, look the plate up (an unknown plate is no error)
      and insert an unresolved violation reported by the caller, linked to the vehicle
      exactly when one carries the plate. */
  function ReportViolation(s: Store, caller: Option<User>, plate: string, violationType: string,
                           description: string, location: string): (r: Result<(Store, Id)>)
    ensures !IsStaffOrAdmin(caller) ==> r == Err(Unauthorized)
    ensures r.Ok? <==> IsStaffOrAdmin(caller) && |VehiclesWithPlate(s.vehicles, plate)| <= 1
    ensures IsStaffOrAdmin(caller) && r.Err? ==> r.error == NotUnique
    ensures IsStaffOrAdmin(caller) && UniquePlates(s) ==> r.Ok?
    ensures r.Ok? ==>
              var (s', id) := r.value;
              && s'.vehicles == s.vehicles && s'.sessions == s.sessions
              && |s'.violations| == |s.violations| + 1 && s'.violations[..|s.violations|] == s.violations
              && s'.violations[|s.violations|].id == id
    ensures r.Ok? ==>
              var v := r.value.0.violations[|s.violations|].value;
              && v.licensePlate == plate && v.violationType == violationType
              && v.description == description && v.location == location
              && v.reportedBy == caller.value.id
              && !v.resolved && v.resolvedBy == None && v.resolvedAt == None
              && (v.vehicleId.Some? <==> PlateRegistered(s.vehicles, plate))
              && (v.vehicleId.Some? ==>
                    exists d :: d in s.vehicles && d.id == v.vehicleId.value && d.value.licensePlate == plate)
  {
    PlateLookupEmpty(s.vehicles, plate);
    UniquePlatesLookup(s, plate);
    match Authorize(caller)
    case Err(e) => Err(e)
    case Ok(user) =>
      match Unique(VehiclesWithPlate(s.vehicles, plate))
      case Err(e) => Err(e)
      case Ok(found) =>
        var vehicleId := match found case Some(d) => Some(d.id) case None => None;
        var v := Violation(vehicleId, plate, violationType, description, location, user.id, false, None, None);
        var (violations', id) := Insert(s.violations, v);
        Ok((s.(violations := violations'), id))
  }

  function ResolvedIs(resolved: bool): Doc<Violation> -> bool {
    (d: Doc<Violation>) => d.value.resolved == resolved
  }

  /** `getViolations`: newest first; when the flag is given (false included) only the
      violations whose `resolved` equals it, otherwise all of them. */
  function GetViolations(s: Store, caller: Option<User>, resolved: Option<bool>): (r: Result<seq<Doc<Violation>>>)
    ensures r.Err? <==> !IsStaffOrAdmin(caller)
    ensures r.Err? ==> r.error == Unauthorized
    ensures r.Ok? ==> forall d :: d in r.value <==>
              d in s.violations && (resolved.Some? ==> d.value.resolved == resolved.value)
    ensures r.Ok? && resolved.None? ==> |r.value| == |s.violations|
    ensures r.Ok? && WellFormed(s.violations) ==> IdsDescending(r.value)
  {
    match Authorize(caller)
    case Err(e) => Err(e)
    case Ok(_) =>
      var matching := if resolved.Some? then Filter(s.violations, ResolvedIs(resolved.value)) else s.violations;
      FilterIdsAscending(s.violations, ResolvedIs(if resolved.Some? then resolved.value else false));
      ReverseMembers(matching);
      if WellFormed(s.violations) then ReverseIdsDescending(matching); Ok(Reverse(matching))
      else Ok(Reverse(matching))
  }

  /** `resolveViolation`: whatever the violation's state, mark it resolved by the caller at
      `now`; nothing else changes. */
  function ResolveViolation(s: Store, caller: Option<User>, now: nat, violationId: Id): (r: Result<Store>)
    ensures !IsStaffOrAdmin(caller) ==> r == Err(Unauthorized)
    ensures IsStaffOrAdmin(caller) ==> (r.Err? <==> !Has(s.violations, violationId))
    ensures r.Err? ==> r.error in {Unauthorized, NotFound}
    ensures r.Ok? ==>
              && r.value.vehicles == s.vehicles && r.value.sessions == s.sessions
              && |r.value.violations| == |s.violations|
    ensures r.Ok? ==> forall i :: 0 <= i < |s.violations| ==>
              var (before, after) := (s.violations[i], r.value.violations[i]);
              && after.id == before.id
              && (before.id == violationId ==>
                    after.value == before.value.(resolved := true, resolvedBy := Some(caller.value.id),
                                                 resolvedAt := Some(now)))
              && (before.id != violationId ==> after == before)
  {
    match Authorize(caller)
    case Err(e) => Err(e)
    case Ok(user) =>
      match Patch(s.violations, violationId,
                  (v: Violation) => v.(resolved := true, resolvedBy := Some(user.id), resolvedAt := Some(now)))
      case Err(e) => Err(e)
      case Ok(violations') => Ok(s.(violations := violations'))
  }

  /** Resolving again succeeds and leaves the violation resolved; with the same caller and
      clock it writes nothing new. */
  lemma ResolveTwice(s: Store, caller: Option<User>, now: nat, now': nat, violationId: Id)
    requires ResolveViolation(s, caller, now, violationId).Ok?
    ensures var s1 := ResolveViolation(s, caller, now, violationId).value;
      && ResolveViolation(s1, caller, now', violationId).Ok?
      && (forall i :: 0 <= i < |s1.violations| && s1.violations[i].id == violationId ==>
            ResolveViolation(s1, caller, now', violationId).value.violations[i].value.resolved)
      && ResolveViolation(s1, caller, now, violationId) == Ok(s1)
  {
    var s1 := ResolveViolation(s, caller, now, violationId).value;
    var k :| 0 <= k < |s.violations| && s.violations[k].id == violationId;
    assert s1.violations[k].id == violationId;
    var s2 := ResolveViolation(s1, caller, now, violationId).value;
    assert s2.violations == s1.violations;
  }
}
