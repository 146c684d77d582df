/** The handlers as one state machine. A request is a resolved caller, the clock reading
    and a mutation; a step commits the mutation's store when it succeeds and keeps the
    old store when it throws, as a transaction that aborts writes nothing. */
module Registry {
  import opened Common
  import opened Db
  import opened Schema
  import opened Vehicles
  import opened Parking
  import opened Violations
  import opened TestData

  datatype Call =
    | Register(args: RegisterArgs)
    | UpdateStatus(vehicleId: Id, status: string, statusNotes: Option<string>)
    | StartSession(plate: string, location: string, sessionNotes: Option<string>)
    | EndSession(sessionId: Id, endNotes: Option<string>)
    | Report(violationPlate: string, violationType: string, description: string, violationLocation: string)
    | Resolve(violationId: Id)
    | Seed

  datatype Request = Request(caller: Option<User>, now: nat, call: Call)

  /** The store a mutation would leave behind, or the error it throws. */
  function Outcome(s: Store, q: Request): Result<Store> {
    match q.call
    case Register(args) =>
      (match RegisterVehicle(s, q.caller, args) case Ok((s', _)) => Ok(s') case Err(e) => Err(e))
    case UpdateStatus(id, status, notes) => UpdateVehicleStatus(s, q.caller, id, status, notes)
    case StartSession(plate, location, notes) =>
      (match StartParkingSession(s, q.caller, q.now, plate, location, notes)
       case Ok((s', _)) => Ok(s') case Err(e) => Err(e))
    case EndSession(id, notes) => EndParkingSession(s, q.caller, q.now, id, notes)
    case Report(plate, kind, description, location) =>
      (match ReportViolation(s, q.caller, plate, kind, description, location)
       case Ok((s', _)) => Ok(s') case Err(e) => Err(e))
    case Resolve(id) => ResolveViolation(s, q.caller, q.now, id)
    case Seed => Ok(SeedTestData(s).0)
  }

  /** One request against the store: a refused request leaves it as it was, and since
      every handler only inserts or patches documents, no table ever shrinks. */
  function Step(s: Store, q: Request): (r: Store)
    ensures Outcome(s, q).Err? ==> r == s
    ensures Outcome(s, q).Ok? ==> r == Outcome(s, q).value
    ensures |s.vehicles| <= |r.vehicles| && |s.sessions| <= |r.sessions| && |s.violations| <= |r.violations|
  {
    match Outcome(s, q)
    case Ok(s') => s'
    case Err(_) => s
  }

  function Run(s: Store, qs: seq<Request>): Store
    decreases |qs|
  {
    if |qs| == 0 then s else Run(Step(s, qs[0]), qs[1..])
  }

  /** Every mutation but the seed refuses a caller who is missing or neither staff nor
      admin, and the store stays as it was. */
  lemma UnauthorizedChangesNothing(s: Store, q: Request)
    requires !IsStaffOrAdmin(q.caller) && !q.call.Seed?
    ensures Outcome(s, q) == Err(Unauthorized)
    ensures Step(s, q) == s
  {
  }

  /** The seed runs for anyone, signed in or not. */
  lemma SeedNeedsNoCaller(s: Store, now: nat)
    ensures Outcome(s, Request(None, now, Seed)).Ok?
  {
  }

  // ---- the store invariant, handler by handler ----

  lemma RegisterKeepsInvariant(s: Store, caller: Option<User>, args: RegisterArgs)
    requires Invariant(s) && RegisterVehicle(s, caller, args).Ok?
    ensures Invariant(RegisterVehicle(s, caller, args).value.0)
  {
    var s' := RegisterVehicle(s, caller, args).value.0;
    forall i | 0 <= i < |s.sessions| ensures s'.vehicles[s.sessions[i].value.vehicleId] == s.vehicles[s.sessions[i].value.vehicleId] {
      assert s'.vehicles[..|s.vehicles|][s.sessions[i].value.vehicleId] == s.vehicles[s.sessions[i].value.vehicleId];
    }
    forall i | 0 <= i < |s.violations| && s.violations[i].value.vehicleId.Some?
      ensures s'.vehicles[s.violations[i].value.vehicleId.value] == s.vehicles[s.violations[i].value.vehicleId.value] {
      assert s'.vehicles[..|s.vehicles|][s.violations[i].value.vehicleId.value] == s.vehicles[s.violations[i].value.vehicleId.value];
    }
  }

  /** Appending a session that links to a vehicle carrying its plate, is not in the
      "violation" status, and is not a second active session for its plate keeps the
      invariant. */
  lemma AppendSessionKeepsInvariant(s: Store, s': Store)
    requires Invariant(s)
    requires s'.vehicles == s.vehicles && s'.violations == s.violations
    requires |s'.sessions| == |s.sessions| + 1 && s'.sessions[..|s.sessions|] == s.sessions
    requires WellFormed(s'.sessions)
    requires var p := s'.sessions[|s.sessions|].value;
      && p.status != InViolation
      && p.vehicleId < |s.vehicles| && s.vehicles[p.vehicleId].value.licensePlate == p.licensePlate
      && (p.status == Active ==> forall i :: 0 <= i < |s.sessions| && s.sessions[i].value.status == Active ==>
            s.sessions[i].value.licensePlate != p.licensePlate)
    ensures Invariant(s')
  {
    var n := |s.sessions|;
    forall i | 0 <= i < n ensures s'.sessions[i] == s.sessions[i] {
      assert s'.sessions[..n][i] == s.sessions[i];
    }
  }

  lemma StartKeepsInvariant(s: Store, caller: Option<User>, now: nat, plate: string, location: string,
                            notes: Option<string>)
    requires Invariant(s) && StartParkingSession(s, caller, now, plate, location, notes).Ok?
    ensures Invariant(StartParkingSession(s, caller, now, plate, location, notes).value.0)
  {
    var s' := StartParkingSession(s, caller, now, plate, location, notes).value.0;
    var added := s'.sessions[|s.sessions|];
    var d :| d in s.vehicles && d.id == added.value.vehicleId && d.value.licensePlate == plate;
    WellFormedAt(s.vehicles, d);
    ActiveLookupFinds(s.sessions, plate);
    AppendSessionKeepsInvariant(s, s');
  }

  lemma EndKeepsInvariant(s: Store, caller: Option<User>, now: nat, sessionId: Id, notes: Option<string>)
    requires Invariant(s) && EndParkingSession(s, caller, now, sessionId, notes).Ok?
    ensures Invariant(EndParkingSession(s, caller, now, sessionId, notes).value)
  {
  }

  lemma UpdateStatusKeepsInvariant(s: Store, caller: Option<User>, vehicleId: Id, status: string,
                                   notes: Option<string>)
    requires Invariant(s) && UpdateVehicleStatus(s, caller, vehicleId, status, notes).Ok?
    ensures Invariant(UpdateVehicleStatus(s, caller, vehicleId, status, notes).value)
  {
    UpdateVehicleStatusKeepsPlates(s, caller, vehicleId, status, notes);
  }

  lemma ReportKeepsInvariant(s: Store, caller: Option<User>, plate: string, kind: string,
                             description: string, location: string)
    requires Invariant(s) && ReportViolation(s, caller, plate, kind, description, location).Ok?
    ensures Invariant(ReportViolation(s, caller, plate, kind, description, location).value.0)
  {
    var s' := ReportViolation(s, caller, plate, kind, description, location).value.0;
    var n := |s.violations|;
    var added := s'.violations[n];
    if added.value.vehicleId.Some? {
      var d :| d in s.vehicles && d.id == added.value.vehicleId.value && d.value.licensePlate == plate;
      WellFormedAt(s.vehicles, d);
    }
    forall i | 0 <= i < n ensures s'.violations[i] == s.violations[i] {
      assert s'.violations[..n][i] == s.violations[i];
    }
  }

  lemma ResolveKeepsInvariant(s: Store, caller: Option<User>, now: nat, violationId: Id)
    requires Invariant(s) && ResolveViolation(s, caller, now, violationId).Ok?
    ensures Invariant(ResolveViolation(s, caller, now, violationId).value)
  {
  }

  lemma SeedKeepsInvariant(s: Store)
    requires Invariant(s)
    ensures Invariant(SeedTestData(s).0)
  {
    var s' := SeedTestData(s).0;
    forall k | 0 <= k < |s.vehicles| ensures s'.vehicles[k] == s.vehicles[k] {
      assert s'.vehicles[..|s.vehicles|][k] == s.vehicles[k];
    }
  }

  /** A mutation that succeeds leaves a store that keeps the invariant. */
  lemma OutcomeKeepsInvariant(s: Store, q: Request)
    requires Invariant(s) && Outcome(s, q).Ok?
    ensures Invariant(Outcome(s, q).value)
  {
    match q.call
    case Register(args) => RegisterKeepsInvariant(s, q.caller, args);
    case UpdateStatus(id, status, notes) => UpdateStatusKeepsInvariant(s, q.caller, id, status, notes);
    case StartSession(plate, location, notes) => StartKeepsInvariant(s, q.caller, q.now, plate, location, notes);
    case EndSession(id, notes) => EndKeepsInvariant(s, q.caller, q.now, id, notes);
    case Report(plate, kind, description, location) =>
      ReportKeepsInvariant(s, q.caller, plate, kind, description, location);
    case Resolve(id) => ResolveKeepsInvariant(s, q.caller, q.now, id);
    case Seed => SeedKeepsInvariant(s);
  }

  /** One step, whatever the request and whoever asks, keeps the store invariant: ids in
      insertion order, at most one active session per plate, consistent vehicle links, and
      no session in the "violation" status. */
  lemma StepKeepsInvariant(s: Store, q: Request)
    requires Invariant(s)
    ensures Invariant(Step(s, q))
  {
    if Outcome(s, q).Ok? {
      OutcomeKeepsInvariant(s, q);
    }
  }

  /** After any sequence of requests, each plate still has at most one active session. */
  lemma {:induction false} RunKeepsInvariant(s: Store, qs: seq<Request>)
    requires Invariant(s)
    ensures Invariant(Run(s, qs))
    ensures SingleActive(Run(s, qs))
    decreases |qs|
  {
    if |qs| > 0 {
      StepKeepsInvariant(s, qs[0]);
      RunKeepsInvariant(Step(s, qs[0]), qs[1..]);
    }
  }

  /** Every mutation but the seed keeps plates unique. */
  lemma StepKeepsPlatesUnique(s: Store, q: Request)
    requires UniquePlates(s) && !q.call.Seed?
    ensures UniquePlates(Step(s, q))
  {
    if q.call.UpdateStatus? && Outcome(s, q).Ok? {
      UpdateVehicleStatusKeepsPlates(s, q.caller, q.call.vehicleId, q.call.status, q.call.statusNotes);
    }
  }

  lemma {:induction false} RunKeepsPlatesUnique(s: Store, qs: seq<Request>)
    requires UniquePlates(s)
    requires forall i :: 0 <= i < |qs| ==> !qs[i].call.Seed?
    ensures UniquePlates(Run(s, qs))
    decreases |qs|
  {
    if |qs| > 0 {
      StepKeepsPlatesUnique(s, qs[0]);
      RunKeepsPlatesUnique(Step(s, qs[0]), qs[1..]);
    }
  }

  /** No violation is ever lost or set back to unresolved. */
  predicate ResolvedKept(s: Store, s': Store) {
    |s.violations| <= |s'.violations| &&
    forall i :: 0 <= i < |s.violations| && s.violations[i].value.resolved ==> s'.violations[i].value.resolved
  }

  lemma ReportKeepsResolved(s: Store, caller: Option<User>, plate: string, kind: string,
                             description: string, location: string)
    requires ReportViolation(s, caller, plate, kind, description, location).Ok?
    ensures ResolvedKept(s, ReportViolation(s, caller, plate, kind, description, location).value.0)
  {
    var s' := ReportViolation(s, caller, plate, kind, description, location).value.0;
    forall i | 0 <= i < |s.violations| ensures s'.violations[i] == s.violations[i] {
      assert s'.violations[..|s.violations|][i] == s.violations[i];
    }
  }

  lemma StepKeepsResolved(s: Store, q: Request)
    ensures ResolvedKept(s, Step(s, q))
  {
    match q.call
    case Report(plate, kind, description, location) =>
      if ReportViolation(s, q.caller, plate, kind, description, location).Ok? {
        ReportKeepsResolved(s, q.caller, plate, kind, description, location);
      }
    case Resolve(id) =>
    case _ =>
      assert Step(s, q).violations == s.violations;
  }

  lemma {:induction false} RunKeepsResolved(s: Store, qs: seq<Request>)
    ensures ResolvedKept(s, Run(s, qs))
    decreases |qs|
  {
    if |qs| > 0 {
      StepKeepsResolved(s, qs[0]);
      RunKeepsResolved(Step(s, qs[0]), qs[1..]);
    }
  }

  // ---- from the empty registry ----

  /** A fresh deployment starts from empty tables, which satisfy the invariant and have
      unique plates, so both hold after every request sequence run from there (unique
      plates only while the seed is not run). */
  lemma FromEmptyStore(qs: seq<Request>)
    ensures Invariant(EmptyStore) && UniquePlates(EmptyStore)
    ensures Invariant(Run(EmptyStore, qs)) && SingleActive(Run(EmptyStore, qs))
    ensures (forall i :: 0 <= i < |qs| ==> !qs[i].call.Seed?) ==> UniquePlates(Run(EmptyStore, qs))
  {
    RunKeepsInvariant(EmptyStore, qs);
    if forall i :: 0 <= i < |qs| ==> !qs[i].call.Seed? {
      RunKeepsPlatesUnique(EmptyStore, qs);
    }
  }
}
