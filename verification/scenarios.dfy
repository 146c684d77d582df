/** End-to-end walks through the handlers on concrete stores: duplicate registration, one
    active session per plate, a blocked vehicle, and a violation for an unknown plate. */
module Scenarios {
  import opened Common
  import opened Db
  import opened Schema
  import opened Vehicles
  import opened Parking
  import opened Violations
  import opened TestData

  const Officer := User("staff-1", Some("Officer"), Some("officer@example.com"), Some(StaffRole), None, None)

  const Abc := RegisterArgs("ABC123", "John Doe", "john@example.com", "+1234567890", "Toyota Camry", "Blue", None)

  /** The store after the officer registers ABC123 on an empty registry. */
  function Registered(): (s: Store)
    ensures RegisterVehicle(EmptyStore, Some(Officer), Abc) == Ok((s, 0))
    ensures |s.vehicles| == 1 && s.vehicles[0].value.licensePlate == "ABC123"
    ensures s.vehicles[0].value.status == "registered" && s.sessions == [] && s.violations == []
  {
    PlateLookupEmpty(EmptyStore.vehicles, "ABC123");
    RegisterVehicle(EmptyStore, Some(Officer), Abc).value.0
  }

  lemma OnlyAbc(s: Store)
    requires |s.vehicles| == 1 && s.vehicles[0].value.licensePlate == "ABC123"
    ensures |VehiclesWithPlate(s.vehicles, "ABC123")| == 1
    ensures VehiclesWithPlate(s.vehicles, "ABC123")[0] == s.vehicles[0]
  {
    assert s.vehicles == [s.vehicles[0]];
  }

  /** Registering ABC123 a second time fails with DuplicatePlate. */
  lemma RegisterTwice()
    ensures RegisterVehicle(Registered(), Some(Officer), Abc) == Err(DuplicatePlate)
  {
    OnlyAbc(Registered());
  }

  /** Start in zone A, a second start in zone B is refused while the first is active, and
      succeeds once the first session has ended. */
  lemma StartEndStart(t0: nat, t1: nat, t2: nat, t3: nat)
    ensures var s := Registered();
      var first := StartParkingSession(s, Some(Officer), t0, "ABC123", "Zone A", None);
      && first.Ok?
      && first.value.0.sessions[0].value.status == Active
      && StartParkingSession(first.value.0, Some(Officer), t1, "ABC123", "Zone B", None) == Err(SessionAlreadyActive)
      && var ended := EndParkingSession(first.value.0, Some(Officer), t2, first.value.1, None);
      && ended.Ok?
      && StartParkingSession(ended.value, Some(Officer), t3, "ABC123", "Zone B", None).Ok?
  {
    var s := Registered();
    OnlyAbc(s);
    assert |ActiveSessionsWithPlate(s.sessions, "ABC123")| == 0;
    var first := StartParkingSession(s, Some(Officer), t0, "ABC123", "Zone A", None);
    var s1 := first.value.0;
    OnlyAbc(s1);
    assert s1.sessions == [s1.sessions[0]];
    assert |ActiveSessionsWithPlate(s1.sessions, "ABC123")| == 1;
    var ended := EndParkingSession(s1, Some(Officer), t2, first.value.1, None);
    assert s1.sessions[0].id == first.value.1;
    var s2 := ended.value;
    OnlyAbc(s2);
    assert s2.sessions == [s2.sessions[0]];
    assert s2.sessions[0].value.status == Completed;
    assert |ActiveSessionsWithPlate(s2.sessions, "ABC123")| == 0;
  }

  /** After the vehicle is set to "blocked", starting a session fails with VehicleBlocked. */
  lemma BlockedCannotPark(now: nat)
    ensures var s := Registered();
      var blocked := UpdateVehicleStatus(s, Some(Officer), 0, "blocked", None);
      && blocked.Ok?
      && StartParkingSession(blocked.value, Some(Officer), now, "ABC123", "Zone A", None) == Err(VehicleBlocked)
  {
    var s := Registered();
    var blocked := UpdateVehicleStatus(s, Some(Officer), 0, "blocked", None);
    assert s.vehicles[0].id == 0;
    OnlyAbc(blocked.value);
  }

  /** A violation for a plate no vehicle carries is stored without a vehicle link, and
      resolving it records who resolved it and when. */
  lemma UnknownPlateViolation(t0: nat)
    ensures var s := Registered();
      var reported := ReportViolation(s, Some(Officer), "ZZZ999", "unauthorized", "desc", "Zone A");
      && reported.Ok?
      && reported.value.0.violations[0].value.vehicleId == None
      && var resolved := ResolveViolation(reported.value.0, Some(Officer), t0, reported.value.1);
      && resolved.Ok?
      && resolved.value.violations[0].value.resolved
      && resolved.value.violations[0].value.resolvedAt == Some(t0)
  {
    var s := Registered();
    PlateLookupEmpty(s.vehicles, "ZZZ999");
    var reported := ReportViolation(s, Some(Officer), "ZZZ999", "unauthorized", "desc", "Zone A");
    assert reported.value.0.violations[0].id == reported.value.1;
  }

  /** Seeding twice stores ABC123 on two vehicles, so a staff search for it fails with
      NotUnique instead of picking one. */
  lemma SeedTwiceSearchNotUnique()
    ensures var s := SeedTestData(SeedTestData(EmptyStore).0).0;
      SearchVehicle(s, Some(Officer), "ABC123") == Err(NotUnique)
  {
    var s1 := SeedTestData(EmptyStore).0;
    var s := SeedTestData(s1).0;
    var m := VehiclesWithPlate(s.vehicles, "ABC123");
    assert s.vehicles[0] == s1.vehicles[0];
    assert s.vehicles[0] in m && s.vehicles[3] in m;
    assert s.vehicles[0].id == 0 && s.vehicles[3].id == 3;
  }
}
