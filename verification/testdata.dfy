/** `seedTestData`: inserts three fixed vehicles, with no caller check and no plate lookup. */
module TestData {
  import opened Common
  import opened Db
  import opened Schema

  /** The registrar id the seed writes; it names no user. */
  const SeedRegistrar: UserId := "staff_user_id"

  const SeedVehicles: seq<Vehicle> := [
    Vehicle("ABC123", "John Doe", "john@example.com", "+1234567890", "Toyota Camry", "Blue",
            "registered", SeedRegistrar, Some("Regular employee vehicle")),
    Vehicle("XYZ789", "Jane Smith", "jane@example.com", "+1987654321", "Honda Civic", "Red",
            "registered", SeedRegistrar, Some("Visitor vehicle")),
    Vehicle("DEF456", "Bob Johnson", "bob@example.com", "+1122334455", "Ford F-150", "Black",
            "pending", SeedRegistrar, Some("Pending verification"))
  ]

  /** What the mutation returns. */
  datatype SeedReport = SeedReport(success: bool, message: string)

  /** The `for ... of` loop: one insert per record, in order. */
  function InsertAll<T>(t: Table<T>, vs: seq<T>): (r: Table<T>)
    ensures |r| == |t| + |vs|
    ensures r[..|t|] == t
    ensures forall k :: 0 <= k < |vs| ==> r[|t| + k].value == vs[k]
    ensures WellFormed(t) ==> WellFormed(r)
    decreases |vs|
  {
    if |vs| == 0 then t
    else
      var (t', _) := Insert(t, vs[0]);
      var r := InsertAll(t', vs[1..]);
      assert r[..|t|] == r[..|t'|][..|t|];
      r
  }

  /** The seed takes no caller: anyone may run it. It appends the three vehicles to
      whatever is stored and always reports success. */
  function SeedTestData(s: Store): (r: (Store, SeedReport))
    ensures r.1.success && r.1.message == "Test data created"
    ensures r.0.sessions == s.sessions && r.0.violations == s.violations
    ensures |r.0.vehicles| == |s.vehicles| + 3 && r.0.vehicles[..|s.vehicles|] == s.vehicles
    ensures var n := |s.vehicles|;
      && r.0.vehicles[n].value.licensePlate == "ABC123"
      && r.0.vehicles[n + 1].value.licensePlate == "XYZ789"
      && r.0.vehicles[n + 2].value.licensePlate == "DEF456"
    ensures var n := |s.vehicles|;
      && r.0.vehicles[n].value.status == VehicleStatusLiteral(Registered)
      && r.0.vehicles[n + 1].value.status == VehicleStatusLiteral(Registered)
      && r.0.vehicles[n + 2].value.status == VehicleStatusLiteral(Pending)
    ensures WellFormedStore(s) ==> WellFormedStore(r.0)
  {
    var n := |s.vehicles|;
    var vehicles' := InsertAll(s.vehicles, SeedVehicles);
    assert vehicles'[n + 1].value == SeedVehicles[1] && vehicles'[n + 2].value == SeedVehicles[2];
    (s.(vehicles := vehicles'), SeedReport(true, "Test data created"))
  }

  /** Seeding an empty store yields unique plates ... */
  lemma SeedEmptyUnique()
    ensures UniquePlates(SeedTestData(EmptyStore).0)
  {
    var s := SeedTestData(EmptyStore).0;
    assert s.vehicles[0].value.licensePlate == "ABC123";
  }

  /** ... but the seed never looks for existing plates, so seeding twice duplicates all
      three of them. */
  lemma {:induction false} SeedTwiceDuplicates(s: Store)
    ensures !UniquePlates(SeedTestData(SeedTestData(s).0).0)
  {
    var s1 := SeedTestData(s).0;
    var s2 := SeedTestData(s1).0;
    var n := |s.vehicles|;
    assert s2.vehicles[n] == s1.vehicles[n];
    assert s2.vehicles[n].value.licensePlate == s2.vehicles[n + 3].value.licensePlate;
  }
}
