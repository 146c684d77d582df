/** The pure parts of the staff dashboard: composing the registration payload, the
    counters a registration bumps, the vehicle search, and the role redirect. */
module StaffDashboard {
  import opened Common
  import opened Db
  import opened Schema
  import opened Text
  import opened Vehicles

  /** The registration form's own fields, as typed. */
  datatype VehicleForm = VehicleForm(
    licensePlate: string,
    ownerName: string,
    ownerEmail: string,
    ownerPhone: string,
    vehicleModel: string,
    vehicleColor: string,
    notes: string)

  /** The extra form fields folded into the model and the notes. */
  datatype ExtraInfo = ExtraInfo(
    studentId: string,
    dormitory: string,
    roomNumber: string,
    make: string,
    year: string)

  /** The dashboard's counters. */
  datatype Stats = Stats(vehicles: int, activeSessions: int, openViolations: int, registeredToday: int)

  /** `Boolean` on a string: non-empty. */
  function NonEmpty(s: string): bool { s != "" }

  /** `[make, model, year].filter(Boolean).join(" ").trim()`. */
  function ComposeModel(make: string, model: string, year: string): (r: string)
    ensures Trimmed(r)
    ensures r == "" <==> AllWhitespace(make) && AllWhitespace(model) && AllWhitespace(year)
  {
    var parts := Filter([make, model, year], NonEmpty);
    JoinAllWhitespace(parts, " ");
    assert AllWhitespace("");
    assert (forall i :: 0 <= i < |parts| ==> AllWhitespace(parts[i])) <==>
           AllWhitespace(make) && AllWhitespace(model) && AllWhitespace(year) by {
      if forall i :: 0 <= i < |parts| ==> AllWhitespace(parts[i]) {
        if make != "" { assert make in parts; }
        if model != "" { assert model in parts; }
        if year != "" { assert year in parts; }
      }
      if AllWhitespace(make) && AllWhitespace(model) && AllWhitespace(year) {
        forall i | 0 <= i < |parts| ensures AllWhitespace(parts[i]) {
          assert parts[i] in parts;
          assert parts[i] in [make, model, year];
        }
      }
    }
    Trim(Join(parts, " "))
  }

  /** With every piece present and already trimmed, the model is the three pieces
      separated by single spaces. */
  lemma ComposeModelAllPresent(make: string, model: string, year: string)
    requires make != "" && model != "" && year != ""
    requires Trimmed(make) && Trimmed(year)
    ensures ComposeModel(make, model, year) == make + " " + model + " " + year
  {
    FilterAll([make, model, year], NonEmpty);
    JoinThree(make, model, year, " ");
    var joined := make + " " + model + " " + year;
    assert joined[0] == make[0];
    assert joined[|joined| - 1] == year[|year| - 1];
    TrimTrimmed(joined);
  }

  /** With trimmed pieces, the model is the non-empty pieces, in make, model, year order,
      separated by single spaces: the final trim removes nothing. */
  lemma ComposeModelPresentPieces(make: string, model: string, year: string)
    requires Trimmed(make) && Trimmed(model) && Trimmed(year)
    ensures ComposeModel(make, model, year) == Join(Filter([make, model, year], NonEmpty), " ")
  {
    var parts := Filter([make, model, year], NonEmpty);
    forall i | 0 <= i < |parts| ensures parts[i] != "" && Trimmed(parts[i]) {
      assert parts[i] in parts;
      assert parts[i] in [make, model, year];
    }
    JoinTrimmed(parts, " ");
    TrimTrimmed(Join(parts, " "));
  }

  /** A blank make with the model and the default year: "Camry 2024". */
  lemma ComposeModelDefaultYear(model: string, year: string)
    requires model != "" && year != "" && Trimmed(model) && Trimmed(year)
    ensures ComposeModel("", model, year) == model + " " + year
  {
    var parts := Filter(["", model, year], NonEmpty);
    assert parts == [model, year] by {
      FilterThree("", model, year, NonEmpty);
    }
    ComposeModelPresentPieces("", model, year);
    JoinTwo(model, year, " ");
  }

  /** A blank model leaves make and year separated by one space. */
  lemma ComposeModelMakeYear(make: string, year: string)
    requires make != "" && year != "" && Trimmed(make) && Trimmed(year)
    ensures ComposeModel(make, "", year) == make + " " + year
  {
    var parts := Filter([make, "", year], NonEmpty);
    assert parts == [make, year] by {
      FilterThree(make, "", year, NonEmpty);
    }
    ComposeModelPresentPieces(make, "", year);
    JoinTwo(make, year, " ");
  }

  /** A blank year leaves make and model separated by one space. */
  lemma ComposeModelMakeModel(make: string, model: string)
    requires make != "" && model != "" && Trimmed(make) && Trimmed(model)
    ensures ComposeModel(make, model, "") == make + " " + model
  {
    var parts := Filter([make, model, ""], NonEmpty);
    assert parts == [make, model] by {
      FilterThree(make, model, "", NonEmpty);
    }
    ComposeModelPresentPieces(make, model, "");
    JoinTwo(make, model, " ");
  }

  /** Empty make and year leave the trimmed model alone. */
  lemma ComposeModelOnlyModel(model: string)
    ensures ComposeModel("", model, "") == Trim(model)
  {
    var parts := Filter(["", model, ""], NonEmpty);
    assert ["", model, ""][1..] == [model, ""];
    assert [model, ""][1..] == [""];
    assert [""][1..] == [];
    assert Filter([""], NonEmpty) == [];
    if model == "" {
      assert parts == [];
    } else {
      assert Filter([model, ""], NonEmpty) == [model];
      assert parts == [model];
    }
  }

  /** `composedModel || newVehicle.vehicleModel`. */
  function SubmittedModel(make: string, model: string, year: string): (r: string)
    ensures r == ComposeModel(make, model, year) || r == model
    ensures ComposeModel(make, model, year) != "" ==> r == ComposeModel(make, model, year)
    ensures ComposeModel(make, model, year) == "" ==> r == model
    ensures r == "" <==> AllWhitespace(make) && AllWhitespace(year) && model == ""
  {
    var composed := ComposeModel(make, model, year);
    if composed != "" then composed else model
  }

  /** `value || "-"`. */
  function OrDash(s: string): (r: string)
    ensures r != ""
    ensures s != "" ==> r == s
    ensures s == "" ==> r == "-"
  {
    if s != "" then s else "-"
  }

  /** The student id, dormitory and room segments, a dash standing in for a blank value. */
  function NoteSegments(extra: ExtraInfo): seq<string> {
    ["Student ID: " + OrDash(extra.studentId),
     "Dormitory: " + OrDash(extra.dormitory),
     "Room: " + OrDash(extra.roomNumber)]
  }

  /** An optional head and three segments, joined by " | ". */
  lemma JoinSegments(head: seq<string>, segments: seq<string>)
    requires |head| <= 1 && |segments| == 3
    ensures Join(head + segments, " | ") ==
              (if |head| == 1 then head[0] + " | " else "") + segments[0] + " | " + segments[1] + " | " + segments[2]
  {
    var a, b, c := segments[0], segments[1], segments[2];
    assert segments == [a, b, c];
    if |head| == 1 {
      assert head + segments == [head[0], a, b, c];
      JoinFour(head[0], a, b, c, " | ");
    } else {
      assert head + segments == [a, b, c];
      JoinThree(a, b, c, " | ");
    }
  }

  /** The trimmed user notes when non-empty, then the student id, dormitory and room
      segments, a dash standing in for a blank value, all joined by " | ". */
  function ComposeNotes(notes: string, extra: ExtraInfo): (r: string)
    ensures var student := "Student ID: " + OrDash(extra.studentId);
      var dormitory := "Dormitory: " + OrDash(extra.dormitory);
      var room := "Room: " + OrDash(extra.roomNumber);
      r == (if notes != "" then Trim(notes) + " | " else "") + student + " | " + dormitory + " | " + room
  {
    var head := if notes != "" then [Trim(notes)] else [];
    JoinSegments(head, NoteSegments(extra));
    Join(head + NoteSegments(extra), " | ")
  }

  /** With no notes and every extra field blank, each segment shows a dash. */
  lemma ComposeNotesBlank(make: string, year: string)
    ensures ComposeNotes("", ExtraInfo("", "", "", make, year)) == "Student ID: - | Dormitory: - | Room: -"
  {
    var r := ComposeNotes("", ExtraInfo("", "", "", make, year));
    assert r == "Student ID: " + "-" + " | " + "Dormitory: " + "-" + " | " + "Room: " + "-";
  }

  /** The arguments `handleRegisterVehicle` sends. */
  function RegistrationPayload(form: VehicleForm, extra: ExtraInfo): RegisterArgs {
    RegisterArgs(form.licensePlate, form.ownerName, form.ownerEmail, form.ownerPhone,
                 SubmittedModel(extra.make, form.vehicleModel, extra.year), form.vehicleColor,
                 Some(ComposeNotes(form.notes, extra)))
  }

  /** `handleRegisterVehicle`: send the composed payload; only when the call succeeds do the
      vehicle and registered-today counters rise, by one each. A failed call leaves the
      counters and the store as they were. */
  function HandleRegisterVehicle(stats: Stats, s: Store, caller: Option<User>, form: VehicleForm, extra: ExtraInfo)
    : (r: (Stats, Store))
    ensures r.0.activeSessions == stats.activeSessions && r.0.openViolations == stats.openViolations
    ensures r.0.vehicles - stats.vehicles == |r.1.vehicles| - |s.vehicles|
    ensures r.0.registeredToday - stats.registeredToday == |r.1.vehicles| - |s.vehicles|
    ensures r.0.vehicles == stats.vehicles + 1 <==>
              IsStaffOrAdmin(caller) && !PlateRegistered(s.vehicles, form.licensePlate)
    ensures r.0.vehicles == stats.vehicles ==> r == (stats, s)
    ensures r.0.vehicles != stats.vehicles ==>
              |r.1.vehicles| == |s.vehicles| + 1 &&
              var v := r.1.vehicles[|s.vehicles|].value;
              && v.licensePlate == form.licensePlate
              && v.ownerName == form.ownerName && v.ownerEmail == form.ownerEmail
              && v.ownerPhone == form.ownerPhone && v.vehicleColor == form.vehicleColor
              && v.vehicleModel == SubmittedModel(extra.make, form.vehicleModel, extra.year)
              && v.notes == Some(ComposeNotes(form.notes, extra))
  {
    match RegisterVehicle(s, caller, RegistrationPayload(form, extra))
    case Ok((s', _)) =>
      (stats.(vehicles := stats.vehicles + 1, registeredToday := stats.registeredToday + 1), s')
    case Err(_) => (stats, s)
  }

  function MatchesSearch(term: string): Doc<Vehicle> -> bool {
    (d: Doc<Vehicle>) =>
      Contains(Lower(d.value.licensePlate), Lower(term)) || Contains(Lower(d.value.ownerName), Lower(term))
  }

  /** `filteredVehicles`: the vehicles whose plate or owner name contains the search term,
      ignoring ASCII case, in their listed order. */
  function FilteredVehicles(vs: seq<Doc<Vehicle>>, term: string): (r: seq<Doc<Vehicle>>)
    ensures forall d :: d in r <==>
              d in vs && (Contains(Lower(d.value.licensePlate), Lower(term)) || Contains(Lower(d.value.ownerName), Lower(term)))
  {
    Filter(vs, MatchesSearch(term))
  }

  /** An empty search keeps every vehicle. */
  lemma EmptySearchKeepsAll(vs: seq<Doc<Vehicle>>)
    ensures FilteredVehicles(vs, "") == vs
  {
    forall i | 0 <= i < |vs| ensures MatchesSearch("")(vs[i]) {
      ContainsEmpty(Lower(vs[i].value.licensePlate));
    }
    FilterAll(vs, MatchesSearch(""));
  }

  /** Searching keeps the listed order: the matches of a list are the matches of its
      front followed by the matches of its back. */
  lemma SearchKeepsOrder(a: seq<Doc<Vehicle>>, b: seq<Doc<Vehicle>>, term: string)
    ensures FilteredVehicles(a + b, term) == FilteredVehicles(a, term) + FilteredVehicles(b, term)
  {
    FilterAppend(a, b, MatchesSearch(term));
  }

  /** Searching is case-insensitive: lowering the term first gives the same list. */
  lemma SearchIgnoresCase(vs: seq<Doc<Vehicle>>, term: string)
    ensures FilteredVehicles(vs, Lower(term)) == FilteredVehicles(vs, term)
  {
    LowerIdempotent(term);
    FilterAgree(vs, MatchesSearch(Lower(term)), MatchesSearch(term));
  }

  /** Searching for a listed vehicle's plate, in any ASCII case, finds it. */
  lemma SearchFindsPlate(vs: seq<Doc<Vehicle>>, d: Doc<Vehicle>, term: string)
    requires d in vs && Lower(term) == Lower(d.value.licensePlate)
    ensures d in FilteredVehicles(vs, term)
  {
    assert OccursAt(Lower(d.value.licensePlate), Lower(term), 0);
  }

  /** Outside demo mode a signed-in user who is neither staff nor admin is sent to the user
      dashboard. */
  function RedirectsToUserDashboard(demoMode: bool, user: Option<User>): (b: bool)
    ensures b <==> !demoMode && user.Some? && !IsStaffOrAdmin(user)
  {
    !demoMode && user.Some? && user.value.role != Some(StaffRole) && user.value.role != Some(AdminRole)
  }
}
