# Parkmeter registry: a Dafny model

Parkmeter is a campus parking registry. Its backend has three handler files, each backed by
one document table:

- a vehicle registry that registers, lists, searches and re-statuses vehicles, keyed by
  licence plate;
- a parking-session ledger that starts, ends and lists sessions;
- a violation log that reports, lists and resolves violations.

Every handler first resolves the caller and refuses anyone who is not staff or admin. A seed
mutation inserts three fixed vehicles for anyone.

Two React dashboards sit on top:

- The staff dashboard composes a registration payload from extra form fields and keeps its
  own counters. It also filters the vehicle list by a search term.
- The user dashboard narrows the fetched lists to the signed-in user's vehicles and sessions,
  and lists the ten most recent sessions.

## How the model is built

- **Store** (`db.dfy`, `schema.dfy`). The document store is three tables, each a sequence of
  `Doc(id, value)`.
  - Ids are handed out in insertion order, so the document at position k has id k.
  - A table index lookup that ends in `.unique()` becomes `Db.Unique`. It returns no match,
    one match, or the `NotUnique` error when more than one document matches, which is what
    the database does.
  - `patch` of an id no document has is the `NotFound` error.
  - `order("desc")` is the reverse of insertion order, and `take(n)` keeps the first n.
- **Handlers** (`vehicles.dfy`, `parking.dfy`, `violations.dfy`, `testdata.dfy`).
  - Each handler is a pure function from the store, the resolved caller and, where the source
    reads the clock, a `now` value.
  - It returns the new store or the error it throws.
- **State machine** (`registry.dfy`). The mutations form one state machine. A failed
  mutation aborts its transaction and leaves the store as it was.
  - Over any sequence of requests the store keeps these invariants:
    - ids stay in insertion order;
    - each plate has at most one active session;
    - vehicle links are consistent;
    - no session is ever in the "violation" status.
  - Resolved violations stay resolved.
  - Plates stay unique as long as the seed is not run.
- **Dashboards** (`text.dfy`, `staff_dashboard.dfy`, `user_dashboard.dfy`).
  - `text.dfy` defines the JavaScript string operations the dashboards use.
  - The dashboard files model the dashboards' data logic.
- **Scenarios** (`scenarios.dfy`). End-to-end walks through the handlers on concrete stores.

### Behaviour worth knowing (the model follows the code)

- **Plates are not unique in the store.**
  - `by_license_plate` is an ordinary index, not a unique one (src/convex/schema.ts:72).
  - `seedTestData` inserts its three vehicles without looking, so seeding twice duplicates
    every plate (`TestData.SeedTwiceDuplicates`).
  - The plate lookups therefore throw `NotUnique` once a plate is duplicated
    (`Scenarios.SeedTwiceSearchNotUnique`).
  - Uniqueness is proved only for request sequences without the seed
    (`Registry.RunKeepsPlatesUnique`).
- **A vehicle status can be any string.**
  - The vehicles table declares the three-valued status validator (src/convex/schema.ts:68).
  - Schema validation is switched off (src/convex/schema.ts:108), and `updateVehicleStatus`
    casts its string argument.
  - So the stored status is a `string`, not the three-valued enumeration.
  - Only the literal "blocked" stops a session from starting.
- **Ending a session and updating a status overwrite the notes.**
  - Both pass `notes` to `patch` unconditionally.
  - An absent notes argument therefore clears the stored notes.
  - The staff dashboard's end-session button sends no notes.
- **The user dashboard's live lists are always empty.**
  - It redirects staff and admins away before its queries run.
  - It skips both queries for everyone else.
  - So on the live page "My Vehicles", the session lists and the recent-sessions list are
    always empty (`UserDashboard.Render`).

## Model

| member | source | states |
|---|---|---|
| Schema.ParseRole | src/convex/schema.ts:6-17 | the role validator accepts exactly the three role literals and maps each back to its role |
| Schema.ParseVehicleStatus | src/convex/schema.ts:20-30 | the vehicle-status validator accepts exactly "registered", "pending" and "blocked", round-tripping with the literal |
| Schema.ParseParkingStatus | src/convex/schema.ts:33-43 | the session-status validator accepts exactly "active", "completed" and "violation", round-tripping with the literal |
| Schema.Authorize | src/convex/vehicles.ts:17-20 | the gate admits exactly a resolved caller whose role is staff or admin, acts as that caller, and otherwise throws Unauthorized |
| Schema.PlateLookupEmpty | src/convex/vehicles.ts:23-26 | the by-plate lookup finds nothing exactly when no vehicle carries the plate |
| Schema.UniquePlatesLookup | src/convex/schema.ts:72 | while plates are unique, a by-plate lookup matches at most one vehicle, so `.unique()` cannot throw |
| Schema.ActiveLookupFinds | src/convex/parking.ts:33-37 | the active-session lookup for a plate holds every active session with that plate, and is empty exactly when there is none |
| Schema.SingleActiveLookup | src/convex/parking.ts:33-41 | under the one-active-session rule the active lookup matches at most one session |
| Db.Insert | src/convex/vehicles.ts:32-36 | an insert appends one document under a fresh id, leaves the earlier ones intact and keeps ids in insertion order |
| Db.Patch | src/convex/vehicles.ts:93-96 | a patch fails with NotFound exactly when no document has the id; otherwise it rewrites that one document and no other |
| Db.Unique | src/convex/vehicles.ts:23-26 | `.unique()` yields none for no match, the match for one, and throws NotUnique for more |
| Db.Newest | src/convex/parking.ts:111-114 | `order("desc").take(n)` returns min(n, size) members, newest first, and every document it drops is older than every one it keeps |
| Db.FilterIdsAscending | src/convex/vehicles.ts:52-55 | an index range over a table keeps its documents in insertion order |
| Vehicles.RegisterVehicle | src/convex/vehicles.ts:6-38 | unauthorized first, then not-unique when several vehicles carry the plate or duplicate-plate when one does; succeeds exactly for an authorized caller and an unregistered plate; stores the arguments with status "registered" and the caller as registrar under a fresh id; keeps plates unique |
| Vehicles.GetVehicles | src/convex/vehicles.ts:41-60 | for staff only; a non-empty status selects exactly the vehicles whose stored status equals it, otherwise every vehicle, in insertion order |
| Vehicles.SearchVehicle | src/convex/vehicles.ts:63-78 | for staff only; no result exactly when the plate is unregistered, NotUnique exactly when more than one vehicle carries it, a found vehicle is stored and carries the plate, and with unique plates it never throws |
| Vehicles.UpdateVehicleStatus | src/convex/vehicles.ts:81-98 | for staff only; NotFound exactly for an unknown id; sets the status string and the notes (clearing absent notes) on that vehicle only |
| Vehicles.UpdateVehicleStatusKeepsPlates | src/convex/vehicles.ts:93-96 | a status update leaves every plate where it was, so plate uniqueness survives it |
| Parking.StartParkingSession | src/convex/parking.ts:6-53 | unauthorized, unregistered, blocked and already-active errors in source order; NotUnique when several vehicles carry the plate, or when its one unblocked vehicle has several active sessions; succeeds exactly when none applies; the new session is active, entered at `now`, has no exit, and is linked to the vehicle carrying the plate and to the caller as staff |
| Parking.EndParkingSession | src/convex/parking.ts:56-73 | for staff only; NotFound exactly for an unknown id; sets exit time `now`, status completed and the given notes on that session only, so it can no longer be active |
| Parking.GetActiveSessions | src/convex/parking.ts:76-89 | for staff only; exactly the sessions with status active, in insertion order |
| Parking.GetParkingHistory | src/convex/parking.ts:92-116 | for staff only; at most 50 sessions, restricted to the plate when one is given, newest first, and no omitted candidate is newer than a returned one |
| Violations.ReportViolation | src/convex/violations.ts:6-35 | for staff only; an unknown plate is no error; the new violation copies the arguments, is unresolved, names the caller, and is linked to a vehicle exactly when one carries the plate |
| Violations.GetViolations | src/convex/violations.ts:38-62 | for staff only; a given flag (false included) selects exactly the violations with that resolved value, otherwise all, newest first |
| Violations.ResolveViolation | src/convex/violations.ts:65-81 | for staff only; NotFound exactly for an unknown id; marks that violation resolved by the caller at `now` and changes nothing else |
| Violations.ResolveTwice | src/convex/violations.ts:75-79 | resolving an already resolved violation succeeds again and keeps it resolved; with the same caller and clock it writes nothing new |
| TestData.InsertAll | src/convex/testData.ts:43-45 | inserting a list appends its values in order under fresh ids and keeps what was stored |
| TestData.SeedTestData | src/convex/testData.ts:3-50 | needs no caller; appends ABC123 and XYZ789 as registered and DEF456 as pending, touches no other table, and reports success with "Test data created" |
| TestData.SeedEmptyUnique | src/convex/testData.ts:7-41 | the three seeded plates are pairwise distinct |
| TestData.SeedTwiceDuplicates | src/convex/testData.ts:43-45 | the seed never checks existing plates, so seeding twice always breaks plate uniqueness |
| Registry.Step | src/convex/parking.ts:6-73 | a request whose handler throws leaves the store as it was, one that succeeds yields the handler's store, and no table ever shrinks |
| Registry.FromEmptyStore | src/convex/schema.ts:45-108 | the empty tables satisfy the invariant and have unique plates, so the invariant holds after any request sequence from there, and plates stay unique while the seed is not run |
| Registry.UnauthorizedChangesNothing | src/convex/parking.ts:13-16 | every mutation but the seed throws Unauthorized for a caller who is missing or neither staff nor admin, and the store is unchanged |
| Registry.SeedNeedsNoCaller | src/convex/testData.ts:3-5 | the seed succeeds without a signed-in caller |
| Registry.RegisterKeepsInvariant | src/convex/vehicles.ts:32-36 | a registration keeps the store invariant |
| Registry.StartKeepsInvariant | src/convex/parking.ts:33-51 | starting a session keeps at most one active session per plate and a consistent vehicle link |
| Registry.AppendSessionKeepsInvariant | src/convex/parking.ts:43-51 | appending a session that is linked to a vehicle with its plate, is not in the "violation" status and is not a second active session for its plate keeps the invariant |
| Registry.EndKeepsInvariant | src/convex/parking.ts:67-71 | ending a session keeps the store invariant |
| Registry.UpdateStatusKeepsInvariant | src/convex/vehicles.ts:93-96 | a status update keeps the store invariant, links included |
| Registry.ReportKeepsInvariant | src/convex/violations.ts:20-33 | reporting keeps the store invariant; the violation's vehicle link points at a vehicle carrying its plate |
| Registry.ResolveKeepsInvariant | src/convex/violations.ts:75-79 | resolving keeps the store invariant |
| Registry.SeedKeepsInvariant | src/convex/testData.ts:43-45 | the seed keeps the store invariant |
| Registry.OutcomeKeepsInvariant | src/convex/parking.ts:6-73 | every mutation that succeeds leaves a store that keeps the invariant |
| Registry.StepKeepsInvariant | src/convex/parking.ts:6-73 | any single request, from any caller, keeps the store invariant |
| Registry.RunKeepsInvariant | src/convex/parking.ts:32-41 | after any sequence of requests each plate has at most one active session and the invariant holds |
| Registry.StepKeepsPlatesUnique | src/convex/vehicles.ts:22-30 | every mutation except the seed keeps plates unique |
| Registry.RunKeepsPlatesUnique | src/convex/vehicles.ts:22-30 | plates stay unique over any request sequence that does not run the seed |
| Registry.ReportKeepsResolved | src/convex/violations.ts:25-33 | reporting appends and never alters an existing violation |
| Registry.StepKeepsResolved | src/convex/violations.ts:75-79 | no single request loses a violation or marks a resolved one unresolved |
| Registry.RunKeepsResolved | src/convex/violations.ts:65-81 | over any request sequence, violations are never lost and resolved ones stay resolved |
| Scenarios.Registered | src/convex/vehicles.ts:32-36 | registering ABC123 in an empty registry yields one registered vehicle under id 0 |
| Scenarios.RegisterTwice | src/convex/vehicles.ts:28-30 | registering ABC123 again throws DuplicatePlate |
| Scenarios.StartEndStart | src/convex/parking.ts:39-41 | a second session for an actively parked plate is refused until the first is ended, then accepted |
| Scenarios.BlockedCannotPark | src/convex/parking.ts:28-30 | once a vehicle's status is set to "blocked", starting a session for it throws VehicleBlocked |
| Scenarios.UnknownPlateViolation | src/convex/violations.ts:25-33 | a violation for an unknown plate is stored unlinked, and resolving it records the time |
| Scenarios.SeedTwiceSearchNotUnique | src/convex/vehicles.ts:73-76 | after seeding twice, a staff search for ABC123 throws NotUnique instead of returning one of the two vehicles |
| Common.Filter | src/pages/StaffDashboard.tsx:491-493 | `filter` keeps exactly the elements satisfying the predicate, each as often as it occurs, and never lengthens the list |
| Common.FilterAppend | src/pages/UserDashboard.tsx:209-214 | `filter` keeps order: filtering a concatenation is filtering each half and concatenating |
| Common.FilterThree | src/pages/StaffDashboard.tsx:491-493 | filtering three elements keeps the survivors in their original order |
| Common.Reverse | src/convex/parking.ts:111-114 | reversal keeps the length and puts the i-th element from the end at position i |
| Text.Trim | src/pages/StaffDashboard.tsx:491-494 | `trim` returns a slice of its input with only whitespace cut from each end, trimmed, and empty exactly for an all-whitespace string |
| Text.TrimSlice | src/pages/StaffDashboard.tsx:491-494 | cutting whitespace-only ends at non-whitespace characters leaves a trimmed slice, empty exactly when the whole string is whitespace |
| Text.TrimIdempotent | src/pages/StaffDashboard.tsx:491-494 | trimming twice equals trimming once |
| Text.JoinAllWhitespace | src/pages/StaffDashboard.tsx:491-494 | with a whitespace separator, a join is all whitespace exactly when every part is |
| Text.Join | src/pages/StaffDashboard.tsx:491-494 | `join` of no parts is empty, and a join starts with its first part |
| Text.JoinEndsWithLast | src/pages/StaffDashboard.tsx:491-494 | a join ends with its last part |
| Text.JoinLength | src/pages/StaffDashboard.tsx:503 | a join is as long as its parts together plus one separator per neighbouring pair |
| Text.JoinTrimmed | src/pages/StaffDashboard.tsx:491-494 | joining non-empty trimmed parts gives a trimmed string, so the final `trim` removes nothing |
| Text.JoinTwo | src/pages/StaffDashboard.tsx:491-494 | joining two parts places the separator once between them |
| Text.JoinThree | src/pages/StaffDashboard.tsx:503 | joining three parts places the separator between each neighbouring pair |
| Text.JoinFour | src/pages/StaffDashboard.tsx:503 | joining four parts places the separator between each neighbouring pair |
| Text.Lower | src/pages/StaffDashboard.tsx:577-578 | ASCII `toLowerCase` keeps the length and lowers each ASCII capital letter, leaving every other character as it is |
| Text.LowerIdempotent | src/pages/StaffDashboard.tsx:577-578 | lowering twice equals lowering once |
| Text.LowerIgnoresCase | src/pages/StaffDashboard.tsx:577-578 | two strings lower to the same string exactly when they have the same length and differ only in the case of ASCII letters |
| Text.Contains | src/pages/StaffDashboard.tsx:577-578 | `includes` holds exactly when the needle occurs at some position |
| Text.ContainsEmpty | src/pages/StaffDashboard.tsx:577-578 | every string includes the empty string |
| StaffDashboard.ComposeModel | src/pages/StaffDashboard.tsx:491-494 | the composed model is trimmed, and empty exactly when make, model and year are all whitespace |
| StaffDashboard.ComposeModelAllPresent | src/pages/StaffDashboard.tsx:491-494 | with all three pieces present and trimmed, the model is make, model and year separated by single spaces |
| StaffDashboard.ComposeModelPresentPieces | src/pages/StaffDashboard.tsx:491-494 | with trimmed pieces, the model is the non-empty pieces in make, model, year order, separated by single spaces |
| StaffDashboard.ComposeModelDefaultYear | src/pages/StaffDashboard.tsx:484-494 | with no make, a model and the default year, the model is the two separated by one space ("Camry 2024") |
| StaffDashboard.ComposeModelMakeYear | src/pages/StaffDashboard.tsx:491-494 | with no model, the make and year are separated by one space |
| StaffDashboard.ComposeModelMakeModel | src/pages/StaffDashboard.tsx:491-494 | with no year, the make and model are separated by one space |
| StaffDashboard.ComposeModelOnlyModel | src/pages/StaffDashboard.tsx:491-494 | with no make and no year, the composed model is the trimmed model |
| StaffDashboard.SubmittedModel | src/pages/StaffDashboard.tsx:510 | the sent model is the composed one whenever that is non-empty, and otherwise the raw model field; it is empty exactly when make and year are whitespace and the model is empty |
| StaffDashboard.OrDash | src/pages/StaffDashboard.tsx:499-501 | an empty note field shows as "-", any other value (whitespace included) as itself |
| StaffDashboard.JoinSegments | src/pages/StaffDashboard.tsx:496-503 | an optional head and three segments join with " \| " between each neighbouring pair |
| StaffDashboard.ComposeNotes | src/pages/StaffDashboard.tsx:496-503 | the composed notes are the trimmed user notes (when given) and the student id, dormitory and room segments, a dash for each blank value, joined by " \| " |
| StaffDashboard.ComposeNotesBlank | src/pages/StaffDashboard.tsx:496-503 | with no notes and blank extra fields the notes read "Student ID: - \| Dormitory: - \| Room: -" |
| StaffDashboard.HandleRegisterVehicle | src/pages/StaffDashboard.tsx:487-541 | the vehicle and registered-today counters rise by one exactly when registration succeeds, in step with the stored vehicle count; a failure changes neither counters nor store; the stored vehicle carries the form's plate, owner name, email, phone and colour, the submitted model and the composed notes |
| StaffDashboard.FilteredVehicles | src/pages/StaffDashboard.tsx:576-579 | a vehicle is kept exactly when its lowered plate or owner name includes the lowered search term |
| StaffDashboard.SearchKeepsOrder | src/pages/StaffDashboard.tsx:576-579 | the search keeps the listed order: the matches of a list are those of its front followed by those of its back |
| StaffDashboard.EmptySearchKeepsAll | src/pages/StaffDashboard.tsx:576-579 | an empty search term keeps every vehicle, in order |
| StaffDashboard.SearchIgnoresCase | src/pages/StaffDashboard.tsx:576-579 | lowering the search term first does not change the result |
| StaffDashboard.SearchFindsPlate | src/pages/StaffDashboard.tsx:576-579 | searching for a listed vehicle's plate, in any letter case, finds that vehicle |
| StaffDashboard.RedirectsToUserDashboard | src/pages/StaffDashboard.tsx:105-108 | outside demo mode, exactly a signed-in user who is neither staff nor admin is sent to the user dashboard |
| UserDashboard.RedirectsPartition | src/pages/UserDashboard.tsx:42-45 | outside demo mode every signed-in user is redirected away from exactly one of the two dashboards; in demo mode nobody is |
| UserDashboard.UserVehicles | src/pages/UserDashboard.tsx:202-205 | the vehicle query runs, returning every vehicle, exactly for staff and admins, and is skipped otherwise |
| UserDashboard.UserParkingHistory | src/pages/UserDashboard.tsx:202-206 | the history query runs exactly for staff and admins and returns min(50, n) stored sessions, newest first, none of the omitted ones newer than a returned one |
| UserDashboard.MyVehicles | src/pages/UserDashboard.tsx:209 | exactly the fetched vehicles whose owner email equals the user's email; nothing when the query was skipped |
| UserDashboard.MySessions | src/pages/UserDashboard.tsx:210-212 | exactly the fetched sessions whose vehicle is one of the user's vehicles; nothing when the query was skipped |
| UserDashboard.ActiveOnly | src/pages/UserDashboard.tsx:214 | exactly the user's sessions with status active |
| UserDashboard.NarrowingKeepsOrder | src/pages/UserDashboard.tsx:209-214 | the user's vehicles, sessions and active sessions keep the fetched order: each list of a concatenation is the list of its front followed by the list of its back |
| UserDashboard.InsertDesc | src/pages/UserDashboard.tsx:400-401 | inserting into a newest-first list keeps it newest first and adds exactly the one session |
| UserDashboard.SortByEntryDesc | src/pages/UserDashboard.tsx:400-401 | the sort returns a permutation of the sessions ordered by entry time, newest first |
| UserDashboard.SortSortedUnchanged | src/pages/UserDashboard.tsx:400-401 | sorting a list that is already newest first leaves it unchanged |
| UserDashboard.PrefixIsNewest | src/pages/UserDashboard.tsx:400-402 | cutting a newest-first list keeps sessions at least as recent as every one it drops |
| UserDashboard.RecentSessions | src/pages/UserDashboard.tsx:400-402 | the recent list has min(10, n) of the sessions, newest first, and no dropped session entered later than a listed one |
| UserDashboard.Render | src/pages/UserDashboard.tsx:41-214 | staff and admins are redirected outside demo mode, demo mode shows the static page, and every list on the live page is empty because its queries are skipped |

## Left out

- The React rendering is left out, and so are the toasts, the form resets and the seed's `console.log` line (src/convex/testData.ts:47): only the data each handler computes is modelled.
- Local storage, the display-name and date-of-birth editor, and the demo-mode copies of the forms and counters are left out. They are client-side state that never reaches the store.
- The "This Month" count on the user dashboard is left out. It depends on calendar arithmetic on the local clock.
- The `getCurrentUser` resolution is not part of this model. The resolved caller is an input to every handler.
- `Date.now()` is a `now: nat` input. Timestamps are natural numbers, not the source's floating-point milliseconds.
- Error message texts are left out: each thrown error is the matching constructor of `Common.Error`.
- The database's transactions and concurrency are abstracted away: each request runs atomically, one after the other.
- The loading state of a query, in which `vehicles?.filter` is undefined, is left out.
- Text.Lower: `toLowerCase` is modelled on ASCII letters only, because full Unicode case mapping is a table outside the model; non-ASCII capitals are kept as they are.
- StaffDashboard.FilteredVehicles: the search compares case on ASCII letters only, through `Text.Lower`.
- UserDashboard.SortByEntryDesc: the contract does not state that the sort is stable. It states only that the result is a permutation and is ordered by entry time.
