/** The data logic of the user dashboard: which queries run, how the fetched lists are
    narrowed to the signed-in user, the ten most recent sessions, and the role redirect. */
module UserDashboard {
  import opened Common
  import opened Db
  import opened Schema
  import opened Vehicles
  import opened Parking
  import StaffDashboard

  /** Outside demo mode a signed-in staff member or admin is sent to the staff dashboard. */
  predicate RedirectsToStaffDashboard(demoMode: bool, user: Option<User>) {
    !demoMode && user.Some? && (user.value.role == Some(StaffRole) || user.value.role == Some(AdminRole))
  }

  /** The two dashboards' redirects partition signed-in users outside demo mode: each such
      user is sent away from exactly one of them. In demo mode nobody is redirected. */
  lemma RedirectsPartition(demoMode: bool, user: Option<User>)
    ensures !demoMode && user.Some? ==>
              RedirectsToStaffDashboard(demoMode, user) != StaffDashboard.RedirectsToUserDashboard(demoMode, user)
    ensures demoMode || user.None? ==>
              !RedirectsToStaffDashboard(demoMode, user) && !StaffDashboard.RedirectsToUserDashboard(demoMode, user)
    ensures RedirectsToStaffDashboard(demoMode, user) <==> !demoMode && IsStaffOrAdmin(user)
  {
  }

  /** `getVehicles` with no status, run only for staff and admins and skipped otherwise;
      a skipped query yields no value. */
  function UserVehicles(s: Store, user: Option<User>): (r: Option<seq<Doc<Vehicle>>>)
    ensures r.Some? <==> IsStaffOrAdmin(user)
    ensures r.Some? ==> r.value == s.vehicles
  {
    if IsStaffOrAdmin(user) then Some(GetVehicles(s, user, None).value) else None
  }

  /** `getParkingHistory` with no plate, under the same skip rule: the 50 newest sessions,
      newest first. */
  function UserParkingHistory(s: Store, user: Option<User>): (r: Option<seq<Doc<ParkingSession>>>)
    ensures r.Some? <==> IsStaffOrAdmin(user)
    ensures r.Some? ==> |r.value| == Min(HistoryLimit, |s.sessions|)
    ensures r.Some? ==> forall d :: d in r.value ==> d in s.sessions
    ensures r.Some? && WellFormed(s.sessions) ==> IdsDescending(r.value)
    ensures r.Some? && WellFormed(s.sessions) ==>
              forall d, e :: d in r.value && e in s.sessions && e !in r.value ==> e.id < d.id
  {
    if IsStaffOrAdmin(user) then Some(GetParkingHistory(s, user, None).value) else None
  }

  /** The signed-in user's email, when there is a user and it has one. */
  function EmailOf(user: Option<User>): Option<string> {
    if user.Some? then user.value.email else None
  }

  function OwnedBy(email: Option<string>): Doc<Vehicle> -> bool {
    (d: Doc<Vehicle>) => email == Some(d.value.ownerEmail)
  }

  /** `myVehicles`: the fetched vehicles whose owner email is the user's; nothing when the
      query was skipped. */
  function MyVehicles(fetched: Option<seq<Doc<Vehicle>>>, user: Option<User>): (r: seq<Doc<Vehicle>>)
    ensures forall d :: d in r <==>
              fetched.Some? && d in fetched.value && user.Some? && user.value.email == Some(d.value.ownerEmail)
  {
    if fetched.None? then [] else Filter(fetched.value, OwnedBy(EmailOf(user)))
  }

  function LinkedTo(mine: seq<Doc<Vehicle>>): Doc<ParkingSession> -> bool {
    (d: Doc<ParkingSession>) => exists v :: v in mine && v.id == d.value.vehicleId
  }

  /** `mySessions`: the fetched sessions of one of the user's vehicles; nothing when the
      query was skipped. */
  function MySessions(history: Option<seq<Doc<ParkingSession>>>, mine: seq<Doc<Vehicle>>)
    : (r: seq<Doc<ParkingSession>>)
    ensures forall d :: d in r <==>
              history.Some? && d in history.value && exists v :: v in mine && v.id == d.value.vehicleId
  {
    if history.None? then [] else Filter(history.value, LinkedTo(mine))
  }

  /** `activeSessions`: the user's sessions still in the "active" status. */
  function ActiveOnly(ss: seq<Doc<ParkingSession>>): (r: seq<Doc<ParkingSession>>)
    ensures forall d :: d in r <==> d in ss && d.value.status == Active
    ensures |r| <= |ss|
  {
    Filter(ss, IsActive)
  }

  /** Narrowing keeps the fetched order: each list of a concatenation is the list of its
      front followed by the list of its back. */
  lemma NarrowingKeepsOrder(user: Option<User>, mine: seq<Doc<Vehicle>>,
                            va: seq<Doc<Vehicle>>, vb: seq<Doc<Vehicle>>,
                            sa: seq<Doc<ParkingSession>>, sb: seq<Doc<ParkingSession>>)
    ensures MyVehicles(Some(va + vb), user) == MyVehicles(Some(va), user) + MyVehicles(Some(vb), user)
    ensures MySessions(Some(sa + sb), mine) == MySessions(Some(sa), mine) + MySessions(Some(sb), mine)
    ensures ActiveOnly(sa + sb) == ActiveOnly(sa) + ActiveOnly(sb)
  {
    FilterAppend(va, vb, OwnedBy(EmailOf(user)));
    FilterAppend(sa, sb, LinkedTo(mine));
    FilterAppend(sa, sb, IsActive);
  }

  // ---- the recent-sessions list ----

  function Entry(d: Doc<ParkingSession>): nat { d.value.entryTime }

  /** Newest entry first. */
  predicate SortedDesc(s: seq<Doc<ParkingSession>>) {
    forall i, j :: 0 <= i < j < |s| ==> Entry(s[i]) >= Entry(s[j])
  }

  /** Places `x` before the first element that entered no later than it. */
  function InsertDesc(x: Doc<ParkingSession>, s: seq<Doc<ParkingSession>>): (r: seq<Doc<ParkingSession>>)
    ensures |r| == |s| + 1
    ensures multiset(r) == multiset(s) + multiset{x}
    ensures r[0] == x || (|s| > 0 && r[0] == s[0])
    ensures SortedDesc(s) ==> SortedDesc(r)
  {
    if |s| == 0 then [x]
    else if Entry(s[0]) <= Entry(x) then [x] + s
    else
      var rest := InsertDesc(x, s[1..]);
      assert s == [s[0]] + s[1..];
      [s[0]] + rest
  }

  /** `sort((a, b) => b.entryTime - a.entryTime)`: the same sessions, newest first. */
  function SortByEntryDesc(s: seq<Doc<ParkingSession>>): (r: seq<Doc<ParkingSession>>)
    ensures |r| == |s|
    ensures multiset(r) == multiset(s)
    ensures SortedDesc(r)
  {
    if |s| == 0 then []
    else
      assert s == [s[0]] + s[1..];
      InsertDesc(s[0], SortByEntryDesc(s[1..]))
  }

  /** Sorting a list that is already newest first leaves it as it is. */
  lemma {:induction false} SortSortedUnchanged(s: seq<Doc<ParkingSession>>)
    requires SortedDesc(s)
    ensures SortByEntryDesc(s) == s
  {
    if |s| > 0 {
      assert SortedDesc(s[1..]);
      SortSortedUnchanged(s[1..]);
      assert s == [s[0]] + s[1..];
    }
  }

  /** Cutting a newest-first list keeps sessions at least as new as any it drops. */
  lemma PrefixIsNewest(sorted: seq<Doc<ParkingSession>>, n: nat)
    requires SortedDesc(sorted) && n <= |sorted|
    ensures forall x, y :: x in multiset(sorted) - multiset(sorted[..n]) && y in sorted[..n] ==> Entry(x) <= Entry(y)
  {
    var r, rest := sorted[..n], sorted[n..];
    assert sorted == r + rest;
    assert multiset(sorted) == multiset(r) + multiset(rest);
    forall x, y | x in multiset(sorted) - multiset(r) && y in r ensures Entry(x) <= Entry(y) {
      assert x in rest;
      var k :| 0 <= k < |rest| && rest[k] == x;
      var j :| 0 <= j < |r| && r[j] == y;
      assert sorted[n + k] == x && sorted[j] == y;
    }
  }

  const RecentLimit := 10

  /** `.sort(...).slice(0, 10)`: the ten newest sessions, newest first. No session left out
      entered later than one that is kept. */
  function RecentSessions(s: seq<Doc<ParkingSession>>): (r: seq<Doc<ParkingSession>>)
    ensures |r| == Min(RecentLimit, |s|)
    ensures SortedDesc(r)
    ensures multiset(r) <= multiset(s)
    ensures forall x, y :: x in multiset(s) - multiset(r) && y in r ==> Entry(x) <= Entry(y)
  {
    var sorted := SortByEntryDesc(s);
    var n := Min(RecentLimit, |sorted|);
    PrefixIsNewest(sorted, n);
    assert sorted == sorted[..n] + sorted[n..];
    sorted[..n]
  }

  // ---- what the page shows ----

  datatype View =
    | RedirectToStaff
    | Demo
    | Live(myVehicles: seq<Doc<Vehicle>>, mySessions: seq<Doc<ParkingSession>>,
           activeSessions: seq<Doc<ParkingSession>>, recent: seq<Doc<ParkingSession>>)

  /** The page: the staff redirect first, then the static demo, then the live lists. A
      live page is only reached by a user who is not staff, whose queries are therefore
      skipped, so every live list is empty. */
  function Render(s: Store, demoMode: bool, user: Option<User>): (v: View)
    ensures v.RedirectToStaff? <==> RedirectsToStaffDashboard(demoMode, user)
    ensures v.Demo? <==> demoMode
    ensures v.Live? ==> v.myVehicles == [] && v.mySessions == [] && v.activeSessions == [] && v.recent == []
  {
    if RedirectsToStaffDashboard(demoMode, user) then RedirectToStaff
    else if demoMode then Demo
    else
      var mine := MyVehicles(UserVehicles(s, user), user);
      var sessions := MySessions(UserParkingHistory(s, user), mine);
      Live(mine, sessions, ActiveOnly(sessions), RecentSessions(sessions))
  }
}
