/** The map screen: it loads the catalogue and the signed-in user's visited
    locations, and on each position update scans the catalogue for
    locations within the discovery radius that are not yet visited, marking
    each as visited, announcing it with a notification and checking in. */
module MapScreen {
  import opened Wrappers
  import opened Schema
  import opened Mobile
  import UserController

  /** `dist < 50`, with the distance function (haversine on the device) a
      parameter. */
  predicate InRange(distance: (Coord, Coord) -> real, here: Coord, l: LocationData) {
    distance(here, l.position) < ProximityRadius
  }

  /** The locations a scan from `here` discovers, in catalogue order: in
      range and not in the visited snapshot. */
  function Discoveries(locations: seq<LocationData>, visited: set<Id>, here: Coord,
                       distance: (Coord, Coord) -> real): (d: seq<LocationData>)
    ensures |d| <= |locations|
    ensures forall l :: l in d ==> l in locations && l.id !in visited && InRange(distance, here, l)
  {
    if locations == [] then []
    else
      var init := locations[..|locations| - 1];
      var last := locations[|locations| - 1];
      var found := Discoveries(init, visited, here, distance);
      assert locations == init + [last];
      if last.id !in visited && InRange(distance, here, last) then found + [last] else found
  }

  /** A location is discovered exactly when it is in the catalogue, not
      yet visited, and in range. */
  lemma {:induction false} DiscoveriesMembers(locations: seq<LocationData>, visited: set<Id>, here: Coord,
                                              distance: (Coord, Coord) -> real)
    ensures forall l :: l in Discoveries(locations, visited, here, distance) <==>
      l in locations && l.id !in visited && InRange(distance, here, l)
  {
    if locations != [] {
      var init := locations[..|locations| - 1];
      assert locations == init + [locations[|locations| - 1]];
      DiscoveriesMembers(init, visited, here, distance);
    }
  }

  /** Discovery depends on the distance function only through its `< 50`
      decision: two functions that agree on it discover the same locations. */
  lemma {:induction false} DiscoveriesSameDecision(locations: seq<LocationData>, visited: set<Id>, here: Coord,
                                                   d1: (Coord, Coord) -> real, d2: (Coord, Coord) -> real)
    requires forall a, b :: d1(a, b) < ProximityRadius <==> d2(a, b) < ProximityRadius
    ensures Discoveries(locations, visited, here, d1) == Discoveries(locations, visited, here, d2)
  {
    if locations != [] {
      DiscoveriesSameDecision(locations[..|locations| - 1], visited, here, d1, d2);
      var last := locations[|locations| - 1];
      assert InRange(d1, here, last) <==> InRange(d2, here, last);
    }
  }

  /** The ids of a run of locations. */
  function IdsOf(d: seq<LocationData>): (r: set<Id>)
    ensures |r| <= |d|
    ensures forall i :: 0 <= i < |d| ==> d[i].id in r
  {
    if d == [] then {} else IdsOf(d[..|d| - 1]) + {d[|d| - 1].id}
  }

  /** One notification per discovery. */
  function Announcements(d: seq<LocationData>): (e: seq<Effect>)
    ensures |e| == |d|
    ensures forall i :: 0 <= i < |d| ==> e[i] == Notify(d[i].id, d[i].name)
  {
    if d == [] then [] else Announcements(d[..|d| - 1]) + [Notify(d[|d| - 1].id, d[|d| - 1].name)]
  }

  /** One check-in call per discovery. */
  function CheckIns(d: seq<LocationData>): (e: seq<Effect>)
    ensures |e| == |d|
    ensures forall i :: 0 <= i < |d| ==> e[i] == CheckInCall(d[i].id)
  {
    if d == [] then [] else CheckIns(d[..|d| - 1]) + [CheckInCall(d[|d| - 1].id)]
  }

  /** The effects of a scan: every `forEach` callback schedules its
      notification before it first yields, so all notifications go out, in
      catalogue order, before any check-in request is sent. */
  function ScanEffects(locations: seq<LocationData>, visited: set<Id>, here: Coord,
                       distance: (Coord, Coord) -> real): (e: seq<Effect>)
    ensures var d := Discoveries(locations, visited, here, distance);
      && |e| == 2 * |d|
      && (forall i :: 0 <= i < |d| ==> e[i] == Notify(d[i].id, d[i].name))
      && (forall i :: 0 <= i < |d| ==> e[|d| + i] == CheckInCall(d[i].id))
  {
    var d := Discoveries(locations, visited, here, distance);
    Announcements(d) + CheckIns(d)
  }

  /** `new Set(visitedList.map(v => v.locationId))`; a missing `locationId`
      adds only `undefined`, which no catalogue id equals. */
  function LocationIdsOf(rows: seq<VisitRow>): (r: set<Id>)
    ensures forall id :: id in r <==> exists k :: 0 <= k < |rows| && rows[k].locationId == Some(id)
  {
    set r | r in rows && r.locationId.Some? :: r.locationId.value
  }

  class MapView {
    var locations: seq<LocationData>
    var visitedIds: set<Id>
    /** The state the position watcher's callback closes over: the watcher
        is registered once, by an effect with no dependencies, so its
        callback is the first render's `checkProximity`. */
    const mountedLocations: seq<LocationData> := []
    const mountedVisitedIds: set<Id> := {}

    constructor ()
      ensures locations == [] && visitedIds == {}
      ensures mountedLocations == [] && mountedVisitedIds == {}
    {
      locations := [];
      visitedIds := {};
    }

    /** `loadData`: a failed catalogue request changes nothing; a failed or
        malformed visited list keeps the ids held so far. */
    method LoadData(user: Option<AppUser>, catalogue: Reply<seq<LocationData>>,
                    visitedList: Reply<Option<seq<VisitRow>>>)
      modifies this
      ensures locations == if catalogue.Ok? then catalogue.body else old(locations)
      ensures visitedIds ==
        if catalogue.Ok? && user.Some? && user.value.id != "" && visitedList.Ok? && visitedList.body.Some?
        then LocationIdsOf(visitedList.body.value)
        else old(visitedIds)
    {
      if !catalogue.Ok? {
        return;
      }
      locations := catalogue.body;
      if user.Some? && user.value.id != "" {
        if visitedList.Ok? && visitedList.body.Some? {
          visitedIds := LocationIdsOf(visitedList.body.value);
        }
      }
    }

    /** The body of `checkProximity` over a catalogue and a visited snapshot
        (the closure's), adding each discovery to the visited ids as it goes. */
    method Scan(catalogue: seq<LocationData>, snapshot: set<Id>, here: Coord,
                distance: (Coord, Coord) -> real) returns (effects: seq<Effect>)
      modifies this`visitedIds
      ensures effects == ScanEffects(catalogue, snapshot, here, distance)
      ensures visitedIds == old(visitedIds) + IdsOf(Discoveries(catalogue, snapshot, here, distance))
    {
      if |catalogue| == 0 {
        assert catalogue == [];
        return [];
      }
      var notices: seq<Effect> := [];
      var checkIns: seq<Effect> := [];
      var marked := visitedIds;
      for i := 0 to |catalogue|
        invariant notices == Announcements(Discoveries(catalogue[..i], snapshot, here, distance))
        invariant checkIns == CheckIns(Discoveries(catalogue[..i], snapshot, here, distance))
        invariant visitedIds == old(visitedIds)
        invariant marked == visitedIds + IdsOf(Discoveries(catalogue[..i], snapshot, here, distance))
      {
        ScanStep(catalogue, i, snapshot, here, distance);
        var loc := catalogue[i];
        if loc.id !in snapshot && distance(here, loc.position) < ProximityRadius {
          marked := marked + {loc.id};
          notices := notices + [Notify(loc.id, loc.name)];
          checkIns := checkIns + [CheckInCall(loc.id)];
        }
      }
      assert catalogue[..|catalogue|] == catalogue;
      visitedIds := marked;
      effects := notices + checkIns;
    }

    /** The watcher's callback as the screen registers it: it scans the
        catalogue captured at mount, which is empty. */
    method WatcherCallback(here: Coord, distance: (Coord, Coord) -> real) returns (effects: seq<Effect>)
      modifies this`visitedIds
      ensures effects == [] && visitedIds == old(visitedIds)
    {
      effects := Scan(mountedLocations, mountedVisitedIds, here, distance);
      assert Discoveries(mountedLocations, mountedVisitedIds, here, distance) == [];
      assert IdsOf([]) == {};
    }

    /** `checkProximity` reading the screen's current state, as intended. */
    method CheckProximity(here: Coord, distance: (Coord, Coord) -> real) returns (effects: seq<Effect>)
      modifies this`visitedIds
      ensures effects == ScanEffects(locations, old(visitedIds), here, distance)
      ensures visitedIds == old(visitedIds) + IdsOf(Discoveries(locations, old(visitedIds), here, distance))
    {
      effects := Scan(locations, visitedIds, here, distance);
    }
  }

  /** One more catalogue entry adds at most that entry to the discoveries. */
  lemma DiscoveriesStep(catalogue: seq<LocationData>, i: nat, visited: set<Id>, here: Coord,
                        distance: (Coord, Coord) -> real)
    requires i < |catalogue|
    ensures Discoveries(catalogue[..i + 1], visited, here, distance) ==
      if catalogue[i].id !in visited && InRange(distance, here, catalogue[i])
      then Discoveries(catalogue[..i], visited, here, distance) + [catalogue[i]]
      else Discoveries(catalogue[..i], visited, here, distance)
  {
    assert catalogue[..i + 1][..i] == catalogue[..i];
  }

  /** What one more catalogue entry adds to a scan's notifications,
      check-ins and marked ids. */
  lemma ScanStep(catalogue: seq<LocationData>, i: nat, visited: set<Id>, here: Coord,
                 distance: (Coord, Coord) -> real)
    requires i < |catalogue|
    ensures var before := Discoveries(catalogue[..i], visited, here, distance);
      var after := Discoveries(catalogue[..i + 1], visited, here, distance);
      var l := catalogue[i];
      if l.id !in visited && InRange(distance, here, l) then
        && Announcements(after) == Announcements(before) + [Notify(l.id, l.name)]
        && CheckIns(after) == CheckIns(before) + [CheckInCall(l.id)]
        && IdsOf(after) == IdsOf(before) + {l.id}
      else
        after == before
  {
    DiscoveriesStep(catalogue, i, visited, here, distance);
    EffectsStep(Discoveries(catalogue[..i], visited, here, distance), catalogue[i]);
  }

  lemma EffectsStep(d: seq<LocationData>, l: LocationData)
    ensures Announcements(d + [l]) == Announcements(d) + [Notify(l.id, l.name)]
    ensures CheckIns(d + [l]) == CheckIns(d) + [CheckInCall(l.id)]
    ensures IdsOf(d + [l]) == IdsOf(d) + {l.id}
  {
    assert (d + [l])[..|d|] == d;
  }

  lemma {:induction false} IdsOfMembers(d: seq<LocationData>)
    ensures forall x :: x in d ==> x.id in IdsOf(d)
    ensures forall id :: id in IdsOf(d) ==> exists x :: x in d && x.id == id
  {
    if d != [] {
      var init := d[..|d| - 1];
      assert d == init + [d[|d| - 1]];
      IdsOfMembers(init);
    }
  }

  // ---------------------------------------------------------------------
  // Properties of a scan

  predicate DistinctIds(locations: seq<LocationData>) {
    forall i, j :: 0 <= i < j < |locations| ==> locations[i].id != locations[j].id
  }

  lemma {:induction false} DiscoveriesDistinct(locations: seq<LocationData>, visited: set<Id>, here: Coord,
                                               distance: (Coord, Coord) -> real)
    requires DistinctIds(locations)
    ensures DistinctIds(Discoveries(locations, visited, here, distance))
  {
    if locations != [] {
      var init := locations[..|locations| - 1];
      var last := locations[|locations| - 1];
      assert DistinctIds(init) by {
        forall i, j | 0 <= i < j < |init| ensures init[i].id != init[j].id { assert init[i] == locations[i] && init[j] == locations[j]; }
      }
      DiscoveriesDistinct(init, visited, here, distance);
      DiscoveriesMembers(init, visited, here, distance);
      var found := Discoveries(init, visited, here, distance);
      forall l | l in found ensures l.id != last.id {
        var k :| 0 <= k < |init| && init[k] == l;
        assert locations[k] == l;
      }
    }
  }

  lemma DistinctPrefix(d: seq<LocationData>)
    requires DistinctIds(d) && d != []
    ensures DistinctIds(d[..|d| - 1])
    ensures forall x :: x in d[..|d| - 1] ==> x.id != d[|d| - 1].id
  {
    var init := d[..|d| - 1];
    forall i, j | 0 <= i < j < |init| ensures init[i].id != init[j].id { assert init[i] == d[i] && init[j] == d[j]; }
    forall x | x in init ensures x.id != d[|d| - 1].id {
      var k :| 0 <= k < |init| && init[k] == x;
      assert d[k] == x;
    }
  }

  lemma {:induction false} AnnouncedOnce(d: seq<LocationData>, l: LocationData)
    requires DistinctIds(d) && l in d
    ensures multiset(Announcements(d))[Notify(l.id, l.name)] == 1
    ensures multiset(CheckIns(d))[CheckInCall(l.id)] == 1
  {
    var init := d[..|d| - 1];
    var last := d[|d| - 1];
    DistinctPrefix(d);
    EffectsStep(init, last);
    assert d == init + [last];
    if l == last {
      NeverAnnounced(init, l.id);
    } else {
      assert l in init;
      AnnouncedOnce(init, l);
    }
  }

  lemma {:induction false} NeverAnnounced(d: seq<LocationData>, id: Id)
    requires forall l :: l in d ==> l.id != id
    ensures forall name :: multiset(Announcements(d))[Notify(id, name)] == 0
    ensures multiset(CheckIns(d))[CheckInCall(id)] == 0
  {
    forall name ensures multiset(Announcements(d))[Notify(id, name)] == 0 {
      assert Notify(id, name) !in Announcements(d);
    }
    assert CheckInCall(id) !in CheckIns(d);
  }

  /** In a catalogue with distinct ids, every location in range and not yet
      visited is announced exactly once and checked in exactly once, and no
      other location appears in the effects. */
  lemma DiscoveredExactlyOnce(locations: seq<LocationData>, visited: set<Id>, here: Coord,
                              distance: (Coord, Coord) -> real, l: LocationData)
    requires DistinctIds(locations) && l in locations
    ensures var effects := multiset(ScanEffects(locations, visited, here, distance));
      if l.id !in visited && InRange(distance, here, l)
      then effects[Notify(l.id, l.name)] == 1 && effects[CheckInCall(l.id)] == 1
      else effects[Notify(l.id, l.name)] == 0 && effects[CheckInCall(l.id)] == 0
  {
    var d := Discoveries(locations, visited, here, distance);
    DiscoveriesDistinct(locations, visited, here, distance);
    DiscoveriesMembers(locations, visited, here, distance);
    assert Notify(l.id, l.name) !in CheckIns(d);
    assert CheckInCall(l.id) !in Announcements(d);
    if l.id !in visited && InRange(distance, here, l) {
      AnnouncedOnce(d, l);
    } else {
      forall x | x in d ensures x.id != l.id {
        var i :| 0 <= i < |locations| && locations[i] == x;
        var j :| 0 <= j < |locations| && locations[j] == l;
        assert i != j ==> locations[i].id != locations[j].id;
      }
      NeverAnnounced(d, l.id);
    }
  }

  /** A location discovered by one scan is never discovered again by a
      later one on the updated visited ids, wherever the device is then. */
  lemma NoRepeatedDiscovery(locations: seq<LocationData>, visited: set<Id>, here: Coord, later: Coord,
                            distance: (Coord, Coord) -> real)
    ensures var first := Discoveries(locations, visited, here, distance);
      forall l :: l in Discoveries(locations, visited + IdsOf(first), later, distance) ==> l !in first
  {
    var first := Discoveries(locations, visited, here, distance);
    DiscoveriesMembers(locations, visited + IdsOf(first), later, distance);
    IdsOfMembers(first);
  }

  /** The counterexample to the watcher as registered: with the catalogue
      loaded and the device standing on a location, the intended scan
      announces and checks in, while the mounted callback does nothing. */
  lemma StaleWatcherMissesDiscovery(l: LocationData, distance: (Coord, Coord) -> real)
    requires distance(l.position, l.position) == 0.0
    ensures ScanEffects([l], {}, l.position, distance) == [Notify(l.id, l.name), CheckInCall(l.id)]
    ensures ScanEffects([], {}, l.position, distance) == []
  {
    var none: seq<LocationData> := [];
    assert [l][..0] == none;
    assert Discoveries([l], {}, l.position, distance) == [l];
  }

  // ---------------------------------------------------------------------
  // Against the backend

  /** The rows of `GET /users/:id/visited` as the screen reads them. */
  function ServerRows(entries: seq<UserController.VisitedEntry>): (rows: seq<VisitRow>)
    ensures |rows| == |entries|
    ensures forall i :: 0 <= i < |entries| ==> rows[i] == VisitRow(Some(entries[i].visit.locationId), None)
  {
    if entries == [] then [] else [VisitRow(Some(entries[0].visit.locationId), None)] + ServerRows(entries[1..])
  }

  /** The ids read from the rows are the location ids of the visits the
      rows carry. */
  lemma RowIdsAreVisitIds(entries: seq<UserController.VisitedEntry>, visits: seq<Visit>)
    requires multiset(UserController.VisitsIn(entries)) == multiset(visits)
    ensures forall lid :: lid in LocationIdsOf(ServerRows(entries)) <==> exists v :: v in visits && v.locationId == lid
  {
    forall lid ensures lid in LocationIdsOf(ServerRows(entries)) <==> exists v :: v in visits && v.locationId == lid {
      if lid in LocationIdsOf(ServerRows(entries)) {
        RowIdIsVisitId(entries, visits, lid);
      }
      if exists v :: v in visits && v.locationId == lid {
        var v :| v in visits && v.locationId == lid;
        VisitIdIsRowId(entries, visits, v);
      }
    }
  }

  lemma RowIdIsVisitId(entries: seq<UserController.VisitedEntry>, visits: seq<Visit>, lid: Id)
    requires multiset(UserController.VisitsIn(entries)) == multiset(visits)
    requires lid in LocationIdsOf(ServerRows(entries))
    ensures exists v :: v in visits && v.locationId == lid
  {
    var rows := ServerRows(entries);
    var vs := UserController.VisitsIn(entries);
    var r :| r in rows && r.locationId.Some? && r.locationId.value == lid;
    var i :| 0 <= i < |rows| && rows[i] == r;
    assert vs[i] in multiset(vs);
    assert vs[i] in visits && vs[i].locationId == lid;
  }

  lemma VisitIdIsRowId(entries: seq<UserController.VisitedEntry>, visits: seq<Visit>, v: Visit)
    requires multiset(UserController.VisitsIn(entries)) == multiset(visits)
    requires v in visits
    ensures v.locationId in LocationIdsOf(ServerRows(entries))
  {
    var rows := ServerRows(entries);
    var vs := UserController.VisitsIn(entries);
    assert v in multiset(visits);
    var i :| 0 <= i < |vs| && vs[i] == v;
    assert rows[i] in rows && rows[i].locationId == Some(v.locationId);
  }

  /** The ids the screen loads are exactly the locations the backend
      records as visited by the user: the same set the nearest-unvisited
      query excludes. */
  lemma LoadedIdsAreServerVisits(s: DbState, userId: Id)
    ensures forall lid :: lid in LocationIdsOf(ServerRows(UserController.GetVisitedLocations(s, userId).visited))
                          <==> HasVisit(s.visits, userId, lid)
  {
    var entries := UserController.GetVisitedLocations(s, userId).visited;
    var mine := VisitsOf(s.visits, userId);
    RowIdsAreVisitIds(entries, mine);
    forall lid ensures (exists v :: v in mine && v.locationId == lid) <==> HasVisit(s.visits, userId, lid) {
      if HasVisit(s.visits, userId, lid) {
        assert FindVisit(s.visits, userId, lid).value in mine;
      }
    }
  }
}
