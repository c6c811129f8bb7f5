/** The location controller of the backend: the single-location read that
    doubles as the check-in, the nearest-unvisited query, the category
    filter of the catalogue and the ordered timeline. */
module LocationController {
  import opened Wrappers
  import opened Schema
  import Ordering

  /** Points awarded for discovering a location. */
  const PointsPerVisit := 1

  // ---------------------------------------------------------------------
  // getLocation: detail read fused with the check-in

  datatype GetLocationResponse =
    | LocationNotFound                       // 404 'Location not found'
    | StoreError                             // the transaction was rejected by the store
    | Found(isNewDiscovery: bool, pointsAwarded: int, location: Location)   // 200

  datatype CheckInOutcome = CheckInOutcome(db: DbState, response: GetLocationResponse)

  /** What one `GET /locations/:id` does to the store and answers, for the
      authenticated user `user` (None for a guest). */
  function CheckIn(s: DbState, id: Id, user: Option<Id>, now: int): (o: CheckInOutcome)
    // an unknown id is a 404 and changes nothing
    ensures FindLocation(s.locations, id).None? ==> o == CheckInOutcome(s, LocationNotFound)
    // a guest, or a pair already visited, reads the location and changes nothing
    ensures FindLocation(s.locations, id).Some? && (user.None? || HasVisit(s.visits, user.value, id)) ==>
      o == CheckInOutcome(s, Found(false, 0, FindLocation(s.locations, id).value))
    // an existing user's first visit is a new discovery worth one point
    ensures FindLocation(s.locations, id).Some? && user.Some? && FindUser(s.users, user.value).Some?
            && !HasVisit(s.visits, user.value, id) ==>
      o.response == Found(true, 1, FindLocation(s.locations, id).value)
    // a first visit adds exactly that visit and exactly one point to that user only
    ensures o.response.Found? && o.response.isNewDiscovery ==>
      && user.Some? && !HasVisit(s.visits, user.value, id)
      && o.response.pointsAwarded == 1
      && o.db.visits == s.visits + [Visit(user.value, id, now)]
      && |o.db.users| == |s.users|
      && (forall i :: 0 <= i < |s.users| ==>
            o.db.users[i].totalPoints == s.users[i].totalPoints + (if s.users[i].id == user.value then 1 else 0)
            && o.db.users[i].(totalPoints := 0) == s.users[i].(totalPoints := 0))
      && o.db.locations == s.locations && o.db.timeline == s.timeline
    // the store changes only on a new discovery
    ensures !(o.response.Found? && o.response.isNewDiscovery) ==> o.db == s
    ensures o.response.Found? ==> o.response.location == FindLocation(s.locations, id).value
    // the transaction fails only when the user row is gone
    ensures o.response == StoreError <==>
      FindLocation(s.locations, id).Some? && user.Some? && !HasVisit(s.visits, user.value, id)
      && FindUser(s.users, user.value).None?
  {
    match FindLocation(s.locations, id)
    case None => CheckInOutcome(s, LocationNotFound)
    case Some(location) =>
      if user.None? || HasVisit(s.visits, user.value, id) then
        CheckInOutcome(s, Found(false, 0, location))
      else if FindUser(s.users, user.value).None? then
        CheckInOutcome(s, StoreError)
      else
        CheckInOutcome(
          s.(visits := s.visits + [Visit(user.value, id, now)],
             users := AddPoints(s.users, user.value, PointsPerVisit)),
          Found(true, PointsPerVisit, location))
  }

  /** `getLocation`, run against the store. */
  method GetLocation(db: Database, id: Id, user: Option<Id>, now: int) returns (response: GetLocationResponse)
    modifies db
    ensures CheckInOutcome(db.State(), response) == CheckIn(old(db.State()), id, user, now)
  {
    var location := FindLocation(db.locations, id);
    if location.None? {
      return LocationNotFound;
    }
    var isNewDiscovery := false;
    var pointsAwarded := 0;
    if user.Some? {
      var existingVisit := FindVisit(db.visits, user.value, id);
      if existingVisit.None? {
        isNewDiscovery := true;
        pointsAwarded := PointsPerVisit;
        var committed := db.CheckInTransaction(user.value, id, pointsAwarded, now);
        if !committed {
          return StoreError;
        }
      }
    }
    response := Found(isNewDiscovery, pointsAwarded, location.value);
  }

  /** The second call for the same pair is a read-only no-op answering
      `isNewDiscovery = false, pointsAwarded = 0`. */
  lemma CheckInIdempotent(s: DbState, id: Id, user: Id, now: int, later: int)
    ensures var first := CheckIn(s, id, Some(user), now);
            var second := CheckIn(first.db, id, Some(user), later);
            first.response.Found? ==>
              second.db == first.db && second.response == Found(false, 0, first.response.location)
  {
    var first := CheckIn(s, id, Some(user), now);
    if first.response.Found? && first.response.isNewDiscovery {
      var v := Visit(user, id, now);
      assert v in first.db.visits;
      assert FindVisit(first.db.visits, user, id).Some?;
    }
  }

  /** `n` successive check-ins for the same pair, at times `now`, `now + 1`, ... */
  function CheckInTimes(s: DbState, id: Id, user: Id, now: int, n: nat): DbState
    decreases n
  {
    if n == 0 then s else CheckInTimes(CheckIn(s, id, Some(user), now).db, id, user, now + 1, n - 1)
  }

  /** Any number (at least one) of check-ins for the same pair leave the
      store as the first one did: one visit, and at most one point. */
  lemma {:induction false} RepeatedCheckInAwardsOnce(s: DbState, id: Id, user: Id, now: int, n: nat)
    requires n >= 1
    requires FindLocation(s.locations, id).Some?
    ensures CheckInTimes(s, id, user, now, n) == CheckIn(s, id, Some(user), now).db
  {
    var first := CheckIn(s, id, Some(user), now).db;
    if n > 1 {
      CheckInTimes_Stable(first, id, user, now + 1, n - 1, s, now);
    }
  }

  /** An existing user who has not visited the location yet, checking in
      any number of times, gains exactly one point and exactly one visit. */
  lemma FirstVisitAwardsExactlyOnePoint(s: DbState, id: Id, user: Id, now: int, n: nat, i: nat)
    requires n >= 1
    requires FindLocation(s.locations, id).Some? && !HasVisit(s.visits, user, id)
    requires i < |s.users| && s.users[i].id == user
    ensures var t := CheckInTimes(s, id, user, now, n);
      && t.visits == s.visits + [Visit(user, id, now)]
      && |t.users| == |s.users| && t.users[i].totalPoints == s.users[i].totalPoints + 1
  {
    RepeatedCheckInAwardsOnce(s, id, user, now, n);
    assert FindUser(s.users, user).Some?;
  }

  /** After one check-in succeeded or was a no-op, further check-ins change nothing. */
  lemma {:induction false} CheckInTimes_Stable(t: DbState, id: Id, user: Id, at: int, n: nat, s: DbState, now: int)
    requires FindLocation(s.locations, id).Some?
    requires t == CheckIn(s, id, Some(user), now).db
    ensures CheckInTimes(t, id, user, at, n) == t
    decreases n
  {
    if n > 0 {
      CheckInIdempotent(s, id, user, now, at);
      CheckInTimes_Stable(CheckIn(t, id, Some(user), at).db, id, user, at + 1, n - 1, s, now);
    }
  }

  /** A check-in keeps every key constraint of the store, in particular the
      uniqueness of `(userId, locationId)`. */
  lemma CheckInPreservesValid(s: DbState, id: Id, user: Option<Id>, now: int)
    requires Valid(s)
    ensures Valid(CheckIn(s, id, user, now).db)
  {
    var o := CheckIn(s, id, user, now);
    if o.response.Found? && o.response.isNewDiscovery {
      AppendNewVisit(s.visits, Visit(user.value, id, now));
      SameKeys(s.users, o.db.users);
    }
  }

  /** Tables that agree on everything but the points agree on the keys. */
  lemma SameKeys(a: seq<User>, b: seq<User>)
    requires |a| == |b|
    requires forall i :: 0 <= i < |a| ==> b[i].(totalPoints := 0) == a[i].(totalPoints := 0)
    ensures forall i :: 0 <= i < |a| ==> b[i].id == a[i].id && b[i].email == a[i].email
  {
    forall i | 0 <= i < |a| ensures b[i].id == a[i].id && b[i].email == a[i].email {
      assert b[i].(totalPoints := 0).id == a[i].(totalPoints := 0).id;
      assert b[i].(totalPoints := 0).email == a[i].(totalPoints := 0).email;
    }
  }

  lemma AppendNewVisit(vs: seq<Visit>, v: Visit)
    requires UniqueVisits(vs) && !HasVisit(vs, v.userId, v.locationId)
    ensures UniqueVisits(vs + [v])
  {
    var ws := vs + [v];
    forall i, j | 0 <= i < j < |ws| ensures ws[i].userId != ws[j].userId || ws[i].locationId != ws[j].locationId {
      if j == |vs| {
        assert ws[i] in vs;
      } else {
        assert ws[i] == vs[i] && ws[j] == vs[j];
      }
    }
  }

  /** A check-in never lowers anybody's points. */
  lemma CheckInMonotonic(s: DbState, id: Id, user: Option<Id>, now: int, i: nat)
    requires i < |s.users|
    ensures var t := CheckIn(s, id, user, now).db;
            i < |t.users| && t.users[i].id == s.users[i].id && t.users[i].totalPoints >= s.users[i].totalPoints
  {
    var o := CheckIn(s, id, user, now);
    if o.response.Found? && o.response.isNewDiscovery {
      assert o.db.users[i].(totalPoints := 0) == s.users[i].(totalPoints := 0);
    }
  }

  // ---------------------------------------------------------------------
  // getNearestUnvisited

  datatype NearestResponse =
    | Unauthorized                             // 401 'Authentication required'
    | BadCoordinates                           // 400 'Please provide valid lat and lon ...'
    | AllVisited                               // 200 'All locations visited!' with null data
    | Nearest(location: Location, distance: real)   // 200 with location and distance in meters

  /** `visited.map((v) => v.locationId)`. */
  function VisitedIds(visits: seq<Visit>, userId: Id): (ids: seq<Id>)
    ensures forall lid :: lid in ids <==> HasVisit(visits, userId, lid)
  {
    if visits == [] then []
    else if visits[0].userId == userId then [visits[0].locationId] + VisitedIds(visits[1..], userId)
    else VisitedIds(visits[1..], userId)
  }

  /** `location.findMany({ where: { id: { notIn: ids } } })`, in table order. */
  function LocationsNotIn(locations: seq<Location>, ids: seq<Id>): (r: seq<Location>)
    ensures forall l :: l in r <==> l in locations && l.id !in ids
  {
    if locations == [] then []
    else if locations[0].id in ids then LocationsNotIn(locations[1..], ids)
    else [locations[0]] + LocationsNotIn(locations[1..], ids)
  }

  /** The locations `userId` has not visited, in table order. */
  function Unvisited(s: DbState, userId: Id): (r: seq<Location>)
    ensures forall l :: l in r <==> l in s.locations && !HasVisit(s.visits, userId, l.id)
  {
    LocationsNotIn(s.locations, VisitedIds(s.visits, userId))
  }

  /** The `dist < minDistance` test, with None standing for the initial
      `Infinity`. */
  predicate Closer(d: real, minDistance: Option<real>) {
    minDistance.None? || d < minDistance.value
  }

  /** `getNearestUnvisited` for the user `user` (None for a guest) and the
      parsed query parameters `lat` and `lon` (None where `parseFloat` gives
      NaN). `distance` is the haversine distance in meters. */
  method GetNearestUnvisited(db: Database, user: Option<Id>, lat: Option<real>, lon: Option<real>,
                             distance: (Coord, Coord) -> real)
    returns (r: NearestResponse)
    ensures user.None? <==> r == Unauthorized
    ensures user.Some? && (lat.None? || lon.None?) <==> r == BadCoordinates
    ensures r == AllVisited <==> user.Some? && lat.Some? && lon.Some? && Unvisited(db.State(), user.value) == []
    ensures r.Nearest? ==>
      var here := Coord(lat.value, lon.value);
      var candidates := Unvisited(db.State(), user.value);
      && r.location in db.locations
      && !HasVisit(db.visits, user.value, r.location.id)
      && r.distance == distance(here, r.location.position)
      && (forall l :: l in candidates ==> r.distance <= distance(here, l.position))
      // ties go to the earliest candidate
      && exists k :: 0 <= k < |candidates| && candidates[k] == r.location
           && forall j :: 0 <= j < k ==> distance(here, candidates[j].position) > r.distance
  {
    if user.None? {
      return Unauthorized;
    }
    if lat.None? || lon.None? {
      return BadCoordinates;
    }
    var visitedIds := VisitedIds(db.visits, user.value);
    var unvisited := LocationsNotIn(db.locations, visitedIds);
    if |unvisited| == 0 {
      return AllVisited;
    }
    var here := Coord(lat.value, lon.value);
    var nearest, minDistance := Closest(unvisited, here, distance);
    r := Nearest(nearest, minDistance);
  }

  /** The loop of `getNearestUnvisited`: the first candidate at the least
      distance from `here`, found by keeping the best so far, starting from
      an infinite distance. */
  method Closest(candidates: seq<Location>, here: Coord, distance: (Coord, Coord) -> real)
    returns (nearest: Location, minDistance: real)
    requires |candidates| > 0
    ensures minDistance == distance(here, nearest.position)
    ensures forall l :: l in candidates ==> minDistance <= distance(here, l.position)
    ensures exists k :: 0 <= k < |candidates| && candidates[k] == nearest
              && forall j :: 0 <= j < k ==> distance(here, candidates[j].position) > minDistance
  {
    var nearestLoc: Option<Location> := None;
    var best: Option<real> := None;
    ghost var at := 0;
    for i := 0 to |candidates|
      invariant i == 0 <==> nearestLoc.None?
      invariant best.Some? <==> nearestLoc.Some?
      invariant i > 0 ==> 0 <= at < i && nearestLoc.value == candidates[at]
      invariant i > 0 ==> best.value == distance(here, candidates[at].position)
      invariant i > 0 ==> forall j :: 0 <= j < i ==> best.value <= distance(here, candidates[j].position)
      invariant i > 0 ==> forall j :: 0 <= j < at ==> distance(here, candidates[j].position) > best.value
    {
      var dist := distance(here, candidates[i].position);
      if Closer(dist, best) {
        best := Some(dist);
        nearestLoc := Some(candidates[i]);
        at := i;
      }
    }
    nearest := nearestLoc.value;
    minDistance := best.value;
    forall l | l in candidates ensures minDistance <= distance(here, l.position) {
      var j :| 0 <= j < |candidates| && candidates[j] == l;
    }
  }

  // ---------------------------------------------------------------------
  // getAllLocations, getCategories

  /** `Object.values(LocationCategory)`, in declaration order. */
  function GetCategories(): (cs: seq<Category>)
    ensures forall c :: c in cs
    ensures forall i, j :: 0 <= i < j < |cs| ==> cs[i] != cs[j]
  {
    var cs := [Memorial, Building, Museum, Park, Other];
    assert forall c :: c in cs by {
      forall c ensures c in cs {
        assert c == cs[0] || c == cs[1] || c == cs[2] || c == cs[3] || c == cs[4];
      }
    }
    cs
  }

  /** The enumeration member's string value. */
  function CategoryName(c: Category): string {
    match c
    case Memorial => "MEMORIAL"
    case Building => "BUILDING"
    case Museum => "MUSEUM"
    case Park => "PARK"
    case Other => "OTHER"
  }

  /** `Object.values(LocationCategory).includes(category)`, answering the
      member it names. */
  function ParseCategory(s: string): (r: Option<Category>)
    ensures r.Some? ==> CategoryName(r.value) == s
    ensures r.None? ==> forall c :: CategoryName(c) != s
  {
    if s == "MEMORIAL" then Some(Memorial)
    else if s == "BUILDING" then Some(Building)
    else if s == "MUSEUM" then Some(Museum)
    else if s == "PARK" then Some(Park)
    else if s == "OTHER" then Some(Other)
    else None
  }

  lemma CategoryRoundTrip(c: Category)
    ensures ParseCategory(CategoryName(c)) == Some(c)
  {
  }

  /** The columns `getAllLocations` selects (the description is left out). */
  datatype LocationSummary = LocationSummary(
    id: Id, name: string, position: Coord, category: Category, imageUrl: Option<string>)

  function Summary(l: Location): LocationSummary {
    LocationSummary(l.id, l.name, l.position, l.category, l.imageUrl)
  }

  function Summaries(ls: seq<Location>): (r: seq<LocationSummary>)
    ensures |r| == |ls|
    ensures forall i :: 0 <= i < |ls| ==> r[i] == Summary(ls[i])
  {
    if ls == [] then [] else [Summary(ls[0])] + Summaries(ls[1..])
  }

  /** `location.findMany({ where: filter })`, in table order. */
  function LocationsWhere(locations: seq<Location>, category: Option<Category>): (r: seq<Location>)
    ensures forall l :: l in r <==> l in locations && (category.Some? ==> l.category == category.value)
  {
    if locations == [] then []
    else if category.None? || locations[0].category == category.value then
      [locations[0]] + LocationsWhere(locations[1..], category)
    else LocationsWhere(locations[1..], category)
  }

  /** `getAllLocations` for the query parameter `category` (None when absent). */
  method GetAllLocations(db: Database, category: Option<string>)
    returns (results: nat, locations: seq<LocationSummary>)
    ensures results == |locations|
    // a valid category keeps exactly the locations of that category
    ensures category.Some? && ParseCategory(category.value).Some? ==>
      var c := ParseCategory(category.value).value;
      (forall l :: l in locations ==> l.category == c)
      && (forall l :: l in db.locations && l.category == c ==> Summary(l) in locations)
      && (forall s :: s in locations ==> exists l :: l in db.locations && s == Summary(l))
    // anything else is ignored and every location is listed, in table order
    ensures category.None? || ParseCategory(category.value).None? ==> locations == Summaries(db.locations)
  {
    var filter: Option<Category> := None;
    if category.Some? && category.value != "" {
      var c := ParseCategory(category.value);
      if c.Some? {
        filter := c;
      }
    }
    var rows := LocationsWhere(db.locations, filter);
    assert filter.None? ==> rows == db.locations by {
      if filter.None? { WhereNoneIsAll(db.locations); }
    }
    locations := Summaries(rows);
    results := |locations|;
    forall s | s in locations ensures exists l :: l in db.locations && s == Summary(l) {
      var i :| 0 <= i < |locations| && locations[i] == s;
      assert rows[i] in db.locations;
    }
    if filter.Some? {
      forall l | l in db.locations && l.category == filter.value ensures Summary(l) in locations {
        var i :| 0 <= i < |rows| && rows[i] == l;
        assert locations[i] == Summary(l);
      }
    }
  }

  lemma {:induction false} WhereNoneIsAll(locations: seq<Location>)
    ensures LocationsWhere(locations, None) == locations
  {
    if locations != [] { WhereNoneIsAll(locations[1..]); }
  }

  // ---------------------------------------------------------------------
  // getLocationTimeline

  /** `locationDescription.findMany({ where: { locationId } })`, in table order. */
  function EventsOf(events: seq<TimelineEvent>, locationId: Id): (r: seq<TimelineEvent>)
    ensures forall e :: e in r <==> e in events && e.locationId == locationId
  {
    if events == [] then []
    else if events[0].locationId == locationId then [events[0]] + EventsOf(events[1..], locationId)
    else EventsOf(events[1..], locationId)
  }

  function Year(e: TimelineEvent): int { e.year }

  datatype TimelineResponse = TimelineResponse(results: nat, timeline: seq<TimelineEvent>)

  /** `getLocationTimeline`: the location's events ordered by `year`
      ascending. */
  function GetLocationTimeline(events: seq<TimelineEvent>, locationId: Id): (r: TimelineResponse)
    ensures r.results == |r.timeline|
    ensures forall e :: e in r.timeline ==> e.locationId == locationId
    ensures forall i, j :: 0 <= i < j < |r.timeline| ==> r.timeline[i].year <= r.timeline[j].year
    // exactly the location's events, each as often as stored
    ensures multiset(r.timeline) == multiset(EventsOf(events, locationId))
  {
    var ordered := Ordering.SortBy(EventsOf(events, locationId), Year);
    Ordering.SameElements(ordered, EventsOf(events, locationId));
    assert forall i, j :: 0 <= i < j < |ordered| ==> Year(ordered[i]) <= Year(ordered[j]);
    TimelineResponse(|ordered|, ordered)
  }
}
