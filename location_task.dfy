/** The background location task: on each batch of position updates it
    rebuilds the visited set from the server, then walks the catalogue and,
    for every location within the discovery radius that is not visited,
    checks in (when a token is stored) and sends a notification. */
module LocationTask {
  import opened Wrappers
  import opened Schema
  import opened Mobile
  import MapScreen

  /** `v.locationId || v.id`: the key a visited entry adds to the set. */
  function EntryKey(v: VisitRow): (key: Option<Id>)
    ensures Truthy(v.locationId) ==> key == v.locationId
    ensures !Truthy(v.locationId) ==> key == v.id
  {
    if Truthy(v.locationId) then v.locationId else v.id
  }

  /** The ids a run of entries adds; a missing key adds only `undefined`,
      which no catalogue id equals. */
  function KeysOf(rows: seq<VisitRow>): (keys: set<Id>)
    ensures forall r :: r in rows && EntryKey(r).Some? ==> EntryKey(r).value in keys
  {
    if rows == [] then {}
    else
      var init := rows[..|rows| - 1];
      var last := rows[|rows| - 1];
      assert rows == init + [last];
      KeysOf(init) + (if EntryKey(last).Some? then {EntryKey(last).value} else {})
  }

  lemma {:induction false} KeysOfOnlyKeys(rows: seq<VisitRow>)
    ensures forall id :: id in KeysOf(rows) ==> exists r :: r in rows && EntryKey(r) == Some(id)
  {
    if rows != [] {
      var init := rows[..|rows| - 1];
      assert rows == init + [rows[|rows| - 1]];
      KeysOfOnlyKeys(init);
    }
  }

  /** When every entry carries its location id, as the backend's do, the
      background task and the map screen read the same visited set. */
  lemma SameVisitedAsMapScreen(rows: seq<VisitRow>)
    requires forall r :: r in rows ==> Truthy(r.locationId)
    ensures KeysOf(rows) == MapScreen.LocationIdsOf(rows)
  {
    KeysOfOnlyKeys(rows);
  }

  /** The visited set the task works with: empty when no user is stored or
      the visited list cannot be fetched. */
  function StoredVisited(userString: Option<string>, visited: Reply<Option<seq<VisitRow>>>): (r: set<Id>)
    ensures !Truthy(userString) || !visited.Ok? || visited.body.None? ==> r == {}
    ensures Truthy(userString) && visited.Ok? && visited.body.Some? ==>
      forall k :: 0 <= k < |visited.body.value| && EntryKey(visited.body.value[k]).Some? ==> EntryKey(visited.body.value[k]).value in r
  {
    if Truthy(userString) && visited.Ok? && visited.body.Some? then KeysOf(visited.body.value) else {}
  }

  /** Per discovery, in catalogue order: the check-in request when a token
      is stored, then the notification. */
  function Interleaved(d: seq<LocationData>, hasToken: bool): (e: seq<Effect>)
    ensures |e| == if hasToken then 2 * |d| else |d|
  {
    if d == [] then []
    else
      var last := d[|d| - 1];
      Interleaved(d[..|d| - 1], hasToken) + (if hasToken then [CheckInCall(last.id)] else []) + [Notify(last.id, last.name)]
  }

  /** With a token, each discovery's check-in request comes right before its
      notification; without one, the effects are the notifications alone. */
  lemma {:induction false} InterleavedShape(d: seq<LocationData>, hasToken: bool)
    ensures hasToken ==> |Interleaved(d, hasToken)| == 2 * |d|
    ensures hasToken ==> forall k :: 0 <= k < |d| ==>
      Interleaved(d, hasToken)[2 * k] == CheckInCall(d[k].id) && Interleaved(d, hasToken)[2 * k + 1] == Notify(d[k].id, d[k].name)
    ensures !hasToken ==> Interleaved(d, hasToken) == MapScreen.Announcements(d)
  {
    if d != [] {
      var init := d[..|d| - 1];
      var last := d[|d| - 1];
      InterleavedShape(init, hasToken);
      var rest := Interleaved(init, hasToken);
      if hasToken {
        var e := Interleaved(d, hasToken);
        assert e == rest + [CheckInCall(last.id), Notify(last.id, last.name)];
        forall k | 0 <= k < |d| ensures e[2 * k] == CheckInCall(d[k].id) && e[2 * k + 1] == Notify(d[k].id, d[k].name) {
          if k < |init| {
            assert e[2 * k] == rest[2 * k] && e[2 * k + 1] == rest[2 * k + 1];
            assert init[k] == d[k];
          }
        }
      }
    }
  }

  /** The effects one run of the task has, given what it reads: the task's
      `error` and `data` arguments, the stored token and user (`storageFails`
      when reading either rejects), the replies to the catalogue and
      visited-list requests, `parse` for `JSON.parse` (None when it throws)
      and `distance` for geolib's `getDistance`. */
  function TaskEffects(error: bool, fixes: Option<seq<Coord>>, token: Option<string>, userString: Option<string>,
                       storageFails: bool, catalogue: Reply<seq<LocationData>>, parse: string -> Option<AppUser>,
                       visited: Reply<Option<seq<VisitRow>>>, distance: (Coord, Coord) -> real): (e: seq<Effect>)
    // nothing happens on an error, without a position, on a failed storage read, without the catalogue,
    // or on an unreadable user record
    ensures error || fixes.None? || |fixes.value| == 0 || storageFails || !catalogue.Ok? ==> e == []
    ensures Truthy(userString) && parse(userString.value).None? ==> e == []
    // without a stored token the task only notifies
    ensures !Truthy(token) ==> forall k :: 0 <= k < |e| ==> e[k].Notify?
    // otherwise: per discovery from the first fix, the check-in (with a token) and then the notification
    ensures !error && fixes.Some? && |fixes.value| > 0 && !storageFails && catalogue.Ok?
            && !(Truthy(userString) && parse(userString.value).None?) ==>
      e == Interleaved(MapScreen.Discoveries(catalogue.body, StoredVisited(userString, visited), fixes.value[0], distance), Truthy(token))
  {
    if error || fixes.None? || |fixes.value| == 0 || storageFails || !catalogue.Ok? then []
    else if Truthy(userString) && parse(userString.value).None? then []
    else
      var d := MapScreen.Discoveries(catalogue.body, StoredVisited(userString, visited), fixes.value[0], distance);
      InterleavedShape(d, Truthy(token));
      Interleaved(d, Truthy(token))
  }

  lemma KeysStep(rows: seq<VisitRow>, j: nat)
    requires j < |rows|
    ensures KeysOf(rows[..j + 1]) == KeysOf(rows[..j]) + (if EntryKey(rows[j]).Some? then {EntryKey(rows[j]).value} else {})
  {
    assert rows[..j + 1][..j] == rows[..j];
  }

  lemma InterleavedStep(d: seq<LocationData>, l: LocationData, hasToken: bool)
    ensures Interleaved(d + [l], hasToken) ==
      Interleaved(d, hasToken) + (if hasToken then [CheckInCall(l.id)] else []) + [Notify(l.id, l.name)]
  {
    assert (d + [l])[..|d|] == d;
  }

  /** The task body. `fixes` is `data.locations`, most recent first, None
      when `data` is missing. */
  method RunTask(error: bool, fixes: Option<seq<Coord>>, store: SecureStore, storageFails: bool,
                 catalogue: Reply<seq<LocationData>>, parse: string -> Option<AppUser>,
                 visited: Reply<Option<seq<VisitRow>>>, distance: (Coord, Coord) -> real) returns (effects: seq<Effect>)
    ensures effects == TaskEffects(error, fixes, store.GetItem(TokenKey), store.GetItem(UserKey), storageFails,
                                   catalogue, parse, visited, distance)
  {
    effects := [];
    if error || fixes.None? {
      return;
    }
    if |fixes.value| == 0 {
      return;
    }
    var here := fixes.value[0];
    if storageFails {
      return;
    }
    var token := store.GetItem(TokenKey);
    var userString := store.GetItem(UserKey);
    if !catalogue.Ok? {
      return;
    }
    var visitedIds: set<Id> := {};
    if userString.Some? && userString.value != "" {
      var user := parse(userString.value);
      if user.None? {
        return;
      }
      if visited.Ok? && visited.body.Some? {
        visitedIds := CollectVisited(visited.body.value);
      }
    }
    var hasToken := token.Some? && token.value != "";
    effects := ScanCatalogue(catalogue.body, visitedIds, here, hasToken, distance);
  }

  /** `visitedData.data.visited.forEach(v => visitedIds.add(v.locationId || v.id))`. */
  method CollectVisited(rows: seq<VisitRow>) returns (visitedIds: set<Id>)
    ensures visitedIds == KeysOf(rows)
  {
    visitedIds := {};
    var j := 0;
    while j < |rows|
      invariant 0 <= j <= |rows|
      invariant visitedIds == KeysOf(rows[..j])
    {
      KeysStep(rows, j);
      var key := if rows[j].locationId.Some? && rows[j].locationId.value != "" then rows[j].locationId else rows[j].id;
      if key.Some? {
        visitedIds := visitedIds + {key.value};
      }
      j := j + 1;
    }
    assert rows[..|rows|] == rows;
  }

  /** The `for (const loc of locations)` loop. */
  method ScanCatalogue(locations: seq<LocationData>, visitedIds: set<Id>, here: Coord, hasToken: bool,
                       distance: (Coord, Coord) -> real) returns (effects: seq<Effect>)
    ensures effects == Interleaved(MapScreen.Discoveries(locations, visitedIds, here, distance), hasToken)
  {
    effects := [];
    for i := 0 to |locations|
      invariant effects == Interleaved(MapScreen.Discoveries(locations[..i], visitedIds, here, distance), hasToken)
    {
      MapScreen.DiscoveriesStep(locations, i, visitedIds, here, distance);
      InterleavedStep(MapScreen.Discoveries(locations[..i], visitedIds, here, distance), locations[i], hasToken);
      var loc := locations[i];
      if loc.id !in visitedIds && distance(here, loc.position) < ProximityRadius {
        var checkIn: seq<Effect> := if hasToken then [CheckInCall(loc.id)] else [];
        effects := effects + checkIn + [Notify(loc.id, loc.name)];
      }
    }
    assert locations[..|locations|] == locations;
  }

  // ---------------------------------------------------------------------
  // Against the foreground scan

  /** The notifications in a run of effects, in order. */
  function Notifications(e: seq<Effect>): seq<Effect> {
    if e == [] then [] else (if e[0].Notify? then [e[0]] else []) + Notifications(e[1..])
  }

  /** The check-in requests in a run of effects, in order. */
  function Requests(e: seq<Effect>): seq<Effect> {
    if e == [] then [] else (if e[0].CheckInCall? then [e[0]] else []) + Requests(e[1..])
  }

  lemma {:induction false} NotificationsConcat(a: seq<Effect>, b: seq<Effect>)
    ensures Notifications(a + b) == Notifications(a) + Notifications(b)
  {
    if a == [] {
      assert a + b == b;
    } else {
      assert (a + b)[0] == a[0] && (a + b)[1..] == a[1..] + b;
      NotificationsConcat(a[1..], b);
    }
  }

  lemma {:induction false} RequestsConcat(a: seq<Effect>, b: seq<Effect>)
    ensures Requests(a + b) == Requests(a) + Requests(b)
  {
    if a == [] {
      assert a + b == b;
    } else {
      assert (a + b)[0] == a[0] && (a + b)[1..] == a[1..] + b;
      RequestsConcat(a[1..], b);
    }
  }

  /** The background task discovers what the map screen's scan discovers
      from the same position and visited set: it sends the same
      notifications in the same order ... */
  lemma {:induction false} SameNotifications(d: seq<LocationData>, hasToken: bool)
    ensures Notifications(Interleaved(d, hasToken)) == MapScreen.Announcements(d)
  {
    if d != [] {
      var init := d[..|d| - 1];
      var last := d[|d| - 1];
      var call: seq<Effect> := if hasToken then [CheckInCall(last.id)] else [];
      var note := [Notify(last.id, last.name)];
      SameNotifications(init, hasToken);
      SingleEffects(last);
      calc {
        Notifications(Interleaved(d, hasToken));
        Notifications(Interleaved(init, hasToken) + call + note);
        { NotificationsConcat(Interleaved(init, hasToken) + call, note); }
        Notifications(Interleaved(init, hasToken) + call) + Notifications(note);
        { NotificationsConcat(Interleaved(init, hasToken), call); }
        MapScreen.Announcements(init) + Notifications(call) + note;
        MapScreen.Announcements(init) + note;
        MapScreen.Announcements(d);
      }
    }
  }

  /** ... and the same check-in requests when a token is stored, none
      otherwise; only the interleaving differs. */
  lemma {:induction false} SameRequests(d: seq<LocationData>, hasToken: bool)
    ensures Requests(Interleaved(d, hasToken)) == if hasToken then MapScreen.CheckIns(d) else []
  {
    if d != [] {
      var init := d[..|d| - 1];
      var last := d[|d| - 1];
      var call: seq<Effect> := if hasToken then [CheckInCall(last.id)] else [];
      var note := [Notify(last.id, last.name)];
      SameRequests(init, hasToken);
      SingleEffects(last);
      calc {
        Requests(Interleaved(d, hasToken));
        Requests(Interleaved(init, hasToken) + call + note);
        { RequestsConcat(Interleaved(init, hasToken) + call, note); }
        Requests(Interleaved(init, hasToken) + call) + Requests(note);
        { RequestsConcat(Interleaved(init, hasToken), call); }
        (if hasToken then MapScreen.CheckIns(init) else []) + Requests(call) + [];
      }
      if hasToken {
        assert MapScreen.CheckIns(d) == MapScreen.CheckIns(init) + [CheckInCall(last.id)];
      }
    }
  }

  lemma SingleEffects(l: LocationData)
    ensures Notifications([Notify(l.id, l.name)]) == [Notify(l.id, l.name)]
    ensures Requests([Notify(l.id, l.name)]) == []
    ensures Notifications([CheckInCall(l.id)]) == [] && Notifications([]) == []
    ensures Requests([CheckInCall(l.id)]) == [CheckInCall(l.id)] && Requests([]) == []
  {
    assert [Notify(l.id, l.name)][1..] == [];
    assert [CheckInCall(l.id)][1..] == [];
  }

  /** A run of the task that gets past its early returns notifies every
      discovery from the first fix, in catalogue order, exactly as the map
      screen announces them, and requests exactly the map screen's check-ins
      when a token is stored, none otherwise. */
  lemma TaskAnnouncesDiscoveries(error: bool, fixes: Option<seq<Coord>>, token: Option<string>, userString: Option<string>,
                                 catalogue: Reply<seq<LocationData>>, parse: string -> Option<AppUser>,
                                 visited: Reply<Option<seq<VisitRow>>>,
                                 onDevice: (Coord, Coord) -> real, geolib: (Coord, Coord) -> real)
    requires !error && fixes.Some? && |fixes.value| > 0 && catalogue.Ok?
    requires !(Truthy(userString) && parse(userString.value).None?)
    requires forall a, b :: onDevice(a, b) < ProximityRadius <==> geolib(a, b) < ProximityRadius
    ensures var e := TaskEffects(error, fixes, token, userString, false, catalogue, parse, visited, geolib);
      var d := MapScreen.Discoveries(catalogue.body, StoredVisited(userString, visited), fixes.value[0], onDevice);
      && Notifications(e) == MapScreen.Announcements(d)
      && Requests(e) == if Truthy(token) then MapScreen.CheckIns(d) else []
  {
    var visitedIds := StoredVisited(userString, visited);
    MapScreen.DiscoveriesSameDecision(catalogue.body, visitedIds, fixes.value[0], onDevice, geolib);
    var d := MapScreen.Discoveries(catalogue.body, visitedIds, fixes.value[0], onDevice);
    SameNotifications(d, Truthy(token));
    SameRequests(d, Truthy(token));
  }

  /** Only the most recent fix of a batch counts. */
  lemma OnlyFirstFixCounts(error: bool, a: seq<Coord>, b: seq<Coord>, token: Option<string>, userString: Option<string>,
                           storageFails: bool,
                           catalogue: Reply<seq<LocationData>>, parse: string -> Option<AppUser>,
                           visited: Reply<Option<seq<VisitRow>>>, distance: (Coord, Coord) -> real)
    requires |a| > 0 && |b| > 0 && a[0] == b[0]
    ensures TaskEffects(error, Some(a), token, userString, storageFails, catalogue, parse, visited, distance)
         == TaskEffects(error, Some(b), token, userString, storageFails, catalogue, parse, visited, distance)
  {
  }
}
