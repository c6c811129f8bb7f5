/** The location router of the backend: the `isLoggedIn` middleware that
    turns an optional bearer token into `req.user`, and the route table with
    Express's first-match dispatch. */
module LocationRoutes {
  import opened Wrappers
  import opened Schema
  import Text

  // ---------------------------------------------------------------------
  // isLoggedIn

  /** `authorization.split(' ')[1]`: the second space-separated field, None
      (`undefined`) when there is no space. */
  function BearerToken(authorization: string): (token: Option<string>)
    ensures token.Some? <==> ' ' in authorization
  {
    var fields := Text.Split(authorization, ' ');
    SplitHasField(authorization);
    if |fields| > 1 then Some(fields[1]) else None
  }

  lemma SplitHasField(s: string)
    ensures |Text.Split(s, ' ')| > 1 <==> ' ' in s
  {
    if ' ' in s {
      var i :| 0 <= i < |s| && s[i] == ' ';
      var k := FirstSpace(s);
      assert s == s[..k] + [' '] + s[k + 1..];
      Text.SplitAtFirst(s[..k], s[k + 1..], ' ');
    } else {
      Text.SplitNoSeparator(s, ' ');
    }
  }

  function FirstSpace(s: string): (k: nat)
    requires ' ' in s
    ensures k < |s| && s[k] == ' ' && ' ' !in s[..k]
  {
    if s[0] == ' ' then 0
    else
      var k := FirstSpace(s[1..]);
      assert s[..k + 1] == [s[0]] + s[1..][..k];
      k + 1
  }

  /** The user `isLoggedIn` attaches to the request: the header starts with
      "Bearer", its second field verifies as a token (`verify` answers the
      decoded `id`, None when `jwt.verify` throws) and the store holds that
      user.  A failing user lookup (`lookupFails`) leaves the caller a guest. */
  function ResolveUser(authorization: Option<string>, verify: string -> Option<Id>,
                       users: seq<User>, lookupFails: bool): (r: Option<Id>)
    ensures r.Some? <==>
      && authorization.Some? && Text.StartsWith(authorization.value, "Bearer")
      && BearerToken(authorization.value).Some?
      && verify(BearerToken(authorization.value).value).Some?
      && !lookupFails
      && exists u :: u in users && u.id == verify(BearerToken(authorization.value).value).value
    ensures r.Some? ==> r == verify(BearerToken(authorization.value).value)
  {
    if authorization.None? || authorization.value == "" || !Text.StartsWith(authorization.value, "Bearer") then None
    else match BearerToken(authorization.value)
      case None => None
      case Some(token) =>
        match verify(token)
        case None => None
        case Some(id) =>
          if lookupFails then None
          else match FindUser(users, id)
            case None => None
            case Some(currentUser) => Some(currentUser.id)
  }

  /** The parts of an Express request the middleware reads and writes. */
  class Request {
    var authorization: Option<string>
    var user: Option<Id>

    constructor (authorization: Option<string>)
      ensures this.authorization == authorization && user.None?
    {
      this.authorization := authorization;
      user := None;
    }
  }

  /** `isLoggedIn`: sets `req.user` when the bearer token resolves, leaves
      it alone otherwise, and in every case calls `next()` once (counted
      in `nextCalls`). */
  method IsLoggedIn(req: Request, db: Database, verify: string -> Option<Id>, lookupFails: bool)
    returns (nextCalls: nat)
    modifies req
    ensures nextCalls == 1
    ensures req.authorization == old(req.authorization)
    ensures var resolved := ResolveUser(old(req.authorization), verify, db.users, lookupFails);
            req.user == if resolved.Some? then resolved else old(req.user)
  {
    nextCalls := 0;
    if req.authorization.Some? && req.authorization.value != "" && Text.StartsWith(req.authorization.value, "Bearer") {
      var token := BearerToken(req.authorization.value);
      // jwt.verify throws on a missing or bad token; the catch leaves a guest
      if token.Some? {
        var decoded := verify(token.value);
        if decoded.Some? && !lookupFails {
          var currentUser := FindUser(db.users, decoded.value);
          if currentUser.Some? {
            req.user := Some(currentUser.value.id);
          }
        }
      }
    }
    nextCalls := nextCalls + 1;
  }

  // ---------------------------------------------------------------------
  // Route table

  datatype Verb = Get | Post
  datatype Middleware = Protect | LoggedIn
  datatype Handler =
    | GetCategories | CreateLocation | GetAllLocations | GetNearestUnvisited
    | GetLocation | GetLocationTimeline | AddTimelineEvent

  /** A registration: the path pattern is a list of segments, a segment
      starting with ':' being a parameter. */
  datatype Route = Route(verb: Verb, pattern: seq<string>, middleware: seq<Middleware>, handler: Handler)

  /** An Express router: registrations kept in order. */
  class Router {
    var routes: seq<Route>

    constructor ()
      ensures routes == []
    {
      routes := [];
    }

    method Register(verb: Verb, pattern: seq<string>, middleware: seq<Middleware>, handler: Handler)
      modifies this
      ensures routes == old(routes) + [Route(verb, pattern, middleware, handler)]
    {
      routes := routes + [Route(verb, pattern, middleware, handler)];
    }
  }

  /** The table `locationRoutes.ts` registers, in registration order. */
  function LocationRouteTable(): (r: seq<Route>)
    ensures |r| == 7
    ensures forall j, k :: 0 <= j < k < |r| ==> r[j].handler != r[k].handler
    // the two literal one-segment GET routes are registered before `/:id`
    ensures r[0].verb == Get && r[0].pattern == ["categories"] && r[0].handler == GetCategories
    ensures r[3].verb == Get && r[3].pattern == ["nearest-unvisited"] && r[3].handler == GetNearestUnvisited
            && r[3].middleware == [Protect]
    ensures r[4].verb == Get && r[4].pattern == [":id"] && r[4].handler == GetLocation && r[4].middleware == [LoggedIn]
  {
    [ Route(Get, ["categories"], [], GetCategories),
      Route(Post, [], [Protect], CreateLocation),
      Route(Get, [], [], GetAllLocations),
      Route(Get, ["nearest-unvisited"], [Protect], GetNearestUnvisited),
      Route(Get, [":id"], [LoggedIn], GetLocation),
      Route(Get, [":id", "timeline"], [], GetLocationTimeline),
      Route(Post, [":id", "timeline"], [Protect], AddTimelineEvent) ]
  }

  /** The sequence of `router.get` / `router.post` calls. */
  method BuildLocationRouter() returns (router: Router)
    ensures fresh(router)
    ensures router.routes == LocationRouteTable()
  {
    router := new Router();
    router.Register(Get, ["categories"], [], GetCategories);
    router.Register(Post, [], [Protect], CreateLocation);
    router.Register(Get, [], [], GetAllLocations);
    router.Register(Get, ["nearest-unvisited"], [Protect], GetNearestUnvisited);
    router.Register(Get, [":id"], [LoggedIn], GetLocation);
    router.Register(Get, [":id", "timeline"], [], GetLocationTimeline);
    router.Register(Post, [":id", "timeline"], [Protect], AddTimelineEvent);
  }

  predicate IsParameter(segment: string) {
    |segment| > 0 && segment[0] == ':'
  }

  /** A parameter takes any non-empty segment; a literal matches ignoring
      ASCII case (Express routes are case-insensitive by default). */
  predicate SegmentMatches(pattern: string, segment: string) {
    if IsParameter(pattern) then segment != "" else Text.SameIgnoringCase(pattern, segment)
  }

  predicate Matches(r: Route, verb: Verb, path: seq<string>) {
    r.verb == verb && |r.pattern| == |path| && forall i :: 0 <= i < |path| ==> SegmentMatches(r.pattern[i], path[i])
  }

  /** The first registered route that matches, as Express tries them. */
  function Dispatch(routes: seq<Route>, verb: Verb, path: seq<string>): (r: Option<Route>)
    ensures r.Some? ==> r.value in routes && Matches(r.value, verb, path)
    ensures r.None? ==> forall q :: q in routes ==> !Matches(q, verb, path)
  {
    if routes == [] then None
    else if Matches(routes[0], verb, path) then Some(routes[0])
    else Dispatch(routes[1..], verb, path)
  }

  /** Dispatch answers the earliest matching registration, and nothing
      only when no registration matches. */
  lemma {:induction false} DispatchIsFirstMatch(routes: seq<Route>, verb: Verb, path: seq<string>)
    ensures var r := Dispatch(routes, verb, path);
      && (r.None? <==> forall q :: q in routes ==> !Matches(q, verb, path))
      && (r.Some? ==> exists k :: 0 <= k < |routes| && routes[k] == r.value && Matches(r.value, verb, path)
                        && forall j :: 0 <= j < k ==> !Matches(routes[j], verb, path))
  {
    if routes != [] && !Matches(routes[0], verb, path) {
      DispatchIsFirstMatch(routes[1..], verb, path);
      var r := Dispatch(routes, verb, path);
      if r.Some? {
        var k :| 0 <= k < |routes[1..]| && routes[1..][k] == r.value && Matches(r.value, verb, path)
                 && forall j :: 0 <= j < k ==> !Matches(routes[1..][j], verb, path);
        assert routes[k + 1] == r.value;
        forall j | 0 <= j < k + 1 ensures !Matches(routes[j], verb, path) {
          if j > 0 { assert routes[j] == routes[1..][j - 1]; }
        }
      }
      assert forall q :: q in routes ==> q == routes[0] || q in routes[1..];
    } else if routes != [] {
      assert routes[0] in routes;
    }
  }

  /** Registrations that do not match are passed over. */
  lemma {:induction false} DispatchSkips(routes: seq<Route>, verb: Verb, path: seq<string>, k: nat)
    requires k <= |routes|
    requires forall j :: 0 <= j < k ==> !Matches(routes[j], verb, path)
    ensures Dispatch(routes, verb, path) == Dispatch(routes[k..], verb, path)
  {
    if k > 0 {
      DispatchSkips(routes[1..], verb, path, k - 1);
      assert routes[1..][k - 1..] == routes[k..];
    }
  }

  /** The two literal single-segment GET paths registered before `/:id`. */
  predicate Reserved(segment: string) {
    Text.SameIgnoringCase("categories", segment) || Text.SameIgnoringCase("nearest-unvisited", segment)
  }

  /** `GET /categories` and `GET /nearest-unvisited` (in any letter case)
      reach their own handlers, and every other non-empty single segment
      reaches `getLocation` behind `isLoggedIn`. */
  lemma SingleSegmentDispatch(segment: string)
    requires segment != ""
    ensures var r := Dispatch(LocationRouteTable(), Get, [segment]);
      && r.Some?
      && (Text.SameIgnoringCase("categories", segment) ==> r.value.handler == GetCategories)
      && (Text.SameIgnoringCase("nearest-unvisited", segment) ==> r.value.handler == GetNearestUnvisited && r.value.middleware == [Protect])
      && (!Reserved(segment) ==> r.value.handler == GetLocation && r.value.middleware == [LoggedIn])
  {
    var t := LocationRouteTable();
    var path := [segment];
    assert !IsParameter("categories") && !IsParameter("nearest-unvisited");
    MatchesOneSegment(t[0], Get, segment);
    MatchesOneSegment(t[3], Get, segment);
    MatchesOneSegment(t[4], Get, segment);
    assert !Matches(t[1], Get, path) && !Matches(t[2], Get, path);
    if Text.SameIgnoringCase("categories", segment) {
    } else if Text.SameIgnoringCase("nearest-unvisited", segment) {
      DispatchSkips(t, Get, path, 3);
    } else {
      DispatchSkips(t, Get, path, 4);
    }
  }

  /** So a first-match lookup never hands a reserved segment to
      `getLocation`: `getLocation` is reached exactly by the non-reserved
      single segments. */
  lemma GetLocationReachedExactly(path: seq<string>)
    ensures var r := Dispatch(LocationRouteTable(), Get, path);
      (r.Some? && r.value.handler == GetLocation) <==> |path| == 1 && path[0] != "" && !Reserved(path[0])
  {
    if |path| == 1 && path[0] != "" {
      assert path == [path[0]];
      SingleSegmentDispatch(path[0]);
    } else {
      GetLocationNeedsOneSegment(path);
    }
  }

  lemma GetLocationNeedsOneSegment(path: seq<string>)
    requires !(|path| == 1 && path[0] != "")
    ensures var r := Dispatch(LocationRouteTable(), Get, path);
      !(r.Some? && r.value.handler == GetLocation)
  {
    var t := LocationRouteTable();
    DispatchIsFirstMatch(t, Get, path);
    var r := Dispatch(t, Get, path);
    if r.Some? && r.value.handler == GetLocation {
      OnlyOneGetLocation(r.value);
      assert false;
    }
  }

  lemma MatchesOneSegment(r: Route, verb: Verb, segment: string)
    requires |r.pattern| == 1
    ensures Matches(r, verb, [segment]) <==> r.verb == verb && SegmentMatches(r.pattern[0], segment)
  {
    if r.verb == verb && SegmentMatches(r.pattern[0], segment) {
      assert forall i :: 0 <= i < 1 ==> SegmentMatches(r.pattern[i], [segment][i]);
    }
  }

  lemma OnlyOneGetLocation(q: Route)
    requires q in LocationRouteTable() && q.handler == GetLocation
    ensures q == LocationRouteTable()[4]
  {
  }

  /** Registration order is what protects the literal paths: with `/:id`
      registered first, `GET /categories` would be a location lookup. */
  lemma OrderMatters()
    ensures var r := Dispatch([Route(Get, [":id"], [LoggedIn], GetLocation)] + LocationRouteTable(), Get, ["categories"]);
            r.Some? && r.value.handler == GetLocation
  {
    assert Matches(Route(Get, [":id"], [LoggedIn], GetLocation), Get, ["categories"]);
  }
}
