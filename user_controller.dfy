/** The user controller of the backend: the caller's profile and the list
    of a user's visits, newest first.  Both only read the store. */
module UserController {
  import opened Wrappers
  import opened Schema
  import Ordering

  /** The columns `getMe` selects (the password hash is left out). */
  datatype Profile = Profile(
    id: Id, email: string, firstName: string, lastName: string, totalPoints: int, createdAt: int)

  datatype MeResponse =
    | NotAuthenticated      // 401 'User not authenticated'
    | UserNotFound          // 404 'User not found'
    | Me(user: Profile)     // 200

  /** `getMe` for the authenticated user `reqUser` (None when the request
      carries no user). */
  function GetMe(users: seq<User>, reqUser: Option<Id>): (r: MeResponse)
    ensures r == NotAuthenticated <==> reqUser.None?
    ensures r == UserNotFound <==> reqUser.Some? && forall u :: u in users ==> u.id != reqUser.value
    ensures r.Me? ==> exists u :: u in users && u.id == reqUser.value
                        && r.user == Profile(u.id, u.email, u.firstName, u.lastName, u.totalPoints, u.createdAt)
  {
    if reqUser.None? then NotAuthenticated
    else match FindUser(users, reqUser.value)
      case None => UserNotFound
      case Some(u) => Me(Profile(u.id, u.email, u.firstName, u.lastName, u.totalPoints, u.createdAt))
  }

  /** A visit together with its location (`include: { location: true }`). */
  datatype VisitedEntry = VisitedEntry(visit: Visit, location: Option<Location>)

  datatype VisitedResponse = VisitedResponse(results: nat, visited: seq<VisitedEntry>)

  function WithLocation(locations: seq<Location>, v: Visit): VisitedEntry {
    VisitedEntry(v, FindLocation(locations, v.locationId))
  }

  function WithLocations(locations: seq<Location>, vs: seq<Visit>): (r: seq<VisitedEntry>)
    ensures |r| == |vs|
    ensures forall i :: 0 <= i < |vs| ==> r[i] == WithLocation(locations, vs[i])
  {
    if vs == [] then [] else [WithLocation(locations, vs[0])] + WithLocations(locations, vs[1..])
  }

  /** The visit rows of a response, without their locations. */
  function VisitsIn(entries: seq<VisitedEntry>): (r: seq<Visit>)
    ensures |r| == |entries|
    ensures forall i :: 0 <= i < |entries| ==> r[i] == entries[i].visit
  {
    if entries == [] then [] else [entries[0].visit] + VisitsIn(entries[1..])
  }

  /** Sort key for `orderBy: { createdAt: 'desc' }`. */
  function NewestFirst(v: Visit): int { -v.createdAt }

  /** `getVisitedLocations` for the path parameter `userId`.  The caller's
      own identity is not an input: it cannot influence the answer. */
  function GetVisitedLocations(s: DbState, userId: Id): (r: VisitedResponse)
    ensures r.results == |r.visited|
    // exactly that user's visits, each as often as stored
    ensures multiset(VisitsIn(r.visited)) == multiset(VisitsOf(s.visits, userId))
    ensures forall i :: 0 <= i < |r.visited| ==> r.visited[i].visit.userId == userId
    // newest first
    ensures forall i, j :: 0 <= i < j < |r.visited| ==> r.visited[i].visit.createdAt >= r.visited[j].visit.createdAt
    // each visit comes with its own location
    ensures forall i :: 0 <= i < |r.visited| ==> r.visited[i].location == FindLocation(s.locations, r.visited[i].visit.locationId)
  {
    var ordered := Ordering.SortBy(VisitsOf(s.visits, userId), NewestFirst);
    NewestFirstOrder(ordered, VisitsOf(s.visits, userId), userId);
    var entries := WithLocations(s.locations, ordered);
    EntriesCarryVisits(s.locations, ordered);
    VisitedResponse(|entries|, entries)
  }

  lemma EntriesCarryVisits(locations: seq<Location>, vs: seq<Visit>)
    ensures VisitsIn(WithLocations(locations, vs)) == vs
    ensures forall i :: 0 <= i < |vs| ==>
      WithLocations(locations, vs)[i].location == FindLocation(locations, WithLocations(locations, vs)[i].visit.locationId)
  {
    var entries := WithLocations(locations, vs);
    assert forall i :: 0 <= i < |vs| ==> VisitsIn(entries)[i] == vs[i];
  }

  lemma NewestFirstOrder(ordered: seq<Visit>, mine: seq<Visit>, userId: Id)
    requires Ordering.SortedBy(ordered, NewestFirst)
    requires multiset(ordered) == multiset(mine)
    requires forall v :: v in mine ==> v.userId == userId
    ensures forall i :: 0 <= i < |ordered| ==> ordered[i].userId == userId
    ensures forall i, j :: 0 <= i < j < |ordered| ==> ordered[i].createdAt >= ordered[j].createdAt
  {
    forall i | 0 <= i < |ordered| ensures ordered[i].userId == userId {
      assert ordered[i] in multiset(mine);
    }
    forall i, j | 0 <= i < j < |ordered| ensures ordered[i].createdAt >= ordered[j].createdAt {
      assert NewestFirst(ordered[i]) <= NewestFirst(ordered[j]);
    }
  }
}
