/** The backend's relational store: the rows of the User, Location,
    LocationDescription (timeline) and UserLocations (visit) tables, the
    lookups the controllers perform on them, and a `Database` object whose
    tables the controllers update in place. */
module Schema {
  import opened Wrappers

  type Id = string

  /** The `LocationCategory` enumeration, in declaration order. */
  datatype Category = Memorial | Building | Museum | Park | Other

  /** A WGS-84 coordinate in degrees. */
  datatype Coord = Coord(latitude: real, longitude: real)

  datatype Location = Location(
    id: Id, name: string, position: Coord, category: Category,
    imageUrl: Option<string>, description: Option<string>)

  /** A LocationDescription row: one event of a location's timeline. */
  datatype TimelineEvent = TimelineEvent(id: Id, locationId: Id, year: int, description: string)

  /** A User row; `totalPoints` defaults to 0 when the row is created. */
  datatype User = User(
    id: Id, email: string, passwordHash: string, firstName: string, lastName: string,
    totalPoints: int, createdAt: int)

  /** A UserLocations row: `userId` discovered `locationId` at `createdAt`. */
  datatype Visit = Visit(userId: Id, locationId: Id, createdAt: int)

  datatype DbState = DbState(
    users: seq<User>, locations: seq<Location>, visits: seq<Visit>, timeline: seq<TimelineEvent>)

  /** The uniqueness constraint on the compound key `(userId, locationId)`:
      at most one visit per pair. */
  ghost predicate UniqueVisits(vs: seq<Visit>) {
    forall i, j :: 0 <= i < j < |vs| ==>
      vs[i].userId != vs[j].userId || vs[i].locationId != vs[j].locationId
  }

  /** The store's key constraints: user ids, user emails and location ids are
      unique, and so is each visit pair. */
  ghost predicate Valid(s: DbState) {
    && (forall i, j :: 0 <= i < j < |s.users| ==> s.users[i].id != s.users[j].id)
    && (forall i, j :: 0 <= i < j < |s.users| ==> s.users[i].email != s.users[j].email)
    && (forall i, j :: 0 <= i < j < |s.locations| ==> s.locations[i].id != s.locations[j].id)
    && UniqueVisits(s.visits)
  }

  /** `location.findUnique({ where: { id } })`. */
  function FindLocation(locations: seq<Location>, id: Id): (r: Option<Location>)
    ensures r.Some? ==> r.value in locations && r.value.id == id
    ensures r.None? <==> forall l :: l in locations ==> l.id != id
  {
    if locations == [] then None
    else if locations[0].id == id then Some(locations[0])
    else FindLocation(locations[1..], id)
  }

  /** `user.findUnique({ where: { id } })`. */
  function FindUser(users: seq<User>, id: Id): (r: Option<User>)
    ensures r.Some? ==> r.value in users && r.value.id == id
    ensures r.None? <==> forall u :: u in users ==> u.id != id
  {
    if users == [] then None
    else if users[0].id == id then Some(users[0])
    else FindUser(users[1..], id)
  }

  /** `user.findUnique({ where: { email } })`. */
  function FindUserByEmail(users: seq<User>, email: string): (r: Option<User>)
    ensures r.Some? ==> r.value in users && r.value.email == email
    ensures r.None? <==> forall u :: u in users ==> u.email != email
  {
    if users == [] then None
    else if users[0].email == email then Some(users[0])
    else FindUserByEmail(users[1..], email)
  }

  /** `userLocations.findUnique` on the compound key `(userId, locationId)`. */
  function FindVisit(visits: seq<Visit>, userId: Id, locationId: Id): (r: Option<Visit>)
    ensures r.Some? ==> r.value in visits && r.value.userId == userId && r.value.locationId == locationId
    ensures r.None? <==> forall v :: v in visits ==> v.userId != userId || v.locationId != locationId
  {
    if visits == [] then None
    else if visits[0].userId == userId && visits[0].locationId == locationId then Some(visits[0])
    else FindVisit(visits[1..], userId, locationId)
  }

  predicate HasVisit(visits: seq<Visit>, userId: Id, locationId: Id) {
    FindVisit(visits, userId, locationId).Some?
  }

  /** `user.update({ where: { id }, data: { totalPoints: { increment: k } } })`
      applied to the table. */
  function AddPoints(users: seq<User>, id: Id, k: int): (r: seq<User>)
    ensures |r| == |users|
    ensures forall i :: 0 <= i < |users| ==>
      r[i] == if users[i].id == id then users[i].(totalPoints := users[i].totalPoints + k) else users[i]
  {
    if users == [] then []
    else
      [if users[0].id == id then users[0].(totalPoints := users[0].totalPoints + k) else users[0]]
      + AddPoints(users[1..], id, k)
  }

  /** `user.update({ where: { id }, data: { totalPoints: k } })` applied to
      the table. */
  function SetPoints(users: seq<User>, id: Id, k: int): (r: seq<User>)
    ensures |r| == |users|
    ensures forall i :: 0 <= i < |users| ==>
      r[i] == if users[i].id == id then users[i].(totalPoints := k) else users[i]
  {
    if users == [] then []
    else [if users[0].id == id then users[0].(totalPoints := k) else users[0]] + SetPoints(users[1..], id, k)
  }

  /** `userLocations.findMany({ where: { userId } })`, in table order. */
  function VisitsOf(visits: seq<Visit>, userId: Id): (r: seq<Visit>)
    ensures forall v :: v in r <==> v in visits && v.userId == userId
    ensures |r| <= |visits|
  {
    if visits == [] then []
    else if visits[0].userId == userId then [visits[0]] + VisitsOf(visits[1..], userId)
    else VisitsOf(visits[1..], userId)
  }

  /** The table after `userLocations.deleteMany({ where: { userId } })`. */
  function VisitsNotOf(visits: seq<Visit>, userId: Id): (r: seq<Visit>)
    ensures forall v :: v in r <==> v in visits && v.userId != userId
    ensures |r| <= |visits|
  {
    if visits == [] then []
    else if visits[0].userId == userId then VisitsNotOf(visits[1..], userId)
    else [visits[0]] + VisitsNotOf(visits[1..], userId)
  }

  /** The multiset of a table's rows is preserved by keeping the rows of one
      user apart from the others. */
  lemma {:induction false} VisitsSplit(visits: seq<Visit>, userId: Id)
    ensures multiset(VisitsOf(visits, userId)) + multiset(VisitsNotOf(visits, userId)) == multiset(visits)
  {
    if visits != [] {
      var rest := visits[1..];
      VisitsSplit(rest, userId);
      var inRest := multiset(VisitsOf(rest, userId)) + multiset(VisitsNotOf(rest, userId));
      assert visits == [visits[0]] + rest;
      assert multiset(visits) == multiset{visits[0]} + inRest;
      if visits[0].userId == userId {
        assert VisitsOf(visits, userId) == [visits[0]] + VisitsOf(rest, userId);
        assert multiset(VisitsOf(visits, userId)) == multiset{visits[0]} + multiset(VisitsOf(rest, userId));
        assert VisitsNotOf(visits, userId) == VisitsNotOf(rest, userId);
      } else {
        assert VisitsOf(visits, userId) == VisitsOf(rest, userId);
        assert VisitsNotOf(visits, userId) == [visits[0]] + VisitsNotOf(rest, userId);
        assert multiset(VisitsNotOf(visits, userId)) == multiset{visits[0]} + multiset(VisitsNotOf(rest, userId));
      }
    }
  }

  /** The Prisma client: the four tables, updated in place by the
      controllers and scripts. */
  class Database {
    var users: seq<User>
    var locations: seq<Location>
    var visits: seq<Visit>
    var timeline: seq<TimelineEvent>

    /** The tables as one value. */
    function State(): DbState
      reads this
    {
      DbState(users, locations, visits, timeline)
    }

    constructor (s: DbState)
      ensures State() == s
    {
      users, locations, visits, timeline := s.users, s.locations, s.visits, s.timeline;
    }

    /** `prisma.$transaction([userLocations.create(...), user.update(...)])`:
        the visit insert and the point increment commit together, or, when
        the user row is missing (a foreign-key violation and a failed
        update), neither does. */
    method CheckInTransaction(userId: Id, locationId: Id, points: int, now: int) returns (committed: bool)
      modifies this
      ensures committed <==> old(FindUser(users, userId)).Some?
      ensures committed ==> visits == old(visits) + [Visit(userId, locationId, now)]
                            && users == AddPoints(old(users), userId, points)
      ensures !committed ==> visits == old(visits) && users == old(users)
      ensures locations == old(locations) && timeline == old(timeline)
    {
      committed := FindUser(users, userId).Some?;
      if committed {
        visits := visits + [Visit(userId, locationId, now)];
        users := AddPoints(users, userId, points);
      }
    }
  }
}
