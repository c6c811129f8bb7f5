/** The maintenance script that resets the demo account "A Guest": it finds
    the first user named A Guest, deletes that user's visits and sets that
    user's points to 0. */
module ResetGuest {
  import opened Wrappers
  import opened Schema

  predicate IsGuest(u: User) {
    u.firstName == "A" && u.lastName == "Guest"
  }

  /** `user.findFirst({ where: { firstName: 'A', lastName: 'Guest' } })`. */
  function FindFirstGuest(users: seq<User>): (r: Option<User>)
    ensures r.Some? ==> r.value in users && IsGuest(r.value)
    ensures r.None? <==> forall u :: u in users ==> !IsGuest(u)
    ensures r.Some? ==> exists k :: 0 <= k < |users| && users[k] == r.value && forall j :: 0 <= j < k ==> !IsGuest(users[j])
  {
    if users == [] then None
    else if IsGuest(users[0]) then Some(users[0])
    else
      var r := FindFirstGuest(users[1..]);
      assert r.Some? ==> exists k :: 0 <= k < |users| && users[k] == r.value && forall j :: 0 <= j < k ==> !IsGuest(users[j]) by {
        if r.Some? {
          var k :| 0 <= k < |users[1..]| && users[1..][k] == r.value && forall j :: 0 <= j < k ==> !IsGuest(users[1..][j]);
          assert users[k + 1] == r.value;
          assert forall j :: 0 <= j < k + 1 ==> !IsGuest(users[j]) by {
            forall j | 0 <= j < k + 1 ensures !IsGuest(users[j]) { if j > 0 { assert users[j] == users[1..][j - 1]; } }
          }
        }
      }
      r
  }

  /** The store after the script. */
  function Reset(s: DbState): (t: DbState)
    ensures (forall u :: u in s.users ==> !IsGuest(u)) ==> t == s
    ensures t.locations == s.locations && t.timeline == s.timeline && |t.users| == |s.users|
    ensures forall v :: v in t.visits ==> v in s.visits
  {
    match FindFirstGuest(s.users)
    case None => s
    case Some(u) => s.(visits := VisitsNotOf(s.visits, u.id), users := SetPoints(s.users, u.id, 0))
  }

  /** `main`.  The command-line argument `email` is only reported on; it
      does not take part in finding the user.  Answers the id of the user
      reset (None when there is none) and the number of visits deleted. */
  method ResetAGuest(db: Database, email: Option<string>) returns (reset: Option<Id>, deleted: nat)
    modifies db
    ensures db.State() == Reset(old(db.State()))
    ensures reset == (match FindFirstGuest(old(db.users)) case None => None case Some(u) => Some(u.id))
    ensures reset.Some? ==> deleted == |old(db.visits)| - |db.visits|
  {
    var user := FindFirstGuest(db.users);
    if user.None? {
      return None, 0;
    }
    var before := |db.visits|;
    db.visits := VisitsNotOf(db.visits, user.value.id);
    deleted := before - |db.visits|;
    db.users := SetPoints(db.users, user.value.id, 0);
    reset := Some(user.value.id);
  }

  /** Without an A Guest nothing changes. */
  lemma ResetWithoutGuest(s: DbState)
    requires forall u :: u in s.users ==> !IsGuest(u)
    ensures Reset(s) == s
  {
  }

  /** After the reset the guest has no visits and no points, and everybody
      else keeps their visits and points; the other tables are untouched. */
  lemma ResetEffect(s: DbState, guest: User)
    requires FindFirstGuest(s.users) == Some(guest)
    ensures var t := Reset(s);
      && (forall v :: v in t.visits ==> v.userId != guest.id)
      && (forall v :: v in s.visits && v.userId != guest.id ==> v in t.visits)
      && (forall v :: v in t.visits ==> v in s.visits)
      && |t.users| == |s.users|
      && (forall i :: 0 <= i < |s.users| && s.users[i].id == guest.id ==> t.users[i].totalPoints == 0)
      && (forall i :: 0 <= i < |s.users| && s.users[i].id != guest.id ==> t.users[i] == s.users[i])
      && (forall i :: 0 <= i < |s.users| ==> t.users[i].(totalPoints := 0) == s.users[i].(totalPoints := 0))
      && t.locations == s.locations && t.timeline == s.timeline
  {
  }

  /** Exactly the guest's visits are deleted: the deleted count is the
      number of visits the guest had. */
  lemma ResetDeletesExactlyGuestVisits(s: DbState, guest: User)
    requires FindFirstGuest(s.users) == Some(guest)
    ensures |s.visits| - |Reset(s).visits| == |VisitsOf(s.visits, guest.id)|
  {
    VisitsSplit(s.visits, guest.id);
    assert |multiset(VisitsOf(s.visits, guest.id))| + |multiset(VisitsNotOf(s.visits, guest.id))| == |multiset(s.visits)|;
  }

  /** Running the script twice is the same as running it once. */
  lemma ResetIdempotent(s: DbState)
    ensures Reset(Reset(s)) == Reset(s)
  {
    match FindFirstGuest(s.users)
    case None =>
    case Some(u) =>
      var t := Reset(s);
      FirstGuestAfterSetPoints(s.users, u.id);
      VisitsNotOfTwice(s.visits, u.id);
      SetPointsTwice(s.users, u.id);
  }

  lemma {:induction false} FirstGuestAfterSetPoints(users: seq<User>, id: Id)
    requires FindFirstGuest(users).Some? && FindFirstGuest(users).value.id == id
    ensures FindFirstGuest(SetPoints(users, id, 0)) == Some(FindFirstGuest(users).value.(totalPoints := 0))
  {
    var r := SetPoints(users, id, 0);
    assert r == [r[0]] + r[1..];
    if !IsGuest(users[0]) {
      assert r[1..] == SetPoints(users[1..], id, 0);
      FirstGuestAfterSetPoints(users[1..], id);
    }
  }

  lemma {:induction false} VisitsNotOfTwice(visits: seq<Visit>, id: Id)
    ensures VisitsNotOf(VisitsNotOf(visits, id), id) == VisitsNotOf(visits, id)
  {
    if visits != [] { VisitsNotOfTwice(visits[1..], id); }
  }

  lemma SetPointsTwice(users: seq<User>, id: Id)
    ensures SetPoints(SetPoints(users, id, 0), id, 0) == SetPoints(users, id, 0)
  {
  }
}
