/** The friend-request lifecycle: three read-only queries over the
    friendship table and three actions that change it. */
module FriendsController {
  import opened Linq
  import opened Models
  import opened Store

  // ----- queries (no-tracking reads) -----

  /** For a record that involves `me`, the other user. */
  function OtherParty(f: Friendship, me: Guid): Guid
  {
    if f.requester == me then f.addressee else f.requester
  }

  /** GET list: the other user of every Accepted record involving `me`, one
      entry per record, kept only when that user exists (the join with the
      user table). */
  function List(fs: seq<Friendship>, users: set<Guid>, me: Guid): (r: seq<Guid>)
    ensures |r| <= |fs|
    ensures forall u :: u in r <==>
      u in users && exists i :: 0 <= i < |fs| && fs[i].status == Accepted && Involves(fs[i], me, u)
  {
    if |fs| == 0 then []
    else
      var f := fs[0];
      var rest := List(fs[1..], users, me);
      assert forall i :: 0 <= i < |fs| - 1 ==> fs[1..][i] == fs[i + 1];
      if f.status == Accepted && (f.requester == me || f.addressee == me) && OtherParty(f, me) in users
      then [OtherParty(f, me)] + rest
      else rest
  }

  /** GET requests/incoming: the requester of every Pending record addressed
      to `me`, kept only when that user exists. */
  function Incoming(fs: seq<Friendship>, users: set<Guid>, me: Guid): (r: seq<Guid>)
    ensures |r| <= |fs|
    ensures forall u :: u in r <==>
      u in users && exists i :: 0 <= i < |fs| && fs[i].status == Pending && fs[i].addressee == me && fs[i].requester == u
  {
    if |fs| == 0 then []
    else
      var f := fs[0];
      var rest := Incoming(fs[1..], users, me);
      assert forall i :: 0 <= i < |fs| - 1 ==> fs[1..][i] == fs[i + 1];
      if f.status == Pending && f.addressee == me && f.requester in users
      then [f.requester] + rest
      else rest
  }

  /** GET requests/outgoing: the addressee of every Pending record sent by
      `me`, kept only when that user exists. */
  function Outgoing(fs: seq<Friendship>, users: set<Guid>, me: Guid): (r: seq<Guid>)
    ensures |r| <= |fs|
    ensures forall u :: u in r <==>
      u in users && exists i :: 0 <= i < |fs| && fs[i].status == Pending && fs[i].requester == me && fs[i].addressee == u
  {
    if |fs| == 0 then []
    else
      var f := fs[0];
      var rest := Outgoing(fs[1..], users, me);
      assert forall i :: 0 <= i < |fs| - 1 ==> fs[1..][i] == fs[i + 1];
      if f.status == Pending && f.requester == me && f.addressee in users
      then [f.addressee] + rest
      else rest
  }

  predicate NoDuplicates(s: seq<Guid>)
  {
    forall i, j :: 0 <= i < j < |s| ==> s[i] != s[j]
  }

  /** With one record per pair, nobody is listed twice as a friend. */
  lemma {:induction false} ListHasNoDuplicates(fs: seq<Friendship>, users: set<Guid>, me: Guid)
    requires PairsUnique(fs)
    ensures NoDuplicates(List(fs, users, me))
  {
    if |fs| > 0 {
      var tail := fs[1..];
      assert PairsUnique(tail) by {
        assert forall i :: 0 <= i < |tail| ==> tail[i] == fs[i + 1];
      }
      ListHasNoDuplicates(tail, users, me);
    }
  }

  /** With one record per pair, nobody is listed twice as a requester. */
  lemma {:induction false} IncomingHasNoDuplicates(fs: seq<Friendship>, users: set<Guid>, me: Guid)
    requires PairsUnique(fs)
    ensures NoDuplicates(Incoming(fs, users, me))
  {
    if |fs| > 0 {
      var tail := fs[1..];
      assert PairsUnique(tail) by {
        assert forall i :: 0 <= i < |tail| ==> tail[i] == fs[i + 1];
      }
      IncomingHasNoDuplicates(tail, users, me);
    }
  }

  /** With one record per pair, nobody is listed twice as an addressee. */
  lemma {:induction false} OutgoingHasNoDuplicates(fs: seq<Friendship>, users: set<Guid>, me: Guid)
    requires PairsUnique(fs)
    ensures NoDuplicates(Outgoing(fs, users, me))
  {
    if |fs| > 0 {
      var tail := fs[1..];
      assert PairsUnique(tail) by {
        assert forall i :: 0 <= i < |tail| ==> tail[i] == fs[i + 1];
      }
      OutgoingHasNoDuplicates(tail, users, me);
    }
  }

  /** A user never appears both as a friend and as a pending requester or
      addressee of `me`: the one record of the pair has one status. */
  lemma FriendNotPending(fs: seq<Friendship>, users: set<Guid>, me: Guid, u: Guid)
    requires PairsUnique(fs)
    requires u in List(fs, users, me)
    ensures u !in Incoming(fs, users, me) && u !in Outgoing(fs, users, me)
  {
    var i :| 0 <= i < |fs| && fs[i].status == Accepted && Involves(fs[i], me, u);
    if u in Incoming(fs, users, me) {
      var j :| 0 <= j < |fs| && fs[j].status == Pending && fs[j].addressee == me && fs[j].requester == u;
      PairRecordUnique(fs, me, u, i, j);
    }
    if u in Outgoing(fs, users, me) {
      var j :| 0 <= j < |fs| && fs[j].status == Pending && fs[j].requester == me && fs[j].addressee == u;
      PairRecordUnique(fs, me, u, i, j);
    }
  }

  // ----- actions -----

  /** `after` is `before` with one Pending request from `me` to `target`,
      created at `now` under an id no earlier record carries, appended. */
  ghost predicate RequestAdded(before: seq<Friendship>, after: seq<Friendship>, me: Guid, target: Guid, now: Time)
  {
    |after| == |before| + 1 && after[..|before|] == before
    && var f := after[|before|];
    f.requester == me && f.addressee == target && f.status == Pending && f.createdAt == now
    && forall i :: 0 <= i < |before| ==> before[i].id != f.id
  }

  /** POST request/{userId}. */
  method Request(db: Db, me: Guid, userId: Guid, now: Time) returns (r: Response)
    requires db.Valid()
    modifies db
    ensures db.Valid()
    ensures db.dialogs == old(db.dialogs) && db.messages == old(db.messages)
    ensures me == userId ==>
      r == BadRequest("You cannot add yourself.") && db.friendships == old(db.friendships)
    ensures me != userId && userId !in db.users ==>
      r == NotFound("User not found.") && db.friendships == old(db.friendships)
    ensures me != userId && userId in db.users ==>
      match FindPair(old(db.friendships), me, userId)
      case None =>
        r == Ok && RequestAdded(old(db.friendships), db.friendships, me, userId, now)
      case Some(k) =>
        var f := old(db.friendships)[k];
        if f.status == Accepted then
          r == Conflict("Already friends.") && db.friendships == old(db.friendships)
        else if f.status == Pending && f.requester == userId then
          r == Ok && db.friendships == old(db.friendships)[k := f.(status := Accepted)]
        else
          r == Conflict("Request already exists.") && db.friendships == old(db.friendships)
  {
    if me == userId {
      return BadRequest("You cannot add yourself.");
    }
    if userId !in db.users {
      return NotFound("User not found.");
    }
    var existing := FindPair(db.friendships, me, userId);
    if existing.Some? {
      var k := existing.value;
      var f := db.friendships[k];
      if f.status == Accepted {
        return Conflict("Already friends.");
      }
      if f.status == Pending && f.requester == userId {
        SetStatusKeepsFriendshipTableValid(db.friendships, db.nextId, k, Accepted);
        db.friendships := db.friendships[k := f.(status := Accepted)];
        return Ok;
      }
      return Conflict("Request already exists.");
    }
    var id := db.NewGuid();
    var f := NewFriendship(id, now).(requester := me, addressee := userId, status := Pending);
    AddKeepsFriendshipTableValid(db.friendships, id, f);
    db.friendships := db.friendships + [f];
    return Ok;
  }

  /** The lookup Accept makes: a Pending request from `from` to `to`. */
  function FindPendingRequest(fs: seq<Friendship>, from: Guid, to: Guid): (r: Option<nat>)
    ensures r.Some? ==> r.value < |fs| && fs[r.value].requester == from
                        && fs[r.value].addressee == to && fs[r.value].status == Pending
    ensures r.None? <==> forall j :: 0 <= j < |fs| ==>
      !(fs[j].requester == from && fs[j].addressee == to && fs[j].status == Pending)
  {
    FirstIndexWhere(fs, (f: Friendship) => f.requester == from && f.addressee == to && f.status == Pending)
  }

  /** POST accept/{userId}. */
  method Accept(db: Db, me: Guid, userId: Guid) returns (r: Response)
    requires db.Valid()
    modifies db
    ensures db.Valid()
    ensures db.dialogs == old(db.dialogs) && db.messages == old(db.messages)
    ensures match FindPendingRequest(old(db.friendships), userId, me)
      case None =>
        r == NotFound("Request not found.") && db.friendships == old(db.friendships)
      case Some(k) =>
        r == Ok && db.friendships == old(db.friendships)[k := old(db.friendships)[k].(status := Accepted)]
  {
    var found := FindPendingRequest(db.friendships, userId, me);
    if found.None? {
      return NotFound("Request not found.");
    }
    var k := found.value;
    SetStatusKeepsFriendshipTableValid(db.friendships, db.nextId, k, Accepted);
    db.friendships := db.friendships[k := db.friendships[k].(status := Accepted)];
    return Ok;
  }

  /** POST cancel/{userId}: withdraws my request, or ends the relationship,
      whatever its status or direction. */
  method Cancel(db: Db, me: Guid, userId: Guid) returns (r: Response)
    requires db.Valid()
    modifies db
    ensures db.Valid()
    ensures db.dialogs == old(db.dialogs) && db.messages == old(db.messages)
    ensures match FindPair(old(db.friendships), me, userId)
      case None =>
        r == NotFound("") && db.friendships == old(db.friendships)
      case Some(k) =>
        r == Ok && db.friendships == old(db.friendships)[..k] + old(db.friendships)[k + 1..]
    ensures FindPair(db.friendships, me, userId).None?
  {
    var found := FindPair(db.friendships, me, userId);
    if found.None? {
      return NotFound("");
    }
    var k := found.value;
    var f := db.friendships[k];
    RemoveKeepsFriendshipTableValid(db.friendships, db.nextId, k);
    assert FindPair(db.friendships[..k] + db.friendships[k + 1..], me, userId).None? by {
      assert Involves(f, me, userId);
    }
    if f.status == Pending && f.requester == me {
      db.friendships := db.friendships[..k] + db.friendships[k + 1..];
    } else {
      db.friendships := db.friendships[..k] + db.friendships[k + 1..];
    }
    return Ok;
  }

  /** Two users who request each other in turn end with exactly one record
      for their pair, and it is Accepted. */
  method ReciprocalRequests(db: Db, a: Guid, b: Guid, t1: Time, t2: Time) returns (r1: Response, r2: Response)
    requires db.Valid()
    requires a != b && a in db.users && b in db.users
    requires FindPair(db.friendships, a, b).None?
    modifies db
    ensures db.Valid()
    ensures r1 == Ok && r2 == Ok
    ensures |db.friendships| == |old(db.friendships)| + 1
    ensures db.friendships[..|old(db.friendships)|] == old(db.friendships)
    ensures var f := db.friendships[|old(db.friendships)|];
      f.requester == a && f.addressee == b && f.status == Accepted
    ensures forall i :: 0 <= i < |db.friendships| && Involves(db.friendships[i], a, b) ==>
      i == |old(db.friendships)|
  {
    ghost var before := db.friendships;
    r1 := Request(db, a, b, t1);
    ghost var middle := db.friendships;
    FindPairFindsTheRecord(middle, a, b, |before|);
    r2 := Request(db, b, a, t2);
    forall i | 0 <= i < |db.friendships| && Involves(db.friendships[i], a, b)
      ensures i == |before|
    {
      PairRecordUnique(db.friendships, a, b, i, |before|);
    }
  }
}
