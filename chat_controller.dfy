/** The REST path of the direct-dialog store: reading a pair's history and
    sending a message. Neither action consults the friendship table. */
module ChatController {
  import opened Linq
  import opened Models
  import opened Strings
  import opened Store
  import ChatHub

  /** Guid.CompareTo, as its sign. */
  function CompareTo(x: Guid, y: Guid): int
  {
    if x < y then -1 else if x == y then 0 else 1
  }

  /** The pair as the dialog table keys it: the smaller id first. */
  function CanonicalPair(me: Guid, other: Guid): (p: (Guid, Guid))
    ensures p.0 <= p.1
    ensures (p.0 == me && p.1 == other) || (p.0 == other && p.1 == me)
  {
    if CompareTo(me, other) < 0 then (me, other) else (other, me)
  }

  lemma CanonicalPairSymmetric(x: Guid, y: Guid)
    ensures CanonicalPair(x, y) == CanonicalPair(y, x)
  {
  }

  /** The REST path and the realtime path key a pair's dialog the same way,
      so both reach the same dialog. */
  lemma CanonicalPairIsHubOrder(x: Guid, y: Guid)
    ensures CanonicalPair(x, y) == ChatHub.OrderPair(x, y)
  {
  }

  // ----- history -----

  /** The messages of one dialog, in log order. */
  function Thread(ms: seq<DirectMessage>, dialogId: Guid): (r: seq<DirectMessage>)
    ensures |r| <= |ms|
    ensures forall i :: 0 <= i < |r| ==> r[i].dialogId == dialogId && r[i] in ms
    ensures forall i :: 0 <= i < |ms| && ms[i].dialogId == dialogId ==> ms[i] in r
  {
    if |ms| == 0 then []
    else if ms[0].dialogId == dialogId then [ms[0]] + Thread(ms[1..], dialogId)
    else Thread(ms[1..], dialogId)
  }

  /** The thread holds each message of the dialog exactly as often as the
      log does. */
  lemma {:induction false} ThreadCounts(ms: seq<DirectMessage>, dialogId: Guid, m: DirectMessage)
    requires m.dialogId == dialogId
    ensures multiset(Thread(ms, dialogId))[m] == multiset(ms)[m]
  {
    if |ms| > 0 {
      assert ms == [ms[0]] + ms[1..];
      ThreadCounts(ms[1..], dialogId, m);
    }
  }

  /** A message appended to a dialog comes last in that dialog's thread; one
      appended to another dialog leaves the thread as it was. */
  lemma {:induction false} ThreadAppend(ms: seq<DirectMessage>, dialogId: Guid, m: DirectMessage)
    ensures Thread(ms + [m], dialogId) ==
      if m.dialogId == dialogId then Thread(ms, dialogId) + [m] else Thread(ms, dialogId)
  {
    if |ms| == 0 {
      assert ms + [m] == [m];
    } else {
      var ms' := ms + [m];
      assert ms'[0] == ms[0] && ms'[1..] == ms[1..] + [m];
      ThreadAppend(ms[1..], dialogId, m);
    }
  }

  /** The projection to what a client receives. */
  function Dtos(ms: seq<DirectMessage>): seq<MessageDto>
  {
    seq(|ms|, i requires 0 <= i < |ms| => ToDto(ms[i]))
  }

  /** Each message is no later than the next one. */
  predicate SortedBySentAt(s: seq<MessageDto>)
  {
    forall i :: 0 < i < |s| ==> s[i - 1].sentAt <= s[i].sentAt
  }

  /** In a sorted sequence every message is no later than every later one. */
  lemma {:induction false} SortedIsNonDecreasing(s: seq<MessageDto>, i: nat, j: nat)
    requires SortedBySentAt(s)
    requires i <= j < |s|
    ensures s[i].sentAt <= s[j].sentAt
    decreases j - i
  {
    if i < j {
      SortedIsNonDecreasing(s, i + 1, j);
    }
  }

  /** Putting in front of a sorted sequence a message no later than its
      first one keeps it sorted. */
  lemma ConsKeepsSorted(h: MessageDto, t: seq<MessageDto>)
    requires SortedBySentAt(t)
    requires |t| > 0 ==> h.sentAt <= t[0].sentAt
    ensures SortedBySentAt([h] + t)
  {
    var r := [h] + t;
    forall i | 0 < i < |r|
      ensures r[i - 1].sentAt <= r[i].sentAt
    {
      if i > 1 {
        assert r[i - 1] == t[i - 2] && r[i] == t[i - 1];
      }
    }
  }

  /** One step of insertion sort: `x` goes before the first later message. */
  function InsertBySentAt(x: MessageDto, s: seq<MessageDto>): (r: seq<MessageDto>)
    requires SortedBySentAt(s)
    ensures SortedBySentAt(r)
    ensures multiset(r) == multiset(s) + multiset{x}
    ensures r[0] == x || (|s| > 0 && r[0] == s[0])
  {
    if |s| == 0 then [x]
    else if x.sentAt <= s[0].sentAt then
      ConsKeepsSorted(x, s);
      [x] + s
    else
      var t := s[1..];
      assert s == [s[0]] + t;
      assert SortedBySentAt(t) by {
        forall i | 0 < i < |t|
          ensures t[i - 1].sentAt <= t[i].sentAt
        {
          assert t[i - 1] == s[i] && t[i] == s[i + 1];
        }
      }
      var rest := InsertBySentAt(x, t);
      assert |t| > 0 ==> s[0].sentAt <= t[0].sentAt by {
        if |t| > 0 {
          assert t[0] == s[1];
        }
      }
      ConsKeepsSorted(s[0], rest);
      [s[0]] + rest
  }

  /** OrderBy(SentAt): the same messages, in non-decreasing time order. */
  function SortBySentAt(s: seq<MessageDto>): (r: seq<MessageDto>)
    ensures SortedBySentAt(r)
    ensures multiset(r) == multiset(s)
  {
    if |s| == 0 then []
    else
      assert s == [s[0]] + s[1..];
      InsertBySentAt(s[0], SortBySentAt(s[1..]))
  }

  /** GET history/{otherId}: the messages of the pair's dialog ordered by
      time, or nothing when the pair has no dialog. It reads only. */
  function History(ds: seq<DirectDialog>, ms: seq<DirectMessage>, me: Guid, otherId: Guid): (r: seq<MessageDto>)
    ensures SortedBySentAt(r)
    ensures var (a, b) := CanonicalPair(me, otherId);
      match FindDialog(ds, a, b)
      case None => r == []
      case Some(k) => multiset(r) == multiset(Dtos(Thread(ms, ds[k].id)))
  {
    var (a, b) := CanonicalPair(me, otherId);
    match FindDialog(ds, a, b)
    case None => []
    case Some(k) => SortBySentAt(Dtos(Thread(ms, ds[k].id)))
  }

  /** What the client receives of a dialog's thread is exactly the
      projection of the dialog's messages in the log. */
  lemma DtosOfThread(ms: seq<DirectMessage>, dialogId: Guid, x: MessageDto)
    ensures x in Dtos(Thread(ms, dialogId)) <==>
      exists i :: 0 <= i < |ms| && ms[i].dialogId == dialogId && ToDto(ms[i]) == x
  {
    var th := Thread(ms, dialogId);
    var dt := Dtos(th);
    if x in dt {
      var j :| 0 <= j < |th| && dt[j] == x;
      ThreadEntryIsLogged(ms, dialogId, th, j);
    }
    if exists i :: 0 <= i < |ms| && ms[i].dialogId == dialogId && ToDto(ms[i]) == x {
      var i :| 0 <= i < |ms| && ms[i].dialogId == dialogId && ToDto(ms[i]) == x;
      assert ms[i] in th;
      var j :| 0 <= j < |th| && th[j] == ms[i];
      assert dt[j] == x;
    }
  }

  lemma ThreadEntryIsLogged(ms: seq<DirectMessage>, dialogId: Guid, th: seq<DirectMessage>, j: nat)
    requires th == Thread(ms, dialogId) && j < |th|
    ensures exists i :: 0 <= i < |ms| && ms[i].dialogId == dialogId && ToDto(ms[i]) == ToDto(th[j])
  {
    assert th[j] in ms && th[j].dialogId == dialogId;
    var i :| 0 <= i < |ms| && ms[i] == th[j];
  }

  /** History holds exactly the messages logged under the pair's dialog. */
  lemma HistoryHoldsTheDialogsMessages(ds: seq<DirectDialog>, ms: seq<DirectMessage>, me: Guid, otherId: Guid, k: nat, x: MessageDto)
    requires FindDialog(ds, CanonicalPair(me, otherId).0, CanonicalPair(me, otherId).1) == Some(k)
    ensures x in History(ds, ms, me, otherId) <==>
      exists i :: 0 <= i < |ms| && ms[i].dialogId == ds[k].id && ToDto(ms[i]) == x
  {
    var h := History(ds, ms, me, otherId);
    var dt := Dtos(Thread(ms, ds[k].id));
    assert multiset(h) == multiset(dt);
    assert x in h <==> x in multiset(h);
    assert x in dt <==> x in multiset(dt);
    DtosOfThread(ms, ds[k].id, x);
  }

  /** A message appended to the pair's dialog shows up in the pair's
      history, and nothing else of it changes. */
  lemma HistoryAfterAppend(ds: seq<DirectDialog>, ms: seq<DirectMessage>, me: Guid, otherId: Guid, k: nat, m: DirectMessage)
    requires FindDialog(ds, CanonicalPair(me, otherId).0, CanonicalPair(me, otherId).1) == Some(k)
    requires m.dialogId == ds[k].id
    ensures multiset(History(ds, ms + [m], me, otherId)) == multiset(History(ds, ms, me, otherId)) + multiset{ToDto(m)}
  {
    var th := Thread(ms, ds[k].id);
    ThreadAppend(ms, ds[k].id, m);
    assert Dtos(th + [m]) == Dtos(th) + [ToDto(m)];
  }

  // ----- send -----

  /** The annotations the framework checks before the action runs:
      Text is required (not null, empty or white space only) and at most
      4000 characters long. A body without Text binds it to null (None). */
  predicate SendRequestIsValid(text: Option<string>)
  {
    !IsNullOrWhiteSpace(text) && |text.value| <= 4000
  }

  /** POST send: get-or-create the pair's dialog, then append the message. */
  method Send(db: Db, me: Guid, recipientId: Guid, text: Option<string>, now: Time) returns (r: Response)
    requires db.Valid()
    modifies db
    ensures db.Valid()
    ensures db.friendships == old(db.friendships)
    ensures !SendRequestIsValid(text) ==> r == ValidationProblem && unchanged(db)
    ensures SendRequestIsValid(text) && me == recipientId ==>
      r == BadRequest("Cannot send to yourself.") && unchanged(db)
    ensures SendRequestIsValid(text) && me != recipientId ==>
      var (a, b) := CanonicalPair(me, recipientId);
      r == Ok
      && DialogGetOrCreated(old(db.dialogs), db.dialogs, a, b)
      && MessageAppended(db.dialogs, old(db.messages), db.messages, a, b, me, text.value, now)
  {
    if !SendRequestIsValid(text) {
      return ValidationProblem;
    }
    if me == recipientId {
      return BadRequest("Cannot send to yourself.");
    }
    var (a, b) := CanonicalPair(me, recipientId);
    var found := FindDialog(db.dialogs, a, b);
    var dialog: DirectDialog;
    if found.None? {
      dialog := db.AddDialog(a, b);
    } else {
      dialog := db.dialogs[found.value];
    }
    ghost var k := FindDialog(db.dialogs, a, b).value;
    var msg := DirectMessage(dialog.id, me, text.value, now);
    db.AddMessage(msg, k);
    return Ok;
  }
}
