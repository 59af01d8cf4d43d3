/** The realtime path: the friends-only gate, dialog get-or-create and the
    sending of a direct message, with the set of users the push names. */
module ChatHub {
  import opened Linq
  import opened Models
  import opened Strings
  import opened Store
  import FriendsController

  /** The pair in ascending order. */
  function OrderPair(x: Guid, y: Guid): (p: (Guid, Guid))
    ensures p.0 <= p.1
    ensures (p.0 == x && p.1 == y) || (p.0 == y && p.1 == x)
  {
    if x < y then (x, y) else (y, x)
  }

  lemma OrderPairSymmetric(x: Guid, y: Guid)
    ensures OrderPair(x, y) == OrderPair(y, x)
  {
  }

  /** Whether an Accepted record links the two users, in either direction. */
  function AreFriends(fs: seq<Friendship>, me: Guid, other: Guid): (r: bool)
    ensures r <==> exists i :: 0 <= i < |fs| && fs[i].status == Accepted && Involves(fs[i], me, other)
  {
    Any(fs, (f: Friendship) =>
      f.status == Accepted
      && ((f.requester == me && f.addressee == other) || (f.requester == other && f.addressee == me)))
  }

  lemma AreFriendsSymmetric(fs: seq<Friendship>, a: Guid, b: Guid)
    ensures AreFriends(fs, a, b) == AreFriends(fs, b, a)
  {
  }

  /** No record links a user to themself, so nobody passes the gate to
      message themself. */
  lemma NobodyIsOwnFriend(fs: seq<Friendship>, u: Guid)
    requires NoSelfRequests(fs)
    ensures !AreFriends(fs, u, u)
  {
  }

  /** The gate admits exactly the existing users the friend list shows. */
  lemma GateMatchesFriendList(fs: seq<Friendship>, users: set<Guid>, me: Guid, u: Guid)
    requires u in users
    ensures AreFriends(fs, me, u) <==> u in FriendsController.List(fs, users, me)
  {
  }

  /** Looks the ordered pair's dialog up and creates it when it is missing. */
  method GetOrCreateDialog(db: Db, aId: Guid, bId: Guid) returns (d: DirectDialog)
    requires db.Valid()
    modifies db
    ensures db.Valid()
    ensures db.friendships == old(db.friendships) && db.messages == old(db.messages)
    ensures var (u1, u2) := OrderPair(aId, bId);
      IsDialogOf(d, u1, u2) && DialogGetOrCreated(old(db.dialogs), db.dialogs, u1, u2)
    ensures var (u1, u2) := OrderPair(aId, bId);
      match FindDialog(old(db.dialogs), u1, u2)
      case Some(k) => d == old(db.dialogs)[k]
      case None => d == db.dialogs[|old(db.dialogs)|]
    ensures var (u1, u2) := OrderPair(aId, bId);
      var k := FindDialog(db.dialogs, u1, u2);
      k.Some? && db.dialogs[k.value] == d
  {
    var (u1, u2) := OrderPair(aId, bId);
    var found := FindDialog(db.dialogs, u1, u2);
    if found.Some? {
      return db.dialogs[found.value];
    }
    d := db.AddDialog(u1, u2);
  }

  /** Calling get-or-create twice yields one dialog: the second call returns
      the dialog the first one found or made. */
  method GetOrCreateDialogTwice(db: Db, aId: Guid, bId: Guid) returns (d1: DirectDialog, d2: DirectDialog)
    requires db.Valid()
    modifies db
    ensures db.Valid()
    ensures d1 == d2
    ensures var (u1, u2) := OrderPair(aId, bId); DialogGetOrCreated(old(db.dialogs), db.dialogs, u1, u2)
  {
    d1 := GetOrCreateDialog(db, aId, bId);
    d2 := GetOrCreateDialog(db, bId, aId);
  }

  /** The outcome of SendDirectMessage: nothing happens, the call throws a
      HubException, or the message is stored and pushed to `recipients`. */
  datatype HubResult =
    | Ignored
    | HubError(message: string)
    | Pushed(recipients: set<Guid>, payload: MessageDto)

  /** The HubException text ("you are not friends"). */
  const NotFriendsMessage: string := "Вы не друзья."

  /** `text ?? ""`. */
  function OrEmpty(text: Option<string>): string
  {
    if text.None? then "" else text.value
  }

  /** Lines the hub runs once the gate has let the pair through: get the
      pair's dialog (or create it) and append the message to it. */
  method StoreDirectMessage(db: Db, me: Guid, targetUserId: Guid, t: string, now: Time) returns (msg: DirectMessage)
    requires db.Valid()
    requires !IsBlank(t)
    modifies db
    ensures db.Valid()
    ensures db.friendships == old(db.friendships)
    ensures msg == DirectMessage(msg.dialogId, me, t, now)
    ensures var (u1, u2) := OrderPair(me, targetUserId);
      DialogGetOrCreated(old(db.dialogs), db.dialogs, u1, u2)
      && MessageAppended(db.dialogs, old(db.messages), db.messages, u1, u2, me, t, now)
  {
    var dlg := GetOrCreateDialog(db, me, targetUserId);
    ghost var (u1, u2) := OrderPair(me, targetUserId);
    ghost var k := FindDialog(db.dialogs, u1, u2).value;
    assert db.dialogs[k] == dlg && IsParticipant(dlg, me);
    msg := DirectMessage(dlg.id, me, t, now);
    db.AddMessage(msg, k);
  }

  /** Trims the text, drops it when nothing is left, refuses non-friends,
      appends the message to the pair's dialog and names both users as the
      push's recipients. */
  method SendDirectMessage(db: Db, me: Guid, targetUserId: Guid, text: Option<string>, now: Time) returns (r: HubResult)
    requires db.Valid()
    modifies db
    ensures db.Valid()
    ensures db.friendships == old(db.friendships)
    ensures IsNullOrWhiteSpace(text) ==> r == Ignored && unchanged(db)
    ensures !IsNullOrWhiteSpace(text) && !AreFriends(old(db.friendships), me, targetUserId) ==>
      r == HubError(NotFriendsMessage) && unchanged(db)
    ensures !IsNullOrWhiteSpace(text) && AreFriends(old(db.friendships), me, targetUserId) ==>
      var (u1, u2) := OrderPair(me, targetUserId);
      var t := Trim(OrEmpty(text));
      DialogGetOrCreated(old(db.dialogs), db.dialogs, u1, u2)
      && MessageAppended(db.dialogs, old(db.messages), db.messages, u1, u2, me, t, now)
      && r == Pushed({me, targetUserId}, MessageDto(me, t, now))
  {
    var t := Trim(OrEmpty(text));
    TrimmedIsNullOrWhiteSpace(OrEmpty(text));
    assert IsNullOrWhiteSpace(text) <==> IsBlank(OrEmpty(text));
    if IsNullOrWhiteSpace(Some(t)) {
      return Ignored;
    }
    if !AreFriends(db.friendships, me, targetUserId) {
      return HubError(NotFriendsMessage);
    }
    var msg := StoreDirectMessage(db, me, targetUserId, t, now);
    r := Pushed({me, targetUserId}, MessageDto(msg.sender, msg.text, msg.sentAt));
  }
}
