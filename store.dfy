/** The database context as in-memory tables: the users, the friendship
    table, the dialog table and the append-only message log, with the
    lookups the core runs against them and the invariants its operations keep. */
module Store {
  import opened Linq
  import opened Models
  import opened Strings

  /** `f` links `a` and `b`, in either direction. */
  predicate Involves(f: Friendship, a: Guid, b: Guid)
  {
    (f.requester == a && f.addressee == b) || (f.requester == b && f.addressee == a)
  }

  /** The lookup made before a request or a cancel: the first record for the
      pair, whichever of the two sent it. */
  function FindPair(fs: seq<Friendship>, a: Guid, b: Guid): (r: Option<nat>)
    ensures r.Some? ==> r.value < |fs| && Involves(fs[r.value], a, b)
    ensures r.None? <==> forall j :: 0 <= j < |fs| ==> !Involves(fs[j], a, b)
  {
    FirstIndexWhere(fs, f => Involves(f, a, b))
  }

  predicate IsDialogOf(d: DirectDialog, u1: Guid, u2: Guid)
  {
    d.user1 == u1 && d.user2 == u2
  }

  /** The dialog lookup by ordered pair: the first dialog with exactly
      `u1` as its first user and `u2` as its second. */
  function FindDialog(ds: seq<DirectDialog>, u1: Guid, u2: Guid): (r: Option<nat>)
    ensures r.Some? ==> r.value < |ds| && IsDialogOf(ds[r.value], u1, u2)
    ensures r.None? <==> forall j :: 0 <= j < |ds| ==> !IsDialogOf(ds[j], u1, u2)
  {
    FirstIndexWhere(ds, d => IsDialogOf(d, u1, u2))
  }

  // ----- invariants of the friendship table -----

  ghost predicate NoSelfRequests(fs: seq<Friendship>)
  {
    forall i :: 0 <= i < |fs| ==> fs[i].requester != fs[i].addressee
  }

  /** At most one record per unordered pair of users. */
  ghost predicate PairsUnique(fs: seq<Friendship>)
  {
    forall i, j :: 0 <= i < j < |fs| ==> !Involves(fs[j], fs[i].requester, fs[i].addressee)
  }

  ghost predicate FriendshipTableValid(fs: seq<Friendship>, nextId: Guid)
  {
    NoSelfRequests(fs) && PairsUnique(fs)
    && (forall i :: 0 <= i < |fs| ==> fs[i].id < nextId)
    && (forall i, j :: 0 <= i < j < |fs| ==> fs[i].id != fs[j].id)
  }

  // ----- invariants of the dialog table and the message log -----

  /** Every dialog is stored in canonical order, under its own id, and no
      ordered pair has two dialogs. */
  ghost predicate DialogTableValid(ds: seq<DirectDialog>, nextId: Guid)
  {
    (forall i :: 0 <= i < |ds| ==> ds[i].user1 <= ds[i].user2 && ds[i].id < nextId)
    && (forall i, j :: 0 <= i < j < |ds| ==>
          ds[i].id != ds[j].id && !IsDialogOf(ds[j], ds[i].user1, ds[i].user2))
  }

  predicate IsParticipant(d: DirectDialog, u: Guid)
  {
    u == d.user1 || u == d.user2
  }

  /** `m` belongs to a stored dialog and was sent by one of its two users. */
  ghost predicate PostedInDialog(ds: seq<DirectDialog>, m: DirectMessage)
  {
    exists k :: 0 <= k < |ds| && ds[k].id == m.dialogId && IsParticipant(ds[k], m.sender)
  }

  ghost predicate MessageLogValid(ds: seq<DirectDialog>, ms: seq<DirectMessage>)
  {
    forall i :: 0 <= i < |ms| ==> PostedInDialog(ds, ms[i]) && !IsBlank(ms[i].text)
  }

  /** `after` is `before` with one dialog for (u1, u2) appended under an id
      that no dialog in `before` carries. */
  ghost predicate DialogAdded(before: seq<DirectDialog>, after: seq<DirectDialog>, u1: Guid, u2: Guid)
  {
    |after| == |before| + 1 && after[..|before|] == before
    && IsDialogOf(after[|before|], u1, u2)
    && forall i :: 0 <= i < |before| ==> before[i].id != after[|before|].id
  }

  /** The dialog table after a get-or-create for (u1, u2): unchanged when the
      pair had a dialog, otherwise with one new dialog for it. */
  ghost predicate DialogGetOrCreated(before: seq<DirectDialog>, after: seq<DirectDialog>, u1: Guid, u2: Guid)
  {
    (FindDialog(before, u1, u2).Some? ==> after == before)
    && (FindDialog(before, u1, u2).None? ==> DialogAdded(before, after, u1, u2))
  }

  /** `after` is `before` with exactly one message appended: to the dialog of
      (u1, u2) in `ds`, from `sender`, with `text`, sent at `sentAt`. */
  ghost predicate MessageAppended(ds: seq<DirectDialog>, before: seq<DirectMessage>, after: seq<DirectMessage>,
                                  u1: Guid, u2: Guid, sender: Guid, text: string, sentAt: Time)
  {
    match FindDialog(ds, u1, u2)
    case None => false
    case Some(k) => after == before + [DirectMessage(ds[k].id, sender, text, sentAt)]
  }

  /** The database context. The core never writes the user table. */
  class Db {
    const users: set<Guid>
    var friendships: seq<Friendship>
    var dialogs: seq<DirectDialog>
    var messages: seq<DirectMessage>
    /** The source of fresh Guid values: above every id stored so far. */
    var nextId: Guid

    ghost predicate Valid()
      reads this
    {
      FriendshipTableValid(friendships, nextId)
      && DialogTableValid(dialogs, nextId)
      && MessageLogValid(dialogs, messages)
    }

    constructor (users: set<Guid>)
      ensures Valid()
      ensures this.users == users
      ensures friendships == [] && dialogs == [] && messages == []
    {
      this.users := users;
      friendships, dialogs, messages := [], [], [];
      nextId := 0;
    }

    /** Guid.NewGuid: an id that no stored friendship or dialog carries. */
    method NewGuid() returns (id: Guid)
      requires Valid()
      modifies this`nextId
      ensures Valid()
      ensures id == old(nextId) && nextId == id + 1
      ensures forall i :: 0 <= i < |friendships| ==> friendships[i].id != id
      ensures forall i :: 0 <= i < |dialogs| ==> dialogs[i].id != id
    {
      id := nextId;
      nextId := nextId + 1;
    }

    /** DirectDialogs.Add and save: a new dialog for the ordered pair
        (u1, u2), which has none, under a fresh id. */
    method AddDialog(u1: Guid, u2: Guid) returns (d: DirectDialog)
      requires Valid()
      requires u1 <= u2 && FindDialog(dialogs, u1, u2).None?
      modifies this`dialogs, this`nextId
      ensures Valid()
      ensures IsDialogOf(d, u1, u2) && DialogAdded(old(dialogs), dialogs, u1, u2) && d == dialogs[|old(dialogs)|]
      ensures FindDialog(dialogs, u1, u2) == Some(|old(dialogs)|)
    {
      var id := NewGuid();
      d := DirectDialog(id, u1, u2);
      AddKeepsDialogTableValid(dialogs, messages, id, d);
      dialogs := dialogs + [d];
    }

    /** DirectMessages.Add and save, for a message that is not blank and is
        sent by a participant of the stored dialog `dialogs[k]`. */
    method AddMessage(m: DirectMessage, ghost k: nat)
      requires Valid()
      requires k < |dialogs| && dialogs[k].id == m.dialogId && IsParticipant(dialogs[k], m.sender)
      requires !IsBlank(m.text)
      modifies this`messages
      ensures Valid()
      ensures messages == old(messages) + [m]
    {
      AppendKeepsMessageLogValid(dialogs, messages, k, m);
      messages := messages + [m];
    }
  }

  // ----- lookups under the invariants -----

  /** Under PairsUnique, two records for the same pair are the same record. */
  lemma PairRecordUnique(fs: seq<Friendship>, a: Guid, b: Guid, i: nat, j: nat)
    requires PairsUnique(fs)
    requires i < |fs| && j < |fs|
    requires Involves(fs[i], a, b) && Involves(fs[j], a, b)
    ensures i == j
  {
  }

  /** Under PairsUnique, the lookup finds the one record for the pair,
      whichever direction it is asked in. */
  lemma FindPairFindsTheRecord(fs: seq<Friendship>, a: Guid, b: Guid, i: nat)
    requires PairsUnique(fs)
    requires i < |fs| && Involves(fs[i], a, b)
    ensures FindPair(fs, a, b) == Some(i)
    ensures FindPair(fs, b, a) == Some(i)
  {
    PairRecordUnique(fs, a, b, FindPair(fs, a, b).value, i);
    PairRecordUnique(fs, a, b, FindPair(fs, b, a).value, i);
  }

  lemma FindDialogFindsTheDialog(ds: seq<DirectDialog>, nextId: Guid, u1: Guid, u2: Guid, i: nat)
    requires DialogTableValid(ds, nextId)
    requires i < |ds| && IsDialogOf(ds[i], u1, u2)
    ensures FindDialog(ds, u1, u2) == Some(i)
  {
  }

  // ----- the table updates keep the invariants -----

  /** Adding a record for a pair that has none, between two different users,
      under a fresh id, keeps the friendship table valid. */
  lemma AddKeepsFriendshipTableValid(fs: seq<Friendship>, nextId: Guid, f: Friendship)
    requires FriendshipTableValid(fs, nextId)
    requires f.requester != f.addressee
    requires FindPair(fs, f.requester, f.addressee).None?
    requires f.id == nextId
    ensures FriendshipTableValid(fs + [f], nextId + 1)
    ensures FindPair(fs + [f], f.requester, f.addressee) == Some(|fs|)
  {
    var fs' := fs + [f];
    forall i, j | 0 <= i < j < |fs'|
      ensures !Involves(fs'[j], fs'[i].requester, fs'[i].addressee)
    {
      if j == |fs| {
        assert !Involves(fs[i], f.requester, f.addressee);
      }
    }
    FindPairFindsTheRecord(fs', f.requester, f.addressee, |fs|);
  }

  /** Changing a record's status keeps the friendship table valid. */
  lemma SetStatusKeepsFriendshipTableValid(fs: seq<Friendship>, nextId: Guid, k: nat, s: FriendshipStatus)
    requires FriendshipTableValid(fs, nextId)
    requires k < |fs|
    ensures FriendshipTableValid(fs[k := fs[k].(status := s)], nextId)
  {
    var fs' := fs[k := fs[k].(status := s)];
    assert forall i :: 0 <= i < |fs| ==>
      fs'[i].requester == fs[i].requester && fs'[i].addressee == fs[i].addressee && fs'[i].id == fs[i].id;
  }

  /** Removing a record keeps the friendship table valid and, since it was the
      only one, leaves the pair with no record at all. */
  lemma RemoveKeepsFriendshipTableValid(fs: seq<Friendship>, nextId: Guid, k: nat)
    requires FriendshipTableValid(fs, nextId)
    requires k < |fs|
    ensures FriendshipTableValid(fs[..k] + fs[k + 1..], nextId)
    ensures FindPair(fs[..k] + fs[k + 1..], fs[k].requester, fs[k].addressee).None?
  {
    var fs' := fs[..k] + fs[k + 1..];
    assert forall i :: 0 <= i < |fs'| ==> fs'[i] == fs[if i < k then i else i + 1];
    forall j | 0 <= j < |fs'|
      ensures !Involves(fs'[j], fs[k].requester, fs[k].addressee)
    {
      var jj := if j < k then j else j + 1;
      if Involves(fs[jj], fs[k].requester, fs[k].addressee) {
        PairRecordUnique(fs, fs[k].requester, fs[k].addressee, jj, k);
      }
    }
  }

  /** Appending a dialog for an ordered pair that has none, under a fresh id,
      keeps the dialog table and the message log valid. */
  lemma AddKeepsDialogTableValid(ds: seq<DirectDialog>, ms: seq<DirectMessage>, nextId: Guid, d: DirectDialog)
    requires DialogTableValid(ds, nextId) && MessageLogValid(ds, ms)
    requires d.user1 <= d.user2
    requires FindDialog(ds, d.user1, d.user2).None?
    requires d.id == nextId
    ensures DialogTableValid(ds + [d], nextId + 1)
    ensures MessageLogValid(ds + [d], ms)
    ensures FindDialog(ds + [d], d.user1, d.user2) == Some(|ds|)
  {
    var ds' := ds + [d];
    forall i | 0 <= i < |ms|
      ensures PostedInDialog(ds', ms[i])
    {
      var k :| 0 <= k < |ds| && ds[k].id == ms[i].dialogId && IsParticipant(ds[k], ms[i].sender);
      assert ds'[k] == ds[k];
    }
    FindDialogFindsTheDialog(ds', nextId + 1, d.user1, d.user2, |ds|);
  }

  /** Appending a message posted by a participant of its stored dialog, with
      text that is not blank, keeps the message log valid. */
  lemma AppendKeepsMessageLogValid(ds: seq<DirectDialog>, ms: seq<DirectMessage>, k: nat, m: DirectMessage)
    requires MessageLogValid(ds, ms)
    requires k < |ds| && ds[k].id == m.dialogId && IsParticipant(ds[k], m.sender)
    requires !IsBlank(m.text)
    ensures MessageLogValid(ds, ms + [m])
  {
    assert PostedInDialog(ds, m);
    assert forall i :: 0 <= i < |ms| ==> (ms + [m])[i] == ms[i];
  }
}
