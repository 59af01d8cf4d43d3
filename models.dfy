/** The records the core stores: friendships, direct dialogs and direct messages. */
module Models {
  /** Guid values; the core only compares them for equality and order. */
  type Guid = int

  /** A DateTime instant, supplied by the caller instead of read from the clock. */
  type Time = nat

  /** The three relationship states; Blocked exists but no operation sets it. */
  datatype FriendshipStatus = Pending | Accepted | Blocked

  /** A friend request from `requester` to `addressee` and its state. */
  datatype Friendship = Friendship(
    id: Guid,
    requester: Guid,
    addressee: Guid,
    status: FriendshipStatus,
    createdAt: Time)

  /** The record `new Friendship()` yields before any initialiser runs:
      a fresh id, Guid.Empty for both users, Pending, created now. */
  function NewFriendship(freshId: Guid, now: Time): Friendship
  {
    Friendship(freshId, 0, 0, Pending, now)
  }

  /** A two-party conversation keyed by the ordered pair (user1, user2). */
  datatype DirectDialog = DirectDialog(id: Guid, user1: Guid, user2: Guid)

  /** One message appended to a dialog. */
  datatype DirectMessage = DirectMessage(dialogId: Guid, sender: Guid, text: string, sentAt: Time)

  /** What history reads and the realtime push carry: sender, text and time. */
  datatype MessageDto = MessageDto(sender: Guid, text: string, sentAt: Time)

  function ToDto(m: DirectMessage): MessageDto
  {
    MessageDto(m.sender, m.text, m.sentAt)
  }

  /** The action results the controllers return. ValidationProblem is the
      automatic 400 response for a request body that fails its annotations. */
  datatype Response =
    | Ok
    | BadRequest(message: string)
    | NotFound(message: string)
    | Conflict(message: string)
    | ValidationProblem
}
