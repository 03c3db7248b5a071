/**
 * The inquiry-thread record ("Message") of the marketplace: its schema
 * constraints, its defaults and its two in-place updates, marking read and
 * appending a reply.
 */
module MessageModel {
  import opened Maybe

  type UserId = string
  type DiamondId = string
  /** A timestamp in milliseconds. */
  type Time = nat

  const MaxSubjectLength: nat := 200
  const MaxMessageLength: nat := 2000
  const MaxReplyLength: nat := 2000

  /** One entry of a thread's reply list. */
  datatype Reply = Reply(sender: UserId, message: string, sentAt: Time)

  /** One inquiry thread. `createdAt` and `updatedAt` are the schema's
      automatic timestamps. */
  datatype Message = Message(
    sender: UserId,
    receiver: UserId,
    diamond: DiamondId,
    subject: string,
    message: string,
    isRead: bool,
    readAt: Option<Time>,
    replies: seq<Reply>,
    createdAt: Time,
    updatedAt: Time)

  /** A `required` string or reference: present and not empty. */
  predicate Present(s: string) {
    s != ""
  }

  /** The schema's constraints on one reply entry. */
  predicate ValidReply(r: Reply) {
    Present(r.sender) && Present(r.message) && |r.message| <= MaxReplyLength
  }

  /** The schema's constraints on a whole record: the validation that a save
      performs before it writes. */
  predicate ValidRecord(m: Message) {
    && Present(m.sender) && Present(m.receiver) && Present(m.diamond)
    && Present(m.subject) && |m.subject| <= MaxSubjectLength
    && Present(m.message) && |m.message| <= MaxMessageLength
    && forall i :: 0 <= i < |m.replies| ==> ValidReply(m.replies[i])
  }

  predicate IsParticipant(m: Message, user: UserId) {
    user == m.sender || user == m.receiver
  }

  /** What every stored thread satisfies once the request handlers have
      created and updated it: the schema holds, nobody writes to themselves,
      `readAt` is recorded exactly when the thread is read, and every reply
      comes from one of the two participants. */
  ghost predicate WellFormed(m: Message) {
    && ValidRecord(m)
    && m.sender != m.receiver
    && (m.isRead <==> m.readAt.Some?)
    && forall i :: 0 <= i < |m.replies| ==> IsParticipant(m, m.replies[i].sender)
  }

  /** A record built from the given fields, with the schema's defaults for
      the rest: unread, no `readAt`, no replies, both timestamps `now`. */
  function NewMessage(sender: UserId, receiver: UserId, diamond: DiamondId,
                      subject: string, message: string, now: Time): (m: Message)
    ensures m.sender == sender && m.receiver == receiver && m.diamond == diamond
    ensures m.subject == subject && m.message == message
    ensures !m.isRead && m.readAt == None && m.replies == []
    ensures m.createdAt == now && m.updatedAt == now
  {
    Message(sender, receiver, diamond, subject, message, false, None, [], now, now)
  }

  /** The schema accepts a new record exactly when the three references are
      present and subject and body are non-empty and within their limits. */
  lemma NewMessageValidIff(sender: UserId, receiver: UserId, diamond: DiamondId,
                           subject: string, message: string, now: Time)
    ensures ValidRecord(NewMessage(sender, receiver, diamond, subject, message, now)) <==>
      && sender != "" && receiver != "" && diamond != ""
      && 1 <= |subject| <= MaxSubjectLength
      && 1 <= |message| <= MaxMessageLength
  {
  }

  /** The model's `markAsRead` followed by its save: read, `readAt` now,
      `updatedAt` now, and every other field as it was. */
  function MarkAsRead(m: Message, now: Time): (r: Message)
    ensures r.isRead && r.readAt == Some(now) && r.updatedAt == now
    ensures r.(isRead := m.isRead, readAt := m.readAt, updatedAt := m.updatedAt) == m
  {
    m.(isRead := true, readAt := Some(now), updatedAt := now)
  }

  /** Marking read twice leaves the thread read, with the later time as
      `readAt`. */
  lemma MarkAsReadTwice(m: Message, t1: Time, t2: Time)
    ensures MarkAsRead(MarkAsRead(m, t1), t2) == MarkAsRead(m, t2)
    ensures MarkAsRead(MarkAsRead(m, t1), t2).isRead
  {
  }

  lemma MarkAsReadWellFormed(m: Message, now: Time)
    requires WellFormed(m)
    ensures WellFormed(MarkAsRead(m, now))
  {
  }

  /** `replies.push({sender, message})` followed by the save: the reply,
      stamped `now`, goes at the end, `updatedAt` is now, and nothing else
      (in particular not `isRead`) changes. */
  function AppendReply(m: Message, sender: UserId, message: string, now: Time): (r: Message)
    ensures |r.replies| == |m.replies| + 1
    ensures r.replies[..|m.replies|] == m.replies
    ensures r.replies[|m.replies|] == Reply(sender, message, now)
    ensures r.updatedAt == now
    ensures r.(replies := m.replies, updatedAt := m.updatedAt) == m
  {
    m.(replies := m.replies + [Reply(sender, message, now)], updatedAt := now)
  }

  /** A reply by a participant that the schema accepts keeps the thread
      well formed. */
  lemma AppendReplyWellFormed(m: Message, sender: UserId, message: string, now: Time)
    requires WellFormed(m)
    requires IsParticipant(m, sender)
    requires |message| <= MaxReplyLength && message != ""
    ensures WellFormed(AppendReply(m, sender, message, now))
  {
    var r := AppendReply(m, sender, message, now);
    forall i | 0 <= i < |r.replies|
      ensures ValidReply(r.replies[i]) && IsParticipant(r, r.replies[i].sender)
    {
      if i < |m.replies| {
        assert r.replies[i] == m.replies[i];
      }
    }
  }
}
