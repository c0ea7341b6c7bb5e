/** Direct messages and the two-party thread both chat components show. */
module Messages {
  import opened Seqs
  import opened Session

  /** A row of `messages`; `id` and `createdAt` are assigned by the store. */
  datatype Message = Message(id: int, sender: UserId, receiver: UserId, content: string, createdAt: int)

  /** The message went from one of the two users to the other. */
  predicate Between(m: Message, me: UserId, other: UserId) {
    (m.sender == me && m.receiver == other) || (m.sender == other && m.receiver == me)
  }

  function IsBetween(me: UserId, other: UserId): Message -> bool {
    (m: Message) => Between(m, me, other)
  }

  function InvolvesUser(me: UserId): Message -> bool {
    (m: Message) => m.sender == me || m.receiver == me
  }

  function CreatedAt(): Message -> int {
    (m: Message) => m.createdAt
  }

  /** The thread between `me` and `other`: exactly the messages they
      exchanged, in the order given, so a list in creation order gives a
      thread in creation order. */
  function Thread(msgs: seq<Message>, me: UserId, other: UserId): (r: seq<Message>)
    ensures forall i :: 0 <= i < |r| ==> r[i] in msgs && Between(r[i], me, other)
    ensures forall i :: 0 <= i < |msgs| && Between(msgs[i], me, other) ==> msgs[i] in r
    ensures IsSubsequence(r, msgs)
    ensures SortedBy(msgs, CreatedAt()) ==> SortedBy(r, CreatedAt())
  {
    FilterIsSubsequence(msgs, IsBetween(me, other));
    ThreadKeepsOrder(msgs, me, other);
    Filter(msgs, IsBetween(me, other))
  }

  lemma ThreadKeepsOrder(msgs: seq<Message>, me: UserId, other: UserId)
    ensures SortedBy(msgs, CreatedAt()) ==> SortedBy(Filter(msgs, IsBetween(me, other)), CreatedAt())
  {
    if SortedBy(msgs, CreatedAt()) {
      FilterKeepsSorted(msgs, IsBetween(me, other), CreatedAt());
    }
  }

  /** The thread holds each message between the two users as often as the
      input does, and no value more often than the input. */
  lemma ThreadCounts(msgs: seq<Message>, me: UserId, other: UserId)
    ensures var r := Thread(msgs, me, other);
      && multiset(r) <= multiset(msgs)
      && forall i :: 0 <= i < |msgs| && Between(msgs[i], me, other) ==> multiset(r)[msgs[i]] == multiset(msgs)[msgs[i]]
  {
    FilterCounts(msgs, IsBetween(me, other));
  }

  /** Selecting the thread again changes nothing. */
  lemma ThreadIdempotent(msgs: seq<Message>, me: UserId, other: UserId)
    ensures Thread(Thread(msgs, me, other), me, other) == Thread(msgs, me, other)
  {
    FilterIdempotent(msgs, IsBetween(me, other));
  }

  /** Both participants see the same thread. */
  lemma ThreadSymmetric(msgs: seq<Message>, me: UserId, other: UserId)
    ensures Thread(msgs, me, other) == Thread(msgs, other, me)
  {
    FilterCongruent(msgs, IsBetween(me, other), IsBetween(other, me));
  }

  /** A message appended to the table is appended to the thread it belongs
      to and leaves every other thread as it was. */
  lemma ThreadAppend(msgs: seq<Message>, m: Message, me: UserId, other: UserId)
    ensures Thread(msgs + [m], me, other) == Thread(msgs, me, other) + (if Between(m, me, other) then [m] else [])
  {
    FilterConcat(msgs, [m], IsBetween(me, other));
  }

  /** The store's read `or(sender_id.eq.me, receiver_id.eq.me)` keeps the
      messages involving `me`; narrowing those to a thread gives the same
      thread as narrowing the whole table. */
  lemma PrefilterKeepsThread(table: seq<Message>, me: UserId, other: UserId)
    ensures Thread(Filter(table, InvolvesUser(me)), me, other) == Thread(table, me, other)
  {
    FilterSubsumed(table, InvolvesUser(me), IsBetween(me, other));
  }

  /** How many messages carry the id. */
  function CountId(msgs: seq<Message>, id: int): nat {
    |Filter(msgs, (m: Message) => m.id == id)|
  }
}
