/** The conversation pane of the messaging page (src/components/chatBox.tsx).
    It loads the signed-in user's messages in creation order, keeps the
    thread with the selected user, and sends the trimmed input, refetching
    the thread after a successful send. */
module ChatBox {
  import opened Common
  import opened Text
  import opened Seqs
  import opened Session
  import opened Profiles
  import opened Messages

  datatype ChatBoxState = ChatBoxState(messages: seq<Message>, input: string)

  /** `fetchMessages` with the store's answer `result`: without a user or a
      selected user, or on a read error, the pane keeps its messages;
      otherwise it shows the thread with the selected user. */
  function FetchMessages(state: ChatBoxState, user: Option<User>, selected: Option<Profile>,
                         result: Fetch<seq<Message>>): (r: ChatBoxState)
    ensures user.None? || selected.None? || result.FetchError? ==> r == state
    ensures r.input == state.input
    ensures user.Some? && selected.Some? && result.Fetched? ==>
      && r.messages == Thread(result.rows, user.value.id, selected.value.id)
      && (forall i :: 0 <= i < |r.messages| ==>
            r.messages[i] in result.rows && Between(r.messages[i], user.value.id, selected.value.id))
      && (forall i :: 0 <= i < |result.rows| && Between(result.rows[i], user.value.id, selected.value.id)
            ==> result.rows[i] in r.messages)
      && IsSubsequence(r.messages, result.rows)
      && (SortedBy(result.rows, CreatedAt()) ==> SortedBy(r.messages, CreatedAt()))
  {
    if user.None? || selected.None? then state
    else match result
      case FetchError => state
      case Fetched(rows) => state.(messages := Thread(rows, user.value.id, selected.value.id))
  }

  /** The store's read behind `fetchMessages`: the messages sent or received
      by `me`, in the table's (creation) order. */
  function ReadOwnMessages(table: seq<Message>, me: UserId, readOk: bool): Fetch<seq<Message>> {
    if readOk then Fetched(Filter(table, InvolvesUser(me))) else FetchError
  }

  /** Whether `sendMessage` goes ahead: the input is not blank and both
      users are known. */
  predicate CanSend(state: ChatBoxState, user: Option<User>, selected: Option<Profile>) {
    Trim(state.input) != [] && user.Some? && selected.Some?
  }

  /** `sendMessage`: inserts the trimmed input from the user to the
      selected user (`newId` and `now` are what the store assigns); on
      success clears the input and refetches, on failure keeps the input. */
  function SendMessage(table: seq<Message>, state: ChatBoxState, user: Option<User>, selected: Option<Profile>,
                       insertOk: bool, newId: int, now: int, refetchOk: bool): (r: (seq<Message>, ChatBoxState))
    ensures !CanSend(state, user, selected) || !insertOk ==> r == (table, state)
    ensures CanSend(state, user, selected) && insertOk ==>
      && r.0 == table + [Message(newId, user.value.id, selected.value.id, Trim(state.input), now)]
      && r.1.input == ""
      && r.1.messages == if refetchOk then Thread(r.0, user.value.id, selected.value.id) else state.messages
  {
    if !CanSend(state, user, selected) || !insertOk then (table, state)
    else
      var me, other := user.value.id, selected.value.id;
      var table' := table + [Message(newId, me, other, Trim(state.input), now)];
      var cleared := state.(input := "");
      PrefilterKeepsThread(table', me, other);
      (table', FetchMessages(cleared, user, selected, ReadOwnMessages(table', me, refetchOk)))
  }

  /** A successful send followed by a successful refetch shows the thread
      as before with the new message, trimmed, at the end: once, when its
      id is new. */
  lemma SentMessageAppearsOnce(table: seq<Message>, state: ChatBoxState, user: Option<User>, selected: Option<Profile>,
                               newId: int, now: int)
    requires CanSend(state, user, selected)
    requires forall i :: 0 <= i < |table| ==> table[i].id != newId
    ensures var me, other := user.value.id, selected.value.id;
      var m := Message(newId, me, other, Trim(state.input), now);
      var shown := SendMessage(table, state, user, selected, true, newId, now, true).1.messages;
      && shown == Thread(table, me, other) + [m]
      && CountId(shown, newId) == 1
  {
    var me, other := user.value.id, selected.value.id;
    var m := Message(newId, me, other, Trim(state.input), now);
    ThreadAppend(table, m, me, other);
    var before := Thread(table, me, other);
    var p := (x: Message) => x.id == newId;
    FilterConcat(before, [m], p);
    FilterDropsAll(before, p);
    assert Filter([m], p) == [m];
  }

  /** When the table is in creation order and the store stamps the new
      message no earlier than the others, the refetched thread is in
      creation order. */
  lemma SentThreadInOrder(table: seq<Message>, state: ChatBoxState, user: Option<User>, selected: Option<Profile>,
                          newId: int, now: int)
    requires CanSend(state, user, selected)
    requires SortedBy(table, CreatedAt())
    requires forall i :: 0 <= i < |table| ==> table[i].createdAt <= now
    ensures SortedBy(SendMessage(table, state, user, selected, true, newId, now, true).1.messages, CreatedAt())
  {
    var m := Message(newId, user.value.id, selected.value.id, Trim(state.input), now);
    AppendKeepsSorted(table, m);
    assert SendMessage(table, state, user, selected, true, newId, now, true).1.messages
      == Thread(table + [m], user.value.id, selected.value.id);
  }

  /** A message stamped no earlier than the others keeps the table in
      creation order when appended. */
  lemma AppendKeepsSorted(table: seq<Message>, m: Message)
    requires SortedBy(table, CreatedAt())
    requires forall i :: 0 <= i < |table| ==> table[i].createdAt <= m.createdAt
    ensures SortedBy(table + [m], CreatedAt())
  {
    var t := table + [m];
    forall i, j | 0 <= i < j < |t| ensures CreatedAt()(t[i]) <= CreatedAt()(t[j]) {
      if j < |table| {
        assert t[i] == table[i] && t[j] == table[j];
      } else {
        assert t[i] == table[i];
      }
    }
  }
}
