/** The floating chat widget (src/components/ChatWidget.tsx): a list of the
    other users, the thread with the active one, and a send form. Unlike
    the messaging page, it stores the input untrimmed and only guards on
    the trimmed input being non-empty. */
module ChatWidget {
  import opened Common
  import opened Text
  import opened Seqs
  import opened Session
  import opened Profiles
  import opened Messages
  import ChatBox

  datatype WidgetState = WidgetState(activeUser: Option<Profile>, newMessage: string)

  /** The `profiles` query: every profile but the signed-in user's, in
      order; a read error fails the query. */
  function WidgetProfiles(result: Fetch<seq<Profile>>, user: Option<User>): (r: Fetch<seq<Profile>>)
    ensures result.FetchError? <==> r.FetchError?
    ensures r.Fetched? ==> IsSubsequence(r.rows, result.rows)
    ensures r.Fetched? ==> forall i :: 0 <= i < |r.rows| ==> Some(r.rows[i].id) != IdOf(user)
    ensures r.Fetched? ==> forall i :: 0 <= i < |result.rows| && Some(result.rows[i].id) != IdOf(user) ==> result.rows[i] in r.rows
  {
    match result
    case FetchError => FetchError
    case Fetched(rows) => Fetched(ExcludeUser(rows, IdOf(user)))
  }

  /** The thread query, keyed `["messages", user?.id, activeUser?.id]`: it
      is issued only when both users are set, and asks the store for the
      messages exchanged between the two, in creation order. `None` is a
      disabled query. */
  function WidgetMessages(table: seq<Message>, user: Option<User>, state: WidgetState, readOk: bool): (r: Option<Fetch<seq<Message>>>)
    ensures r.None? <==> user.None? || state.activeUser.None?
    ensures r.Some? ==> (r.value.Fetched? <==> readOk)
    ensures r.Some? && readOk ==> r.value.rows == Thread(table, user.value.id, state.activeUser.value.id)
  {
    if user.None? || state.activeUser.None? then None
    else if !readOk then Some(FetchError)
    else Some(Fetched(Thread(table, user.value.id, state.activeUser.value.id)))
  }

  /** What one submit of the form did. */
  datatype SendStep = SendStep(table: seq<Message>, state: WidgetState, invalidated: seq<QueryKey>, outcome: Option<Outcome<()>>)

  /** The form's submit: nothing happens when the trimmed input is empty
      (`outcome` is `None`). Otherwise the mutation reads `activeUser.id`,
      which throws when no user is active, and inserts the input as typed
      from the signed-in user. A row without a sender (no signed-in user)
      is rejected by the store. On success the input is cleared and the
      thread's key invalidated; on failure nothing changes. */
  function Submit(table: seq<Message>, state: WidgetState, user: Option<User>,
                  insertOk: bool, newId: int, now: int): (r: SendStep)
    ensures IsBlank(state.newMessage) ==> r == SendStep(table, state, [], None)
    ensures !IsBlank(state.newMessage) ==> r.outcome.Some?
    ensures !IsBlank(state.newMessage) && state.activeUser.None? ==> r == SendStep(table, state, [], Some(Err(RuntimeError)))
    ensures r.outcome == Some(Ok(())) <==> !IsBlank(state.newMessage) && state.activeUser.Some? && user.Some? && insertOk
    ensures r.outcome == Some(Ok(())) ==>
      && r.table == table + [Message(newId, user.value.id, state.activeUser.value.id, state.newMessage, now)]
      && r.state == state.(newMessage := "")
      && r.invalidated == [MessagesKey(Some(user.value.id), Some(state.activeUser.value.id))]
    ensures r.outcome != Some(Ok(())) ==> r.table == table && r.state == state && r.invalidated == []
  {
    if Trim(state.newMessage) == [] then SendStep(table, state, [], None)
    else if state.activeUser.None? then SendStep(table, state, [], Some(Err(RuntimeError)))
    else if user.None? || !insertOk then SendStep(table, state, [], Some(Err(StoreError)))
    else
      var me, other := user.value.id, state.activeUser.value.id;
      SendStep(table + [Message(newId, me, other, state.newMessage, now)],
               state.(newMessage := ""),
               [MessagesKey(Some(me), Some(other))],
               Some(Ok(())))
  }

  /** The widget and the messaging page's pane show the same thread for the
      same pair of users. */
  lemma WidgetAgreesWithChatBox(table: seq<Message>, user: User, active: Profile, state: WidgetState, messages: seq<Message>)
    requires state.activeUser == Some(active)
    ensures var pane := ChatBox.FetchMessages(ChatBox.ChatBoxState(messages, ""), Some(user), Some(active),
                                              ChatBox.ReadOwnMessages(table, user.id, true));
      WidgetMessages(table, Some(user), state, true) == Some(Fetched(pane.messages))
  {
    PrefilterKeepsThread(table, user.id, active.id);
  }

  /** The two composers store different text for the same input: the pane
      stores it trimmed, the widget as typed; they agree exactly when the
      input has no surrounding whitespace. */
  lemma ComposersDifferOnWhitespace(table: seq<Message>, input: string, user: User, active: Profile, newId: int, now: int)
    requires !IsBlank(input)
    ensures var widget := Submit(table, WidgetState(Some(active), input), Some(user), true, newId, now).table;
      var pane := ChatBox.SendMessage(table, ChatBox.ChatBoxState([], input), Some(user), Some(active), true, newId, now, true).0;
      widget == pane <==> Trim(input) == input
  {
    var widget := Submit(table, WidgetState(Some(active), input), Some(user), true, newId, now).table;
    var pane := ChatBox.SendMessage(table, ChatBox.ChatBoxState([], input), Some(user), Some(active), true, newId, now, true).0;
    if widget == pane {
      assert widget[|table|] == pane[|table|];
    }
  }
}
