/** The messaging page (src/components/MessagingPage.tsx): a searchable
    list of users beside a chat pane. Picking a user opens the chat with
    them; on narrow screens the list and the chat take turns, with a back
    button on the chat's header and a "Browse Users" button on the empty
    pane. */
module Messaging {
  import opened Common
  import opened Seqs
  import opened Session
  import opened Profiles

  /** The page's state. */
  datatype MessagingView = MessagingView(selected: Option<Profile>, showUserList: bool, users: seq<Profile>,
                                         followingIds: seq<UserId>, loading: bool, searchQuery: string)

  /** The state the page mounts with: no user picked, the list shown and
      loading, nothing loaded. */
  const Initial := MessagingView(None, true, [], [], true, "")

  /** `filteredUsers`: the loaded users whose name contains the search
      text, ignoring case. */
  function FilteredUsers(v: MessagingView): (r: seq<Profile>)
    ensures forall i :: 0 <= i < |v.users| ==> (v.users[i] in r <==> NameMatches(v.searchQuery, v.users[i]))
    ensures forall i :: 0 <= i < |r| ==> r[i] in v.users
    ensures IsSubsequence(r, v.users)
    ensures v.searchQuery == "" ==> r == v.users
  {
    SearchByName(v.users, v.searchQuery)
  }

  /** The entries the list renders, and so the ones that can be clicked:
      none while loading, `filteredUsers` afterwards. */
  function ShownUsers(v: MessagingView): (r: seq<Profile>)
    ensures v.loading ==> r == []
    ensures !v.loading ==> r == FilteredUsers(v)
  {
    if v.loading then [] else FilteredUsers(v)
  }

  /** Clicking a user in the list opens the chat with them and hides the
      list. */
  function SelectUser(v: MessagingView, u: Profile): (r: MessagingView)
    ensures r.selected == Some(u) && !r.showUserList
    ensures r.users == v.users && r.loading == v.loading && r.searchQuery == v.searchQuery
  {
    v.(selected := Some(u), showUserList := false)
  }

  /** The back button on the chat's header, and the "Browse Users" button:
      the list is shown again and the chosen user is kept. */
  function ShowList(v: MessagingView): (r: MessagingView)
    ensures r.showUserList && r.selected == v.selected
    ensures r.users == v.users && r.loading == v.loading && r.searchQuery == v.searchQuery
  {
    v.(showUserList := true)
  }

  /** The header with the back button is rendered while the chat has
      replaced the list. */
  predicate ShowsChatHeader(v: MessagingView) {
    !v.showUserList && v.selected.Some?
  }

  /** The chat pane is rendered for the chosen user, if any. */
  function ChatWith(v: MessagingView): Option<Profile> {
    v.selected
  }

  /** Picking a user brings up the header, going back hides it, and
      picking again after going back returns to the same view. */
  lemma SelectBackSelect(v: MessagingView, u: Profile)
    ensures ShowsChatHeader(SelectUser(v, u))
    ensures !ShowsChatHeader(ShowList(SelectUser(v, u)))
    ensures ChatWith(ShowList(SelectUser(v, u))) == Some(u)
    ensures SelectUser(ShowList(SelectUser(v, u)), u) == SelectUser(v, u)
  {
  }

  /** What the user can do on the page. */
  datatype Event = Type(query: string) | Click(index: nat) | Back

  /** One event: typing changes the search text; a click on the
      `index`-th rendered entry picks that user (a click where no entry is
      rendered does nothing); the back buttons show the list. */
  function Step(v: MessagingView, e: Event): (r: MessagingView)
    ensures r.users == v.users && r.loading == v.loading
    ensures e.Click? && e.index < |ShownUsers(v)| ==> r == SelectUser(v, ShownUsers(v)[e.index])
    ensures e.Click? && e.index >= |ShownUsers(v)| ==> r == v
  {
    match e
    case Type(q) => v.(searchQuery := q)
    case Click(i) => if i < |ShownUsers(v)| then SelectUser(v, ShownUsers(v)[i]) else v
    case Back => ShowList(v)
  }

  /** A sequence of events, in order. */
  function Run(v: MessagingView, events: seq<Event>): (r: MessagingView)
    ensures r.users == v.users && r.loading == v.loading
    decreases |events|
  {
    if events == [] then v else Run(Step(v, events[0]), events[1..])
  }

  /** As written, nothing ever loads the list: `fetchUsersAndFollows` is
      defined but never called, so whatever the user does, the page stays
      on "Loading users..." and no chat can be opened. */
  lemma AsWrittenNeverSelects(events: seq<Event>)
    ensures Run(Initial, events).loading
    ensures Run(Initial, events).selected == None
  {
    StuckStaysStuck(Initial, events);
  }

  /** While the list is loading, no event picks a user. */
  lemma {:induction false} StuckStaysStuck(v: MessagingView, events: seq<Event>)
    requires v.loading && v.selected == None
    ensures Run(v, events).selected == None
    decreases |events|
  {
    if events != [] {
      StuckStaysStuck(Step(v, events[0]), events[1..]);
    }
  }

  /** `fetchUsersAndFollows`, with `userRows` the profiles other than the
      signed-in user, by name, and `followRows` the ids they follow. On
      an error of either read the lists are kept; otherwise the users
      and the followed ids (none for a `null` answer) replace them.
      Loading ends either way. */
  function LoadUsersAndFollows(v: MessagingView, userRows: Fetch<Option<seq<Profile>>>, followRows: Fetch<Option<seq<UserId>>>): (r: MessagingView)
    ensures !r.loading
    ensures r.selected == v.selected && r.showUserList == v.showUserList && r.searchQuery == v.searchQuery
    ensures userRows.FetchError? || followRows.FetchError? ==> r.users == v.users && r.followingIds == v.followingIds
    ensures userRows.Fetched? && followRows.Fetched? ==>
      r.users == userRows.rows.GetOr([]) && r.followingIds == followRows.rows.GetOr([])
  {
    if userRows.FetchError? || followRows.FetchError? then v.(loading := false)
    else v.(users := userRows.rows.GetOr([]), followingIds := followRows.rows.GetOr([]), loading := false)
  }

  /** The page that loads its list when it mounts. */
  function Mounted(userRows: Fetch<Option<seq<Profile>>>, followRows: Fetch<Option<seq<UserId>>>): MessagingView {
    LoadUsersAndFollows(Initial, userRows, followRows)
  }

  /** Loading the list on mount lets every loaded user be picked: with the
      search empty, clicking the `i`-th entry opens the chat with the
      `i`-th user and brings up the header. */
  lemma MountedCanSelect(users: seq<Profile>, follows: seq<UserId>, i: nat)
    requires i < |users|
    ensures var v := Mounted(Fetched(Some(users)), Fetched(Some(follows)));
      && ShownUsers(v) == users
      && Step(v, Click(i)).selected == Some(users[i])
      && ShowsChatHeader(Step(v, Click(i)))
  {
  }
}
