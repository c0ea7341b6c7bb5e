/** The discover screen (src/components/FollowUsersPage.tsx): every other
    user, searchable by name, each with a Follow button unless already
    followed. Following inserts into `follows` directly, with no request. */
module FollowDiscovery {
  import opened Common
  import opened Seqs
  import opened Session
  import opened Profiles
  import opened FollowGraph

  datatype DiscoverPage = DiscoverPage(users: seq<Profile>, followingIds: seq<UserId>, loading: bool, searchQuery: string)

  /** `fetchUsersAndFollows`: both reads must succeed for either list to be
      replaced, and a `null` answer stands for no rows (`userData || []`,
      `followData?.map(...) || []`); loading ends whatever the outcome. */
  function LoadUsersAndFollows(page: DiscoverPage, users: Fetch<Option<seq<Profile>>>,
                               follows: Fetch<Option<seq<UserId>>>): (r: DiscoverPage)
    ensures !r.loading && r.searchQuery == page.searchQuery
    ensures users.Fetched? && follows.Fetched? ==>
      r.users == users.rows.GetOr([]) && r.followingIds == follows.rows.GetOr([])
    ensures users.FetchError? || follows.FetchError? ==> r.users == page.users && r.followingIds == page.followingIds
  {
    if users.Fetched? && follows.Fetched? then
      page.(users := users.rows.GetOr([]), followingIds := follows.rows.GetOr([]), loading := false)
    else page.(loading := false)
  }

  /** `handleFollow(targetId)` by `me`: on success the follow is stored and
      the target appended to `followingIds`; on error nothing changes. The
      requests table is never touched. */
  function HandleFollow(store: FollowStore, page: DiscoverPage, me: UserId, target: UserId, insertOk: bool): (r: (FollowStore, DiscoverPage))
    ensures r.0.requests == store.requests
    ensures insertOk ==> r.0.follows == store.follows + {Edge(me, target)} && r.1.followingIds == page.followingIds + [target]
    ensures !insertOk ==> r == (store, page)
    ensures r.1.users == page.users && r.1.searchQuery == page.searchQuery
  {
    if insertOk then
      (store.(follows := store.follows + {Edge(me, target)}), page.(followingIds := page.followingIds + [target]))
    else (store, page)
  }

  /** FollowUsersPage.tsx line 97: the Follow button is shown for users not yet followed. */
  predicate ShowsFollowButton(page: DiscoverPage, u: Profile) {
    u.id !in page.followingIds
  }

  /** The list the screen renders: `filteredUsers`. */
  function VisibleUsers(page: DiscoverPage): (r: seq<Profile>)
    ensures IsSubsequence(r, page.users)
    ensures forall i :: 0 <= i < |page.users| ==> (page.users[i] in r <==> NameMatches(page.searchQuery, page.users[i]))
    ensures page.searchQuery == "" ==> r == page.users
  {
    SearchByName(page.users, page.searchQuery)
  }

  /** A load whose follows read answers faithfully, or that fails over an
      agreeing list, leaves `followingIds` holding exactly the users `me`
      follows. */
  lemma LoadMirrorsFollows(store: FollowStore, page: DiscoverPage, me: UserId,
                           users: Fetch<Option<seq<Profile>>>, follows: Fetch<Option<seq<UserId>>>)
    requires follows.Fetched? ==> ListsFollowing(store, me, follows.rows.GetOr([]))
    requires users.FetchError? || follows.FetchError? ==> ListsFollowing(store, me, page.followingIds)
    ensures ListsFollowing(store, me, LoadUsersAndFollows(page, users, follows).followingIds)
  {
  }

  /** A follow keeps `followingIds` in agreement with the store, whether
      the insert succeeds or not. */
  lemma FollowKeepsMirror(store: FollowStore, page: DiscoverPage, me: UserId, target: UserId, insertOk: bool)
    requires ListsFollowing(store, me, page.followingIds)
    ensures var (store', page') := HandleFollow(store, page, me, target, insertOk);
      ListsFollowing(store', me, page'.followingIds)
  {
  }

  /** After a successful follow the target's button is gone and every other
      user's button is as before; after a failed one nothing changes. */
  lemma FollowHidesButton(store: FollowStore, page: DiscoverPage, me: UserId, target: UserId, insertOk: bool, u: Profile)
    ensures var page' := HandleFollow(store, page, me, target, insertOk).1;
      && (insertOk && u.id == target ==> !ShowsFollowButton(page', u))
      && (u.id != target || !insertOk ==> ShowsFollowButton(page', u) == ShowsFollowButton(page, u))
  {
  }

  /** A follow from this screen goes from no relation straight to
      following, without passing through a request. */
  lemma FollowSkipsRequest(store: FollowStore, page: DiscoverPage, me: UserId, target: UserId)
    requires StandingOf(store, Edge(me, target)) == NoRelation
    ensures StandingOf(HandleFollow(store, page, me, target, true).0, Edge(me, target)) == Following
  {
  }
}
