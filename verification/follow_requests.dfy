/** The incoming follow requests screen (src/pages/FollowreqPage.tsx):
    the signed-in user lists the requests addressed to them and accepts or
    rejects each one. Accepting inserts the follow and then deletes the
    request; rejecting only deletes the request. The local list drops the
    request only when every write succeeded. */
module FollowRequests {
  import opened Common
  import opened Seqs
  import opened Session
  import opened FollowGraph

  datatype ProfileSummary = ProfileSummary(userName: string, avatarUrl: Option<string>)

  /** A row as the join returns it: `follower_profile` is an array, or null. */
  datatype RawRequest = RawRequest(followerId: UserId, joined: Option<seq<ProfileSummary>>)

  datatype FollowRequest = FollowRequest(followerId: UserId, followerProfile: Option<ProfileSummary>)

  datatype RequestsPage = RequestsPage(requests: seq<FollowRequest>, loading: bool, respondingId: Option<UserId>)

  /** `item.follower_profile?.[0] ?? null`: the first joined profile, or
      null when the join is null or empty. */
  function FormatRequest(raw: RawRequest): (r: FollowRequest)
    ensures r.followerId == raw.followerId
    ensures r.followerProfile.Some? <==> raw.joined.Some? && |raw.joined.value| > 0
    ensures r.followerProfile.Some? ==> r.followerProfile.value == raw.joined.value[0]
  {
    var profile := if raw.joined.Some? && |raw.joined.value| > 0 then Some(raw.joined.value[0]) else None;
    FollowRequest(raw.followerId, profile)
  }

  /** `(data || []).map(...)`: one request per row, in the same order. */
  function FormatRequests(data: Option<seq<RawRequest>>): (r: seq<FollowRequest>)
    ensures data.None? ==> r == []
    ensures data.Some? ==> |r| == |data.value|
    ensures data.Some? ==> forall i :: 0 <= i < |r| ==> r[i] == FormatRequest(data.value[i])
  {
    if data.None? then [] else seq(|data.value|, i requires 0 <= i < |data.value| => FormatRequest(data.value[i]))
  }

  /** The effect of `fetchRequests`: nothing happens without a signed-in
      user (the page then keeps loading); otherwise the list is replaced on
      success, kept on error, and loading ends either way. */
  function LoadRequests(page: RequestsPage, user: Option<User>, result: Fetch<Option<seq<RawRequest>>>): (r: RequestsPage)
    ensures SignedInId(user).None? ==> r == page
    ensures SignedInId(user).Some? ==> !r.loading && r.respondingId == page.respondingId
    ensures SignedInId(user).Some? && result.FetchError? ==> r.requests == page.requests
    ensures SignedInId(user).Some? && result.Fetched? ==> r.requests == FormatRequests(result.rows)
  {
    if SignedInId(user).None? then page
    else match result
      case FetchError => page.(loading := false)
      case Fetched(data) => page.(requests := FormatRequests(data), loading := false)
  }

  function FollowerIsNot(id: UserId): FollowRequest -> bool {
    (r: FollowRequest) => r.followerId != id
  }

  /** `handleAction(followerId, accept)` of the signed-in user `me`. When
      accepting, the follow (follower, me) is inserted first and a failed
      insert stops there; then the request (follower, me) is deleted. Only
      when every write succeeded do the follower's rows leave the local
      list, and `respondingId` is cleared in every case. */
  function HandleAction(store: FollowStore, page: RequestsPage, me: UserId, followerId: UserId,
                        accept: bool, insertOk: bool, deleteOk: bool): (r: (FollowStore, RequestsPage))
    ensures var e := Edge(followerId, me);
      && (accept && !insertOk ==> r.0 == store)
      && (accept && insertOk ==> r.0.follows == store.follows + {e})
      && (!accept ==> r.0.follows == store.follows)
      && ((!accept || insertOk) && deleteOk ==> r.0.requests == store.requests - {e})
      && (!((!accept || insertOk) && deleteOk) ==> r.0.requests == store.requests)
    ensures (!accept || insertOk) && deleteOk ==>
      && (forall i :: 0 <= i < |page.requests| ==>
            (page.requests[i] in r.1.requests <==> page.requests[i].followerId != followerId))
      && (forall i :: 0 <= i < |r.1.requests| ==> r.1.requests[i].followerId != followerId)
      && IsSubsequence(r.1.requests, page.requests)
      && (forall x :: multiset(r.1.requests)[x] == if x.followerId == followerId then 0 else multiset(page.requests)[x])
    ensures !((!accept || insertOk) && deleteOk) ==> r.1.requests == page.requests
    ensures r.1.respondingId == None && r.1.loading == page.loading
  {
    var e := Edge(followerId, me);
    var cleared := page.(respondingId := None);
    if accept && !insertOk then (store, cleared)
    else
      var inserted := if accept then store.(follows := store.follows + {e}) else store;
      if !deleteOk then (inserted, cleared)
      else
        DropFollowerRows(page.requests, followerId);
        (inserted.(requests := inserted.requests - {e}),
         cleared.(requests := Filter(page.requests, FollowerIsNot(followerId))))
  }

  /** The followers whose requests the list shows. */
  function ListedFollowers(reqs: seq<FollowRequest>): set<UserId> {
    set i | 0 <= i < |reqs| :: reqs[i].followerId
  }

  /** The followers of the rows the store returned. */
  function RawFollowers(data: Option<seq<RawRequest>>): set<UserId> {
    var rows := data.GetOr([]);
    set i | 0 <= i < |rows| :: rows[i].followerId
  }

  /** The page's list agrees with the store: it shows a request from a user
      exactly when that user has a pending request to `me`. */
  predicate MirrorsStore(store: FollowStore, page: RequestsPage, me: UserId) {
    ListedFollowers(page.requests) == RequestersOf(store, me)
  }

  /** A faithful answer to `fetchRequests`' read: one row per pending
      request to `me`, or `null` when there is none. */
  predicate AnswersRequests(store: FollowStore, me: UserId, data: Option<seq<RawRequest>>) {
    RawFollowers(data) == RequestersOf(store, me)
  }

  /** Formatting keeps every row's follower. */
  lemma FormatKeepsFollowers(data: Option<seq<RawRequest>>)
    ensures ListedFollowers(FormatRequests(data)) == RawFollowers(data)
  {
    var r := FormatRequests(data);
    var rows := data.GetOr([]);
    assert |r| == |rows|;
    forall x | x in RawFollowers(data) ensures x in ListedFollowers(r) {
      var i :| 0 <= i < |rows| && rows[i].followerId == x;
      assert r[i].followerId == x;
    }
  }

  /** A signed-in load makes the list agree with the store when the read
      answers faithfully, and a failed read keeps an agreeing list. */
  lemma LoadMirrorsStore(store: FollowStore, page: RequestsPage, user: Option<User>, me: UserId,
                         result: Fetch<Option<seq<RawRequest>>>)
    requires SignedInId(user) == Some(me)
    requires result.Fetched? ==> AnswersRequests(store, me, result.rows)
    requires result.FetchError? ==> MirrorsStore(store, page, me)
    ensures MirrorsStore(store, LoadRequests(page, user, result), me)
  {
    if result.Fetched? {
      FormatKeepsFollowers(result.rows);
    }
  }

  /** Dropping a follower's rows drops exactly that follower from the list. */
  lemma {:induction false} DropFollower(reqs: seq<FollowRequest>, f: UserId)
    ensures ListedFollowers(Filter(reqs, FollowerIsNot(f))) == ListedFollowers(reqs) - {f}
  {
    var r := Filter(reqs, FollowerIsNot(f));
    forall x | x in ListedFollowers(r) ensures x in ListedFollowers(reqs) - {f} {
      var i :| 0 <= i < |r| && r[i].followerId == x;
      var j :| 0 <= j < |reqs| && reqs[j] == r[i];
    }
    forall x | x in ListedFollowers(reqs) - {f} ensures x in ListedFollowers(r) {
      var j :| 0 <= j < |reqs| && reqs[j].followerId == x;
      assert reqs[j] in r;
      var i :| 0 <= i < |r| && r[i] == reqs[j];
    }
  }

  /** Answering a request keeps the list in agreement with the store,
      whichever writes succeed: on full success both lose the follower, and
      otherwise neither the requests table nor the list changes. */
  lemma ActionKeepsMirror(store: FollowStore, page: RequestsPage, me: UserId, followerId: UserId,
                          accept: bool, insertOk: bool, deleteOk: bool)
    requires MirrorsStore(store, page, me)
    ensures var (store', page') := HandleAction(store, page, me, followerId, accept, insertOk, deleteOk);
      MirrorsStore(store', page', me)
  {
    var (store', page') := HandleAction(store, page, me, followerId, accept, insertOk, deleteOk);
    if (!accept || insertOk) && deleteOk {
      assert page'.requests == Filter(page.requests, FollowerIsNot(followerId));
      DropFollower(page.requests, followerId);
      DropRequester(store, store', me, followerId);
    }
  }

  /** Deleting the request (f, me) drops exactly f from `me`'s requesters. */
  lemma DropRequester(store: FollowStore, store': FollowStore, me: UserId, f: UserId)
    requires store'.requests == store.requests - {Edge(f, me)}
    ensures RequestersOf(store', me) == RequestersOf(store, me) - {f}
  {
    forall x | x in RequestersOf(store, me) - {f} ensures x in RequestersOf(store', me) {
      assert Edge(x, me) in store'.requests;
    }
  }

  /** Dropping a follower's rows keeps every other row, as often as it
      occurs and in order, and no row of that follower. */
  lemma DropFollowerRows(reqs: seq<FollowRequest>, f: UserId)
    ensures var r := Filter(reqs, FollowerIsNot(f));
      && (forall i :: 0 <= i < |reqs| ==> (reqs[i] in r <==> reqs[i].followerId != f))
      && (forall i :: 0 <= i < |r| ==> r[i].followerId != f)
      && IsSubsequence(r, reqs)
      && (forall x :: multiset(r)[x] == if x.followerId == f then 0 else multiset(reqs)[x])
  {
    FilterIsSubsequence(reqs, FollowerIsNot(f));
    FilterMultiset(reqs, FollowerIsNot(f));
  }

  /** Accepting a pending request, when both writes succeed, turns it into
      a follow. */
  lemma AcceptApproves(store: FollowStore, page: RequestsPage, me: UserId, followerId: UserId)
    requires StandingOf(store, Edge(followerId, me)) == Requested
    ensures var (store', _) := HandleAction(store, page, me, followerId, true, true, true);
      && StandingOf(store', Edge(followerId, me)) == Following
      && Edge(followerId, me) !in store'.requests
  {
  }

  /** Rejecting a pending request, when the delete succeeds, leaves no
      relation, and rejecting never touches the follows whatever happens. */
  lemma RejectLeavesNoRelation(store: FollowStore, page: RequestsPage, me: UserId, followerId: UserId, deleteOk: bool)
    requires StandingOf(store, Edge(followerId, me)) == Requested
    ensures var (store', _) := HandleAction(store, page, me, followerId, false, true, deleteOk);
      && store'.follows == store.follows
      && StandingOf(store', Edge(followerId, me)) == if deleteOk then NoRelation else Requested
  {
  }

  /** When the follow is inserted but the delete fails, the follow exists
      while the request stays both in the table and in the local list. */
  lemma AcceptHalfDone(store: FollowStore, page: RequestsPage, me: UserId, followerId: UserId)
    requires Edge(followerId, me) in store.requests
    ensures var (store', page') := HandleAction(store, page, me, followerId, true, true, false);
      && Edge(followerId, me) in store'.follows
      && Edge(followerId, me) in store'.requests
      && page'.requests == page.requests
  {
  }

  /** Other pairs keep their standing whatever the outcome. */
  lemma ActionIsLocal(store: FollowStore, page: RequestsPage, me: UserId, followerId: UserId,
                      accept: bool, insertOk: bool, deleteOk: bool, other: Edge)
    requires other != Edge(followerId, me)
    ensures StandingOf(HandleAction(store, page, me, followerId, accept, insertOk, deleteOk).0, other)
      == StandingOf(store, other)
  {
  }
}
