/** The two tables the follow screens write: `follow_requests`, the pending
    requests, and `follows`, the established follows. Both hold directed
    pairs (follower, following). */
module FollowGraph {
  import opened Session

  datatype Edge = Edge(follower: UserId, following: UserId)

  datatype FollowStore = FollowStore(follows: set<Edge>, requests: set<Edge>)

  /** Where a pair stands: only requested, following (and possibly still
      requested), or neither. */
  datatype Standing = NoRelation | Requested | Following

  function StandingOf(store: FollowStore, e: Edge): (s: Standing)
    ensures s == Following <==> e in store.follows
    ensures s == Requested <==> e !in store.follows && e in store.requests
  {
    if e in store.follows then Following
    else if e in store.requests then Requested
    else NoRelation
  }

  /** The users with a pending request to `me`. */
  function RequestersOf(store: FollowStore, me: UserId): set<UserId> {
    set e | e in store.requests && e.following == me :: e.follower
  }

  /** `ids` holds exactly the users `me` follows. */
  ghost predicate ListsFollowing(store: FollowStore, me: UserId, ids: seq<UserId>) {
    forall t :: t in ids <==> Edge(me, t) in store.follows
  }
}
