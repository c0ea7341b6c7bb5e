/** The statistics on the profile page (src/components/Profile.tsx, lines
    8-46): how many posts and comments the signed-in user wrote, how many
    likes their posts received and in how many communities they posted.
    Four reads go to the store together; which rows each returns is the
    store's business, and the statistics are derived from the rows. */
module ProfileStats {
  import opened Common
  import opened Session

  datatype Stats = Stats(totalPosts: nat, totalComments: nat, totalLikesReceived: nat, uniqueCommunities: nat)

  /** A post's `community_id`, possibly `null`. */
  type CommunityId = Option<int>

  /** The distinct values of a list: `new Set(xs)`. */
  function Elements(xs: seq<CommunityId>): (r: set<CommunityId>)
    ensures forall x :: x in r <==> x in xs
  {
    if xs == [] then {} else Elements(xs[..|xs| - 1]) + {xs[|xs| - 1]}
  }

  /** A list has no more distinct values than elements. */
  lemma {:induction false} ElementsBound(xs: seq<CommunityId>)
    ensures |Elements(xs)| <= |xs|
  {
    if xs != [] {
      ElementsBound(xs[..|xs| - 1]);
    }
  }

  /** One more element adds a distinct value exactly when it is new: a
      repeated community does not count twice. */
  lemma ElementsAppend(xs: seq<CommunityId>, x: CommunityId)
    ensures Elements(xs + [x]) == Elements(xs) + {x}
    ensures |Elements(xs + [x])| == if x in Elements(xs) then |Elements(xs)| else |Elements(xs)| + 1
  {
    var ys := xs + [x];
    assert ys[..|ys| - 1] == xs;
    if x in xs {
      assert Elements(xs) + {x} == Elements(xs);
    } else {
      assert x !in Elements(xs);
    }
  }

  /** One iteration of the count below: the values seen so far, with the
      next one added. */
  lemma CountStep(xs: seq<CommunityId>, i: nat, seen: set<CommunityId>)
    requires i < |xs| && seen == Elements(xs[..i])
    ensures seen + {xs[i]} == Elements(xs[..i + 1])
    ensures |seen + {xs[i]}| == if xs[i] in seen then |seen| else |seen| + 1
  {
    assert xs[..i + 1] == xs[..i] + [xs[i]];
    ElementsAppend(xs[..i], xs[i]);
  }

  /** `new Set(xs).size`, counted in one pass. */
  method UniqueCount(xs: seq<CommunityId>) returns (n: nat)
    ensures n == |Elements(xs)|
    ensures n <= |xs|
  {
    var seen: set<CommunityId> := {};
    n := 0;
    var i := 0;
    while i < |xs|
      invariant i <= |xs|
      invariant seen == Elements(xs[..i])
      invariant n == |seen|
    {
      CountStep(xs, i, seen);
      if xs[i] !in seen {
        n := n + 1;
      }
      seen := seen + {xs[i]};
      i := i + 1;
    }
    assert xs[..|xs|] == xs;
    ElementsBound(xs);
  }

  /** The query function for `["user-stats", userId]`, given the answers of
      its four reads: the user's post ids, comment ids, likes received,
      and the `community_id` of each of their posts (`null` included, should
      the store return it). There is nothing without a signed-in user id;
      an error in any answer fails the whole query with "Failed to fetch
      stats"; otherwise the first three statistics are the numbers of rows
      and the last the number of distinct community ids, which is at most
      the number of rows. */
  function UserStats<P, C, V>(user: Option<User>, posts: Fetch<seq<P>>, comments: Fetch<seq<C>>,
                              likes: Fetch<seq<V>>, communities: Fetch<seq<CommunityId>>): (r: Option<Outcome<Stats>>)
    ensures r.None? <==> SignedInId(user).None?
    ensures r.Some? && r.value.Err? <==>
      SignedInId(user).Some? && (posts.FetchError? || comments.FetchError? || likes.FetchError? || communities.FetchError?)
    ensures r.Some? && r.value.Err? ==> r.value.failure == ClientError("Failed to fetch stats")
    ensures r.Some? && r.value.Ok? ==>
      && r.value.value.totalPosts == |posts.rows|
      && r.value.value.totalComments == |comments.rows|
      && r.value.value.totalLikesReceived == |likes.rows|
      && r.value.value.uniqueCommunities == |Elements(communities.rows)| <= |communities.rows|
  {
    if SignedInId(user).None? then None
    else if posts.FetchError? || comments.FetchError? || likes.FetchError? || communities.FetchError? then
      Some(Err(ClientError("Failed to fetch stats")))
    else
      ElementsBound(communities.rows);
      Some(Ok(Stats(|posts.rows|, |comments.rows|, |likes.rows|, |Elements(communities.rows)|)))
  }
}
