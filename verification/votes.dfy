/** The like/dislike button of a post (src/components/LikeButton.tsx).

    The `votes` table is a list of rows `(id, post, user, value)`. Casting a
    value looks up the caller's row for the post and then makes one of three
    writes: it inserts a row when there is none, deletes the row when it
    already holds the same value, and updates it otherwise. Abstractly, each
    (post, user) holds at most one vote and casting toggles it (`Toggle`).
    The button shows the like and dislike counts of the post's rows and the
    viewer's own vote. */
module Votes {
  import opened Common
  import opened Seqs
  import opened Session

  datatype VoteKey = VoteKey(post: int, user: UserId)

  /** A row of `votes`; `id` is assigned by the store. */
  datatype VoteRow = VoteRow(id: int, post: int, user: UserId, value: int) {
    function Key(): VoteKey {
      VoteKey(post, user)
    }
  }

  /** What a successful cast did, as `vote` reports it. */
  datatype Action = Added | Removed | Changed

  datatype Reaction = Reaction(action: Action, vote: int)

  function KeyIs(k: VoteKey): VoteRow -> bool {
    (r: VoteRow) => r.Key() == k
  }

  function IdIsNot(id: int): VoteRow -> bool {
    (r: VoteRow) => r.id != id
  }

  /** The rows of one (post, user). */
  function RowsFor(rows: seq<VoteRow>, k: VoteKey): seq<VoteRow> {
    Filter(rows, KeyIs(k))
  }

  /** The table invariant: ids are distinct and no (post, user) has two rows. */
  predicate WellFormed(rows: seq<VoteRow>) {
    forall i, j :: 0 <= i < j < |rows| ==> rows[i].id != rows[j].id && rows[i].Key() != rows[j].Key()
  }

  /** `id` is not the id of any row. */
  predicate FreshId(rows: seq<VoteRow>, id: int) {
    forall i :: 0 <= i < |rows| ==> rows[i].id != id
  }

  /** The abstract view of the table: the vote (post, user) holds, if any. */
  function VoteOf(rows: seq<VoteRow>, k: VoteKey): Option<int> {
    var m := RowsFor(rows, k);
    if m == [] then None else Some(m[0].value)
  }

  /** The reference state machine of one (post, user): casting the value it
      already holds clears it, casting anything else sets it. */
  function Toggle(current: Option<int>, v: int): (r: Option<int>)
    ensures r == None <==> current == Some(v)
    ensures r.Some? ==> r.value == v
  {
    if current == Some(v) then None else Some(v)
  }

  /** The lookup `select … eq(post_id) eq(user_id) maybeSingle()`, of which
      only `data` is read: the row when exactly one row matches, and `null`
      otherwise — when none matches, when several match (the call then
      reports an error) and when the call fails (`lookupOk` false). */
  function ExistingVote(rows: seq<VoteRow>, k: VoteKey, lookupOk: bool): (r: Option<VoteRow>)
    ensures r.Some? <==> lookupOk && |RowsFor(rows, k)| == 1
    ensures r.Some? ==> r.value in rows && r.value.Key() == k
  {
    var m := RowsFor(rows, k);
    if lookupOk && |m| == 1 then Some(m[0]) else None
  }

  /** `delete().eq("id", id)`. */
  function DeleteRow(rows: seq<VoteRow>, id: int): seq<VoteRow> {
    Filter(rows, IdIsNot(id))
  }

  /** `update({ vote: v }).eq("id", id)`: the row with that id takes the new
      value; nothing else changes. */
  function UpdateRow(rows: seq<VoteRow>, id: int, v: int): (r: seq<VoteRow>)
    ensures |r| == |rows|
    ensures forall i :: 0 <= i < |rows| ==> r[i] == if rows[i].id == id then rows[i].(value := v) else rows[i]
  {
    if rows == [] then []
    else [if rows[0].id == id then rows[0].(value := v) else rows[0]] + UpdateRow(rows[1..], id, v)
  }

  /** `vote(value, post, user)`. The lookup may fail (`lookupOk`), which
      reads as "no vote"; the one write it then makes may fail (`writeOk`),
      which throws and leaves the table as it was. `freshId` is the id the
      store assigns to an inserted row. */
  function Vote(rows: seq<VoteRow>, value: int, post: int, user: UserId,
                lookupOk: bool, writeOk: bool, freshId: int): (r: (seq<VoteRow>, Outcome<Reaction>))
    ensures r.1.Ok? <==> writeOk
    ensures r.1.Err? ==> r.0 == rows && r.1.failure == StoreError
    ensures r.1.Ok? ==> r.1.value.vote == value
    ensures var e := ExistingVote(rows, VoteKey(post, user), lookupOk);
      && (e.None? && writeOk ==>
            r.1.value.action == Added && r.0 == rows + [VoteRow(freshId, post, user, value)])
      && (e.Some? && e.value.value == value && writeOk ==>
            && r.1.value.action == Removed
            && e.value !in r.0
            && IsSubsequence(r.0, rows)
            && forall x :: x in r.0 <==> x in rows && x.id != e.value.id)
      && (e.Some? && e.value.value != value && writeOk ==>
            && r.1.value.action == Changed
            && |r.0| == |rows|
            && e.value.(value := value) in r.0
            && forall i :: 0 <= i < |rows| ==>
                 r.0[i] == if rows[i].id == e.value.id then rows[i].(value := value) else rows[i])
  {
    match ExistingVote(rows, VoteKey(post, user), lookupOk)
    case Some(existing) =>
      if !writeOk then (rows, Err(StoreError))
      else if existing.value == value then
        FilterIsSubsequence(rows, IdIsNot(existing.id));
        (DeleteRow(rows, existing.id), Ok(Reaction(Removed, value)))
      else
        var j :| 0 <= j < |rows| && rows[j] == existing;
        assert UpdateRow(rows, existing.id, value)[j] == existing.(value := value);
        (UpdateRow(rows, existing.id, value), Ok(Reaction(Changed, value)))
    case None =>
      if !writeOk then (rows, Err(StoreError))
      else (rows + [VoteRow(freshId, post, user, value)], Ok(Reaction(Added, value)))
  }

  /** `mutationFn` of the button: without a signed-in user it throws
      "Please sign in to react to posts" before touching the store; on
      success `onSuccess` invalidates the post's `votes` query. */
  function React(rows: seq<VoteRow>, user: Option<User>, value: int, post: int,
                 lookupOk: bool, writeOk: bool, freshId: int): (r: VoteStep)
    ensures user.None? ==> r.rows == rows && r.outcome == Err(ClientError("Please sign in to react to posts"))
    ensures user.Some? ==> (r.rows, r.outcome) == Vote(rows, value, post, user.value.id, lookupOk, writeOk, freshId)
    ensures r.outcome.Ok? <==> user.Some? && writeOk
    ensures r.invalidated == if r.outcome.Ok? then [VotesKey(post)] else []
  {
    if user.None? then VoteStep(rows, Err(ClientError("Please sign in to react to posts")), [])
    else
      var (rows', outcome) := Vote(rows, value, post, user.value.id, lookupOk, writeOk, freshId);
      VoteStep(rows', outcome, if outcome.Ok? then [VotesKey(post)] else [])
  }

  datatype VoteStep = VoteStep(rows: seq<VoteRow>, outcome: Outcome<Reaction>, invalidated: seq<QueryKey>)

  /** The `onSuccess` toast. */
  function ReactionMessage(r: Reaction): string {
    match r.action
    case Added => "You " + (if r.vote == 1 then "liked" else "disliked") + " this post"
    case Removed => "Reaction removed"
    case Changed => "Changed to " + (if r.vote == 1 then "like" else "dislike")
  }

  /** The toast tells the actions apart, and for an insert or a change it
      tells a like from a dislike. */
  lemma ReactionMessageDistinguishes(a: Reaction, b: Reaction)
    requires ReactionMessage(a) == ReactionMessage(b)
    ensures a.action == b.action
    ensures a.action != Removed ==> (a.vote == 1 <==> b.vote == 1)
  {
    var ma, mb := ReactionMessage(a), ReactionMessage(b);
    assert ma[0] == mb[0];
    if a.action == Added && b.action == Added {
      assert ma[4] == mb[4];
    }
    if a.action == Changed && b.action == Changed {
      assert ma[11] == mb[11];
    }
  }

  // ---------------------------------------------------------------------
  // The abstract view: casting toggles the (post, user) and nothing else.

  /** Under the invariant, each (post, user) has at most one row. */
  lemma {:induction false} AtMostOneRow(rows: seq<VoteRow>, k: VoteKey)
    requires WellFormed(rows)
    ensures |RowsFor(rows, k)| <= 1
  {
    if rows != [] {
      assert WellFormed(rows[1..]) by {
        forall i, j | 0 <= i < j < |rows[1..]|
          ensures rows[1..][i].id != rows[1..][j].id && rows[1..][i].Key() != rows[1..][j].Key()
        {
          assert rows[1..][i] == rows[i + 1] && rows[1..][j] == rows[j + 1];
        }
      }
      AtMostOneRow(rows[1..], k);
      if rows[0].Key() == k {
        FilterDropsAll(rows[1..], KeyIs(k));
      }
    }
  }

  /** Dropping the first row keeps the invariant. */
  lemma WellFormedTail(rows: seq<VoteRow>)
    requires WellFormed(rows) && rows != []
    ensures WellFormed(rows[1..])
  {
    var t := rows[1..];
    forall i, j | 0 <= i < j < |t| ensures t[i].id != t[j].id && t[i].Key() != t[j].Key() {
      assert t[i] == rows[i + 1] && t[j] == rows[j + 1];
    }
  }

  /** Prepending a row whose id and key are new keeps the invariant. */
  lemma WellFormedCons(x: VoteRow, rows: seq<VoteRow>)
    requires WellFormed(rows)
    requires forall j :: 0 <= j < |rows| ==> x.id != rows[j].id && x.Key() != rows[j].Key()
    ensures WellFormed([x] + rows)
  {
    var r := [x] + rows;
    forall i, j | 0 <= i < j < |r| ensures r[i].id != r[j].id && r[i].Key() != r[j].Key() {
      assert r[j] == rows[j - 1];
      if i > 0 {
        assert r[i] == rows[i - 1];
      }
    }
  }

  /** A filtered table keeps the invariant. */
  lemma {:induction false} FilterKeepsWellFormed(rows: seq<VoteRow>, p: VoteRow -> bool)
    requires WellFormed(rows)
    ensures WellFormed(Filter(rows, p))
  {
    if rows != [] {
      var t := rows[1..];
      WellFormedTail(rows);
      FilterKeepsWellFormed(t, p);
      if p(rows[0]) {
        var ft := Filter(t, p);
        forall j | 0 <= j < |ft| ensures rows[0].id != ft[j].id && rows[0].Key() != ft[j].Key() {
          var k :| 0 <= k < |t| && t[k] == ft[j];
          assert rows[k + 1] == ft[j];
        }
        WellFormedCons(rows[0], ft);
      }
    }
  }

  /** Updating one row's value keeps keys and ids, so the rows of every
      (post, user) are updated in place. */
  lemma {:induction false} RowsForUpdate(rows: seq<VoteRow>, k: VoteKey, id: int, v: int)
    ensures RowsFor(UpdateRow(rows, id, v), k) == UpdateRow(RowsFor(rows, k), id, v)
  {
    if rows != [] {
      RowsForUpdate(rows[1..], k, id, v);
      assert UpdateRow(rows, id, v)[1..] == UpdateRow(rows[1..], id, v);
    }
  }

  /** Rows none of which has the id are not touched by an update. */
  lemma UpdateAbsent(rows: seq<VoteRow>, id: int, v: int)
    requires FreshId(rows, id)
    ensures UpdateRow(rows, id, v) == rows
  {
  }

  /** The rows of a (post, user) other than that of `e` do not share `e`'s id. */
  lemma OtherKeysOtherIds(rows: seq<VoteRow>, e: VoteRow, k: VoteKey)
    requires WellFormed(rows) && e in rows && e.Key() != k
    ensures FreshId(RowsFor(rows, k), e.id)
  {
    var m := RowsFor(rows, k);
    forall i | 0 <= i < |m| ensures m[i].id != e.id {
      var a :| 0 <= a < |rows| && rows[a] == m[i];
      var b :| 0 <= b < |rows| && rows[b] == e;
      assert a != b;
    }
  }

  /** Inserting the first row of a (post, user) gives it that row's vote
      and leaves every other pair and the invariant alone. */
  lemma InsertToggles(rows: seq<VoteRow>, key: VoteKey, row: VoteRow)
    requires WellFormed(rows) && FreshId(rows, row.id)
    requires row.Key() == key && RowsFor(rows, key) == []
    ensures var rows' := rows + [row];
      && VoteOf(rows', key) == Some(row.value)
      && (forall k :: k != key ==> VoteOf(rows', k) == VoteOf(rows, k))
      && WellFormed(rows')
  {
    var rows' := rows + [row];
    forall k ensures RowsFor(rows', k) == RowsFor(rows, k) + RowsFor([row], k) {
      FilterConcat(rows, [row], KeyIs(k));
    }
    assert RowsFor([row], key) == [row];
    forall k | k != key ensures VoteOf(rows', k) == VoteOf(rows, k) {
      assert RowsFor([row], k) == [];
    }
    forall i, j | 0 <= i < j < |rows'| ensures rows'[i].id != rows'[j].id && rows'[i].Key() != rows'[j].Key() {
      if j == |rows| {
        assert rows'[i] == rows[i];
        assert rows[i] !in RowsFor(rows, key);
      }
    }
  }

  /** Deleting the only row of a (post, user) clears its vote and leaves
      every other pair and the invariant alone. */
  lemma DeleteToggles(rows: seq<VoteRow>, key: VoteKey, e: VoteRow)
    requires WellFormed(rows) && RowsFor(rows, key) == [e]
    ensures var rows' := DeleteRow(rows, e.id);
      && VoteOf(rows', key) == None
      && (forall k :: k != key ==> VoteOf(rows', k) == VoteOf(rows, k))
      && WellFormed(rows')
  {
    var rows' := DeleteRow(rows, e.id);
    FilterKeepsWellFormed(rows, IdIsNot(e.id));
    forall k ensures RowsFor(rows', k) == Filter(RowsFor(rows, k), IdIsNot(e.id)) {
      FilterCommute(rows, IdIsNot(e.id), KeyIs(k));
    }
    assert Filter([e], IdIsNot(e.id)) == [];
    forall k | k != key ensures VoteOf(rows', k) == VoteOf(rows, k) {
      OtherKeysOtherIds(rows, e, k);
      FilterKeepsAll(RowsFor(rows, k), IdIsNot(e.id));
    }
  }

  /** An update keeps every row's id and key, hence the invariant. */
  lemma UpdateKeepsWellFormed(rows: seq<VoteRow>, id: int, v: int)
    requires WellFormed(rows)
    ensures WellFormed(UpdateRow(rows, id, v))
  {
    var rows' := UpdateRow(rows, id, v);
    forall i, j | 0 <= i < j < |rows'| ensures rows'[i].id != rows'[j].id && rows'[i].Key() != rows'[j].Key() {
      assert rows'[i].id == rows[i].id && rows'[i].Key() == rows[i].Key();
      assert rows'[j].id == rows[j].id && rows'[j].Key() == rows[j].Key();
    }
  }

  /** Updating the only row of a (post, user) to `v` gives it the vote `v`
      and leaves every other pair and the invariant alone. */
  lemma UpdateToggles(rows: seq<VoteRow>, key: VoteKey, e: VoteRow, v: int)
    requires WellFormed(rows) && RowsFor(rows, key) == [e]
    ensures var rows' := UpdateRow(rows, e.id, v);
      && VoteOf(rows', key) == Some(v)
      && (forall k :: k != key ==> VoteOf(rows', k) == VoteOf(rows, k))
      && WellFormed(rows')
  {
    var rows' := UpdateRow(rows, e.id, v);
    UpdateKeepsWellFormed(rows, e.id, v);
    forall k ensures RowsFor(rows', k) == UpdateRow(RowsFor(rows, k), e.id, v) {
      RowsForUpdate(rows, k, e.id, v);
    }
    assert UpdateRow([e], e.id, v) == [e.(value := v)];
    forall k | k != key ensures VoteOf(rows', k) == VoteOf(rows, k) {
      OtherKeysOtherIds(rows, e, k);
      UpdateAbsent(RowsFor(rows, k), e.id, v);
    }
  }

  /** With a well-formed table and a successful lookup, a successful cast
      toggles the caller's vote, leaves every other (post, user) as it was,
      and keeps the table well formed. */
  lemma VoteRefinesToggle(rows: seq<VoteRow>, value: int, post: int, user: UserId, freshId: int)
    requires WellFormed(rows) && FreshId(rows, freshId)
    ensures var (rows', outcome) := Vote(rows, value, post, user, true, true, freshId);
      && outcome.Ok?
      && VoteOf(rows', VoteKey(post, user)) == Toggle(VoteOf(rows, VoteKey(post, user)), value)
      && (forall k :: k != VoteKey(post, user) ==> VoteOf(rows', k) == VoteOf(rows, k))
      && WellFormed(rows')
  {
    var key := VoteKey(post, user);
    AtMostOneRow(rows, key);
    match ExistingVote(rows, key, true)
    case None =>
      InsertToggles(rows, key, VoteRow(freshId, post, user, value));
    case Some(e) =>
      assert RowsFor(rows, key) == [e];
      if e.value == value {
        DeleteToggles(rows, key, e);
      } else {
        UpdateToggles(rows, key, e, value);
      }
  }

  /** Casting the same value twice from "no vote" returns the caller to "no
      vote" and leaves every other (post, user) as it was. */
  lemma VoteTwiceRestores(rows: seq<VoteRow>, value: int, post: int, user: UserId, id1: int, id2: int)
    requires WellFormed(rows) && FreshId(rows, id1) && id2 != id1 && FreshId(rows, id2)
    requires VoteOf(rows, VoteKey(post, user)) == None
    ensures var rows1 := Vote(rows, value, post, user, true, true, id1).0;
      var rows2 := Vote(rows1, value, post, user, true, true, id2).0;
      && VoteOf(rows1, VoteKey(post, user)) == Some(value)
      && VoteOf(rows2, VoteKey(post, user)) == None
      && forall k :: k != VoteKey(post, user) ==> VoteOf(rows2, k) == VoteOf(rows, k)
  {
    var rows1 := Vote(rows, value, post, user, true, true, id1).0;
    VoteRefinesToggle(rows, value, post, user, id1);
    assert rows1 == rows + [VoteRow(id1, post, user, value)];
    assert FreshId(rows1, id2);
    VoteRefinesToggle(rows1, value, post, user, id2);
  }

  /** A failed lookup is swallowed and read as "no vote": the cast inserts a
      new row even when the caller already has one, which leaves two rows
      for that (post, user). */
  lemma FailedLookupInsertsAnyway(rows: seq<VoteRow>, value: int, post: int, user: UserId, freshId: int)
    requires VoteOf(rows, VoteKey(post, user)).Some?
    ensures var (rows', outcome) := Vote(rows, value, post, user, false, true, freshId);
      && outcome == Ok(Reaction(Added, value))
      && |RowsFor(rows', VoteKey(post, user))| == |RowsFor(rows, VoteKey(post, user))| + 1
      && !WellFormed(rows')
  {
    var key := VoteKey(post, user);
    var row := VoteRow(freshId, post, user, value);
    var rows' := rows + [row];
    FilterConcat(rows, [row], KeyIs(key));
    assert RowsFor([row], key) == [row];
    var m := RowsFor(rows', key);
    assert |m| >= 2;
    if WellFormed(rows') {
      AtMostOneRow(rows', key);
    }
  }

  // ---------------------------------------------------------------------
  // What the button shows.

  /** The counts under the two buttons and the viewer's own vote. */
  datatype Tally = Tally(likes: nat, dislikes: nat, userVote: Option<int>)

  function IsLike(): VoteRow -> bool {
    (r: VoteRow) => r.value == 1
  }

  function IsDislike(): VoteRow -> bool {
    (r: VoteRow) => r.value == -1
  }

  function UserIs(u: UserId): VoteRow -> bool {
    (r: VoteRow) => r.user == u
  }

  function PostIs(p: int): VoteRow -> bool {
    (r: VoteRow) => r.post == p
  }

  /** `votes.find(v => v.user_id === user?.id)?.vote`: the value of the
      first row of the viewer; undefined without a viewer, since no row's
      user is undefined. */
  function FirstVoteBy(votes: seq<VoteRow>, viewer: Option<UserId>): (r: Option<int>)
    ensures r.Some? <==> viewer.Some? && exists i :: 0 <= i < |votes| && votes[i].user == viewer.value
    ensures r.Some? ==> exists i :: (0 <= i < |votes| && votes[i].user == viewer.value && votes[i].value == r.value
      && forall j :: 0 <= j < i ==> votes[j].user != viewer.value)
  {
    if votes == [] || viewer.None? then None
    else if votes[0].user == viewer.value then Some(votes[0].value)
    else
      var r := FirstVoteBy(votes[1..], viewer);
      assert r.Some? ==> exists i :: (0 <= i < |votes| && votes[i].user == viewer.value && votes[i].value == r.value
        && forall j :: 0 <= j < i ==> votes[j].user != viewer.value)
      by {
        if r.Some? {
          var i :| 0 <= i < |votes[1..]| && votes[1..][i].user == viewer.value && votes[1..][i].value == r.value
            && forall j :: 0 <= j < i ==> votes[1..][j].user != viewer.value;
          assert votes[i + 1] == votes[1..][i];
          forall j | 0 <= j < i + 1 ensures votes[j].user != viewer.value {
            if j > 0 {
              assert votes[j] == votes[1..][j - 1];
            }
          }
        }
      }
      assert (exists i :: 0 <= i < |votes| && votes[i].user == viewer.value) ==> r.Some? by {
        if exists i :: 0 <= i < |votes| && votes[i].user == viewer.value {
          var i :| 0 <= i < |votes| && votes[i].user == viewer.value;
          assert votes[1..][i - 1] == votes[i];
        }
      }
      r
  }

  /** LikeButton.tsx lines 252-254: the likes, the dislikes and the viewer's vote. */
  function TallyVotes(votes: seq<VoteRow>, viewer: Option<UserId>): (t: Tally)
    ensures t.likes + t.dislikes <= |votes|
    ensures t.likes == |Filter(votes, IsLike())| && t.dislikes == |Filter(votes, IsDislike())|
  {
    FilterDisjointCounts(votes, IsLike(), IsDislike());
    Tally(|Filter(votes, IsLike())|, |Filter(votes, IsDislike())|, FirstVoteBy(votes, viewer))
  }

  /** The viewer's first row is the head of the viewer's rows. */
  lemma {:induction false} FirstVoteIsFirstOfFilter(votes: seq<VoteRow>, u: UserId)
    ensures var m := Filter(votes, UserIs(u));
      FirstVoteBy(votes, Some(u)) == if m == [] then None else Some(m[0].value)
  {
    if votes != [] && votes[0].user != u {
      FirstVoteIsFirstOfFilter(votes[1..], u);
    }
  }

  /** The viewer's rows among a post's rows are the rows of (post, viewer). */
  lemma {:induction false} PostThenUser(rows: seq<VoteRow>, p: int, u: UserId)
    ensures Filter(Filter(rows, PostIs(p)), UserIs(u)) == RowsFor(rows, VoteKey(p, u))
  {
    if rows != [] {
      PostThenUser(rows[1..], p, u);
    }
  }

  /** Over the rows `fetchVotes(post)` returns, the button highlights the
      vote the viewer holds on that post in the abstract view. */
  lemma ButtonShowsVoteOf(rows: seq<VoteRow>, post: int, viewer: UserId)
    ensures TallyVotes(Filter(rows, PostIs(post)), Some(viewer)).userVote == VoteOf(rows, VoteKey(post, viewer))
  {
    FirstVoteIsFirstOfFilter(Filter(rows, PostIs(post)), viewer);
    PostThenUser(rows, post, viewer);
  }

  /** After a first like on a post (no vote before), the post's like count
      is one more than before and its dislike count is unchanged. */
  lemma FirstLikeCounts(rows: seq<VoteRow>, post: int, user: UserId, freshId: int)
    requires WellFormed(rows) && VoteOf(rows, VoteKey(post, user)) == None
    ensures var rows' := Vote(rows, 1, post, user, true, true, freshId).0;
      var before := TallyVotes(Filter(rows, PostIs(post)), Some(user));
      var after := TallyVotes(Filter(rows', PostIs(post)), Some(user));
      after.likes == before.likes + 1 && after.dislikes == before.dislikes && after.userVote == Some(1)
  {
    var row := VoteRow(freshId, post, user, 1);
    AtMostOneRow(rows, VoteKey(post, user));
    assert ExistingVote(rows, VoteKey(post, user), true) == None;
    var rows' := rows + [row];
    FilterConcat(rows, [row], PostIs(post));
    assert Filter([row], PostIs(post)) == [row];
    var before := Filter(rows, PostIs(post));
    FilterConcat(before, [row], IsLike());
    FilterConcat(before, [row], IsDislike());
    assert Filter([row], IsLike()) == [row];
    assert Filter([row], IsDislike()) == [];
    ButtonShowsVoteOf(rows', post, user);
    FilterConcat(rows, [row], KeyIs(VoteKey(post, user)));
    assert RowsFor([row], VoteKey(post, user)) == [row];
  }
}
