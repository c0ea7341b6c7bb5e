/** The two tweet composers: the page at src/pages/CreateTweet.tsx and the
    component at src/components/CreateTweet.tsx. Both refuse a blank tweet
    or a missing user and sign the tweet with the user's name or
    "Anonymous"; the page stores the trimmed text, asks for the stored row
    back and refreshes the followed-tweets feed, the component stores the
    text as typed and refreshes nothing. */
module Tweets {
  import opened Common
  import opened Text
  import opened Session

  /** A row of `tweets`; `id` is assigned by the store. */
  datatype TweetRow = TweetRow(id: int, content: string, userId: UserId, author: string)

  /** The arguments handed to the mutation. */
  datatype Draft = Draft(content: string, userId: UserId, author: string)

  /** How the store answered an insert that asks for the stored row back
      (`insert(...).select().single()`): the row was stored and returned;
      the insert was refused; or the row was stored but not returned, with
      or without an error. */
  datatype Reply = Returned | Refused | StoredUnseen(withError: bool)

  /** The state of the composer and what one submit did. `outcome` is
      `None` when the guard stopped the submit. */
  datatype TweetStep = TweetStep(table: seq<TweetRow>, content: string, invalidated: seq<QueryKey>, outcome: Option<Outcome<()>>)

  /** The tweet's signature: the metadata user name, or "Anonymous" when it
      is missing or empty. A tweet is never signed with an empty name. */
  function AuthorName(user: User): (r: string)
    ensures r != ""
    ensures Truthy(user.meta.userName) ==> r == user.meta.userName.value
    ensures !Truthy(user.meta.userName) ==> r == "Anonymous"
  {
    Or(user.meta.userName, "Anonymous")
  }

  /** No stored tweet is blank. */
  predicate NoBlankTweets(table: seq<TweetRow>) {
    forall i :: 0 <= i < |table| ==> !IsBlank(table[i].content)
  }

  /** The page's `handleSubmit`: nothing without a signed-in user id or
      with blank content; otherwise the trimmed content, the user's id and
      signature. */
  function PageDraft(content: string, user: Option<User>): (r: Option<Draft>)
    ensures r.None? <==> SignedInId(user).None? || IsBlank(content)
    ensures r.Some? ==> r.value == Draft(Trim(content), user.value.id, AuthorName(user.value))
  {
    if SignedInId(user).None? || Trim(content) == [] then None
    else Some(Draft(Trim(content), user.value.id, AuthorName(user.value)))
  }

  /** The component's `handleSubmit`: the same guard, but the content is
      passed as typed. */
  function ComponentDraft(content: string, user: Option<User>): (r: Option<Draft>)
    ensures r.None? <==> SignedInId(user).None? || IsBlank(content)
    ensures r.Some? ==> r.value == Draft(content, user.value.id, AuthorName(user.value))
  {
    if SignedInId(user).None? || Trim(content) == [] then None
    else Some(Draft(content, user.value.id, AuthorName(user.value)))
  }

  /** The page's `createTweet`. The insert stores the row unless it is
      refused; the call throws unless the row also came back, with the
      store's message when there was an error and "Tweet creation failed"
      when there was none. */
  function PageInsert(table: seq<TweetRow>, d: Draft, reply: Reply, newId: int): (r: (seq<TweetRow>, Outcome<()>))
    ensures reply.Refused? ==> r == (table, Err(StoreError))
    ensures !reply.Refused? ==> r.0 == table + [TweetRow(newId, d.content, d.userId, d.author)]
    ensures r.1.Ok? <==> reply.Returned?
    ensures reply == StoredUnseen(false) ==> r.1 == Err(ClientError("Tweet creation failed"))
  {
    var row := TweetRow(newId, d.content, d.userId, d.author);
    match reply
    case Refused => (table, Err(StoreError))
    case Returned => (table + [row], Ok(()))
    case StoredUnseen(withError) =>
      (table + [row], if withError then Err(StoreError) else Err(ClientError("Tweet creation failed")))
  }

  /** The component's `createTweet`: the insert either stores the row or
      throws. */
  function ComponentInsert(table: seq<TweetRow>, d: Draft, insertOk: bool, newId: int): (r: (seq<TweetRow>, Outcome<()>))
    ensures !insertOk ==> r == (table, Err(StoreError))
    ensures insertOk ==> r == (table + [TweetRow(newId, d.content, d.userId, d.author)], Ok(()))
  {
    if insertOk then (table + [TweetRow(newId, d.content, d.userId, d.author)], Ok(())) else (table, Err(StoreError))
  }

  /** One submit of the page's form. On success the text box is cleared
      and the feed of `["followed-tweets", user?.id]` invalidated; on
      failure the text is kept. */
  function PageSubmit(table: seq<TweetRow>, content: string, user: Option<User>, reply: Reply, newId: int): (r: TweetStep)
    ensures r.outcome.None? <==> PageDraft(content, user).None?
    ensures r.outcome.None? ==> r == TweetStep(table, content, [], None)
    ensures r.outcome == Some(Ok(())) ==> r.content == "" && r.invalidated == [FollowedTweetsKey(IdOf(user))]
    ensures r.outcome.Some? && r.outcome.value.Err? ==> r.content == content && r.invalidated == []
    ensures r.outcome.Some? && !reply.Refused? ==>
      r.table == table + [TweetRow(newId, Trim(content), user.value.id, AuthorName(user.value))]
    ensures r.outcome.None? || reply.Refused? ==> r.table == table
  {
    match PageDraft(content, user)
    case None => TweetStep(table, content, [], None)
    case Some(d) =>
      var (table', outcome) := PageInsert(table, d, reply, newId);
      if outcome.Ok? then TweetStep(table', "", [FollowedTweetsKey(IdOf(user))], Some(outcome))
      else TweetStep(table', content, [], Some(outcome))
  }

  /** One submit of the component's form. On success the text box is
      cleared; no query is invalidated. */
  function ComponentSubmit(table: seq<TweetRow>, content: string, user: Option<User>, insertOk: bool, newId: int): (r: TweetStep)
    ensures r.outcome.None? <==> ComponentDraft(content, user).None?
    ensures r.outcome.None? ==> r == TweetStep(table, content, [], None)
    ensures r.invalidated == []
    ensures r.outcome == Some(Ok(())) ==> r.content == "" && r.table == table + [TweetRow(newId, content, user.value.id, AuthorName(user.value))]
    ensures r.outcome.Some? && r.outcome.value.Err? ==> r.content == content && r.table == table
  {
    match ComponentDraft(content, user)
    case None => TweetStep(table, content, [], None)
    case Some(d) =>
      var (table', outcome) := ComponentInsert(table, d, insertOk, newId);
      TweetStep(table', if outcome.Ok? then "" else content, [], Some(outcome))
  }

  /** Neither composer ever stores a blank tweet. */
  lemma SubmitsKeepNoBlankTweets(table: seq<TweetRow>, content: string, user: Option<User>, reply: Reply, insertOk: bool, newId: int)
    requires NoBlankTweets(table)
    ensures NoBlankTweets(PageSubmit(table, content, user, reply, newId).table)
    ensures NoBlankTweets(ComponentSubmit(table, content, user, insertOk, newId).table)
  {
    var page := PageSubmit(table, content, user, reply, newId);
    if page.table != table {
      assert page.outcome.Some?;
      assert !IsBlank(Trim(content)) by { TrimNotBlank(content); }
    }
  }

  /** A non-blank string trims to a non-blank string. */
  lemma TrimNotBlank(s: string)
    requires !IsBlank(s)
    ensures !IsBlank(Trim(s))
  {
    var t := Trim(s);
    assert !IsSpace(t[0]);
  }

  /** The two composers accept exactly the same submissions, and store the
      same row exactly when the text has no surrounding whitespace. */
  lemma ComposersAgreeOnTrimmedText(table: seq<TweetRow>, content: string, user: Option<User>, newId: int)
    ensures PageSubmit(table, content, user, Returned, newId).outcome.None? <==>
            ComponentSubmit(table, content, user, true, newId).outcome.None?
    ensures PageDraft(content, user).Some? ==>
      (PageSubmit(table, content, user, Returned, newId).table == ComponentSubmit(table, content, user, true, newId).table
       <==> Trim(content) == content)
  {
    var page := PageSubmit(table, content, user, Returned, newId).table;
    var comp := ComponentSubmit(table, content, user, true, newId).table;
    if PageDraft(content, user).Some? && page == comp {
      assert page[|table|] == comp[|table|];
    }
  }

  /** The page can report a failure for a tweet it did store: a retry then
      stores the same text twice. */
  lemma PageFailureMayHaveStored(table: seq<TweetRow>, content: string, user: User, id1: int, id2: int)
    requires user.id != "" && !IsBlank(content)
    ensures var first := PageSubmit(table, content, Some(user), StoredUnseen(false), id1);
      && first.outcome == Some(Err(ClientError("Tweet creation failed")))
      && first.content == content
      && var second := PageSubmit(first.table, first.content, Some(user), Returned, id2);
      && second.outcome == Some(Ok(()))
      && second.table[|table|].content == second.table[|table| + 1].content == Trim(content)
  {
  }
}
