/** The user picker at src/pages/UserList.tsx: the store is asked for the
    profiles whose name matches the search text (a case-insensitive
    `ilike` pattern, sent only when there is search text), and the
    signed-in user is removed from the answer. */
module UserSearch {
  import opened Common
  import opened Seqs
  import opened Session
  import opened Profiles

  datatype UserListState = UserListState(users: seq<Profile>, loading: bool, searchQuery: string)

  /** The `ilike` pattern on `user_name`: none for an empty search (every
      profile is asked for), otherwise the search text between two `%`
      wildcards. The text is not escaped, so a `%`, `_` or backslash in it keeps
      its pattern meaning; for text free of those, the pattern matches the
      names that contain the text anywhere. */
  function SearchPattern(q: string): (r: Option<string>)
    ensures r.None? <==> q == ""
    ensures r.Some? ==> |r.value| == |q| + 2 && r.value[0] == '%' && r.value[|r.value| - 1] == '%'
  {
    if q == "" then None else Some("%" + q + "%")
  }

  /** The search text can be read back off the pattern. */
  lemma PatternRoundTrip(q: string)
    ensures q == "" <==> SearchPattern(q).None?
    ensures SearchPattern(q).Some? ==> SearchPattern(q).value[1..|q| + 1] == q
  {
  }

  /** Two different searches send different requests. */
  lemma PatternInjective(q1: string, q2: string)
    requires SearchPattern(q1) == SearchPattern(q2)
    ensures q1 == q2
  {
    if q1 != "" {
      PatternRoundTrip(q1);
      PatternRoundTrip(q2);
    }
  }

  /** The start of `fetchUsers`. */
  function StartFetch(s: UserListState): (r: UserListState)
    ensures r.loading && r.users == s.users && r.searchQuery == s.searchQuery
  {
    s.(loading := true)
  }

  /** The end of `fetchUsers`, given the store's answer: on an error the
      list is kept; otherwise it becomes every returned profile except the
      signed-in user's (none when the store sent `null`), in order. Loading
      ends either way. */
  function FinishFetch(s: UserListState, user: Option<User>, result: Fetch<Option<seq<Profile>>>): (r: UserListState)
    ensures !r.loading && r.searchQuery == s.searchQuery
    ensures result.FetchError? ==> r.users == s.users
    ensures result.Fetched? ==> r.users == ExcludeUser(result.rows.GetOr([]), IdOf(user))
  {
    match result
    case FetchError => s.(loading := false)
    case Fetched(data) => s.(users := ExcludeUser(data.GetOr([]), IdOf(user)), loading := false)
  }

  /** A successful fetch never lists the signed-in user, lists every other
      returned profile, and keeps the store's order. */
  lemma FetchExcludesSelf(s: UserListState, user: User, data: seq<Profile>)
    ensures var users := FinishFetch(StartFetch(s), Some(user), Fetched(Some(data))).users;
      && (forall i :: 0 <= i < |users| ==> users[i].id != user.id)
      && (forall i :: 0 <= i < |data| && data[i].id != user.id ==> data[i] in users)
      && IsSubsequence(users, data)
  {
  }

  /** Text in which `ilike` sees no wildcard or escape character. */
  predicate Literal(q: string) {
    forall i :: 0 <= i < |q| ==> q[i] != '%' && q[i] != '_' && q[i] != '\\'
  }

  /** The store's answer to `SearchPattern(q)` over the profiles `all`, for
      literal text: the profiles whose name contains `q` ignoring case, in
      the store's order (every profile when `q` is empty). */
  function IlikeAnswer(all: seq<Profile>, q: string): seq<Profile>
    requires Literal(q)
  {
    SearchByName(all, q)
  }

  /** For literal search text, the picker lists exactly the profiles other
      than the signed-in user's whose name contains the text, and in the
      same order as the discover and messaging pages' client-side filter
      over everyone but that user. */
  lemma SearchListsMatchingOthers(s: UserListState, user: Option<User>, all: seq<Profile>)
    requires Literal(s.searchQuery)
    ensures var users := FinishFetch(StartFetch(s), user, Fetched(Some(IlikeAnswer(all, s.searchQuery)))).users;
      && users == SearchByName(ExcludeUser(all, IdOf(user)), s.searchQuery)
      && forall u :: u in users <==> u in all && Some(u.id) != IdOf(user) && NameMatches(s.searchQuery, u)
  {
    FilterCommute(all, MatchesQuery(s.searchQuery), IsNotUser(IdOf(user)));
  }
}
