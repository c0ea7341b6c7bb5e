/** The `profiles` rows that the discover, messaging and chat screens list,
    and the two list derivations they share: the case-insensitive name
    search and the exclusion of the signed-in user. */
module Profiles {
  import opened Common
  import opened Text
  import opened Seqs
  import opened Session

  datatype Profile = Profile(id: UserId, userName: string, avatarUrl: Option<string>)

  /** `u.user_name.toLowerCase().includes(q.toLowerCase())`. */
  predicate NameMatches(q: string, u: Profile) {
    Includes(Lower(u.userName), Lower(q))
  }

  function MatchesQuery(q: string): Profile -> bool {
    (u: Profile) => NameMatches(q, u)
  }

  /** `users.filter(u => u.user_name.toLowerCase().includes(q.toLowerCase()))`:
      exactly the users whose name contains the query, ignoring case, in
      their original order; an empty query keeps every user. */
  function SearchByName(users: seq<Profile>, q: string): (r: seq<Profile>)
    ensures forall i :: 0 <= i < |r| ==> r[i] in users && NameMatches(q, r[i])
    ensures forall i :: 0 <= i < |users| && NameMatches(q, users[i]) ==> users[i] in r
    ensures IsSubsequence(r, users)
    ensures q == "" ==> r == users
  {
    FilterIsSubsequence(users, MatchesQuery(q));
    EmptyQueryKeepsAll(users, q);
    Filter(users, MatchesQuery(q))
  }

  /** The search keeps each matching user as often as it occurs, and no
      value more often than the input holds it. */
  lemma SearchCounts(users: seq<Profile>, q: string)
    ensures var r := SearchByName(users, q);
      && multiset(r) <= multiset(users)
      && forall i :: 0 <= i < |users| && NameMatches(q, users[i]) ==> multiset(r)[users[i]] == multiset(users)[users[i]]
  {
    FilterCounts(users, MatchesQuery(q));
  }

  lemma EmptyQueryKeepsAll(users: seq<Profile>, q: string)
    ensures q == "" ==> Filter(users, MatchesQuery(q)) == users
  {
    if q == "" {
      forall i | 0 <= i < |users| ensures MatchesQuery(q)(users[i]) {
        IncludesEmpty(Lower(users[i].userName));
      }
      FilterKeepsAll(users, MatchesQuery(q));
    }
  }

  /** The search ignores the case of the query. */
  lemma SearchIgnoresQueryCase(users: seq<Profile>, q: string)
    ensures SearchByName(users, Lower(q)) == SearchByName(users, q)
  {
    LowerIdempotent(q);
    FilterCongruent(users, MatchesQuery(Lower(q)), MatchesQuery(q));
  }

  /** Narrowing the list first and searching afterwards is the same as
      searching the whole list and narrowing afterwards. */
  lemma SearchIsFilter(a: seq<Profile>, b: seq<Profile>, q: string)
    ensures SearchByName(a + b, q) == SearchByName(a, q) + SearchByName(b, q)
  {
    FilterConcat(a, b, MatchesQuery(q));
  }

  function IsNotUser(me: Option<UserId>): Profile -> bool {
    (p: Profile) => Some(p.id) != me
  }

  /** `profiles.filter(p => p.id !== user?.id)`: every profile except the
      signed-in user's, in order; without a user nothing is removed, since
      no id equals `undefined`. */
  function ExcludeUser(users: seq<Profile>, me: Option<UserId>): (r: seq<Profile>)
    ensures forall i :: 0 <= i < |r| ==> r[i] in users && Some(r[i].id) != me
    ensures forall i :: 0 <= i < |users| && Some(users[i].id) != me ==> users[i] in r
    ensures IsSubsequence(r, users)
    ensures me.None? ==> r == users
    ensures multiset(r) <= multiset(users)
    ensures forall i :: 0 <= i < |users| && Some(users[i].id) != me ==> multiset(r)[users[i]] == multiset(users)[users[i]]
  {
    FilterIsSubsequence(users, IsNotUser(me));
    FilterCounts(users, IsNotUser(me));
    NoUserKeepsAll(users, me);
    Filter(users, IsNotUser(me))
  }

  lemma NoUserKeepsAll(users: seq<Profile>, me: Option<UserId>)
    ensures me.None? ==> Filter(users, IsNotUser(me)) == users
  {
    if me.None? {
      FilterKeepsAll(users, IsNotUser(me));
    }
  }
}
