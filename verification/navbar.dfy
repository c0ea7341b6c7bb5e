/** The navigation bar's side effect and greeting (src/pages/NavBar.tsx,
    lines 26-65): when a user signs in, their row in `profiles` is created
    if it is missing, named after their metadata, their e-mail address or
    "user"; and the bar greets them by metadata name or e-mail. */
module NavBar {
  import opened Common
  import opened Text
  import opened Session

  /** A row of `profiles`, keyed by the user's id. */
  datatype ProfileRow = ProfileRow(id: UserId, userName: string, avatarUrl: string, createdAt: string)

  /** The `profiles` table as a map from id to row. */
  type ProfileTable = map<UserId, ProfileRow>

  /** The name a new profile gets: the metadata user name; failing that,
      the part of the e-mail address before the first '@'; failing that,
      "user". Each fallback is taken when the previous value is missing or
      empty, so the name is never empty. */
  function NewProfileName(user: User): (r: string)
    ensures r != ""
    ensures Truthy(user.meta.userName) ==> r == user.meta.userName.value
    ensures !Truthy(user.meta.userName) && user.email.Some? && BeforeFirst(user.email.value, '@') != [] ==>
      r == BeforeFirst(user.email.value, '@')
    ensures !Truthy(user.meta.userName) && r != "user" ==> '@' !in r && user.email.Some? && r <= user.email.value
  {
    var local := if user.email.Some? then Some(BeforeFirst(user.email.value, '@')) else None;
    Or(user.meta.userName, Or(local, "user"))
  }

  /** The row inserted for a user who has none; `now` is the ISO time of
      the insert. */
  function NewProfile(user: User, now: string): (r: ProfileRow)
    ensures r.id == user.id && r.userName == NewProfileName(user) && r.createdAt == now
    ensures r.avatarUrl == Or(user.meta.avatarUrl, "")
  {
    ProfileRow(user.id, NewProfileName(user), Or(user.meta.avatarUrl, ""), now)
  }

  /** `createProfileIfMissing`. Without a user nothing happens. The lookup
      by id (`lookupOk`) decides: a failed lookup is logged and ends the
      effect, a found row ends it, and a missing row is inserted
      (`insertOk`; a failed insert is only logged). Errors never reach the
      user, so the result is the table alone. */
  function CreateProfileIfMissing(profiles: ProfileTable, user: Option<User>, lookupOk: bool, insertOk: bool, now: string): (r: ProfileTable)
    ensures forall id :: id in profiles ==> id in r && r[id] == profiles[id]
    ensures forall id :: id in r && id !in profiles ==> user.Some? && id == user.value.id
    ensures user.Some? && user.value.id !in profiles ==>
      (user.value.id in r <==> lookupOk && insertOk)
    ensures user.Some? && user.value.id in r && user.value.id !in profiles ==>
      r[user.value.id] == NewProfile(user.value, now)
  {
    if user.None? || !lookupOk then profiles
    else if user.value.id in profiles then profiles
    else if !insertOk then profiles
    else profiles[user.value.id := NewProfile(user.value, now)]
  }

  /** Once a user has a profile, the effect leaves the table alone,
      whatever its calls return: a profile is never overwritten. */
  lemma ExistingProfileKept(profiles: ProfileTable, user: User, lookupOk: bool, insertOk: bool, now: string)
    requires user.id in profiles
    ensures CreateProfileIfMissing(profiles, Some(user), lookupOk, insertOk, now) == profiles
  {
  }

  /** Running the effect again (the effect runs each time `user` changes)
      after it succeeded changes nothing. */
  lemma CreateProfileIdempotent(profiles: ProfileTable, user: User, now: string,
                                lookupOk: bool, insertOk: bool, now2: string)
    ensures var once := CreateProfileIfMissing(profiles, Some(user), true, true, now);
      && user.id in once
      && CreateProfileIfMissing(once, Some(user), lookupOk, insertOk, now2) == once
  {
    var once := CreateProfileIfMissing(profiles, Some(user), true, true, now);
    ExistingProfileKept(once, user, lookupOk, insertOk, now2);
  }

  /** `user?.user_metadata.user_name || user?.email`: nothing without a
      user, the metadata name when it is non-empty, otherwise the e-mail
      address as it is (possibly missing or empty). */
  function DisplayName(user: Option<User>): (r: Option<string>)
    ensures user.None? ==> r.None?
    ensures user.Some? && Truthy(user.value.meta.userName) ==> r == user.value.meta.userName
    ensures user.Some? && !Truthy(user.value.meta.userName) ==> r == user.value.email
  {
    if user.None? then None
    else if Truthy(user.value.meta.userName) then user.value.meta.userName
    else user.value.email
  }

  /** The greeting and the new profile use the same name when the user has
      a metadata name or an e-mail address without '@'. */
  lemma GreetingMatchesProfileName(user: User)
    requires Truthy(user.meta.userName) || (Truthy(user.email) && '@' !in user.email.value)
    ensures DisplayName(Some(user)) == Some(NewProfileName(user))
  {
    if !Truthy(user.meta.userName) {
      var e := user.email.value;
      assert |BeforeFirst(e, '@')| == |e|;
      assert e[..|e|] == e;
    }
  }

  /** Without a metadata name, an e-mail address with '@' is greeted in
      full while the profile is named after the part before the first '@'
      (a proper prefix of the address), or "user" when that part is empty:
      the two names then always differ. */
  lemma GreetingDiffersFromProfileName(user: User)
    requires !Truthy(user.meta.userName) && Truthy(user.email) && '@' in user.email.value
    ensures DisplayName(Some(user)) == user.email
    ensures var e := user.email.value;
      && (BeforeFirst(e, '@') != [] ==> NewProfileName(user) == BeforeFirst(e, '@') && |NewProfileName(user)| < |e|)
      && (BeforeFirst(e, '@') == [] ==> NewProfileName(user) == "user")
      && NewProfileName(user) != e
  {
    var e := user.email.value;
    assert '@' !in "user";
  }
}
