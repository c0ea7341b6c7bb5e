/** The signed-in user as the identity provider hands it to every screen,
    and JavaScript's truthiness tests on its optional fields. */
module Session {
  import opened Common

  /** User ids are strings; the empty id is falsy. */
  type UserId = string

  /** `user.user_metadata`: the fields the client reads. */
  datatype Metadata = Metadata(userName: Option<string>, avatarUrl: Option<string>)

  datatype User = User(id: UserId, email: Option<string>, meta: Metadata)

  /** A possibly-missing string is truthy when it is present and non-empty. */
  predicate Truthy(s: Option<string>) {
    s.Some? && s.value != ""
  }

  /** `a || fallback` for a possibly-missing string. */
  function Or(a: Option<string>, fallback: string): (r: string)
    ensures Truthy(a) ==> r == a.value
    ensures !Truthy(a) ==> r == fallback
  {
    if Truthy(a) then a.value else fallback
  }

  /** `user?.id` read as a value: undefined without a user. */
  function IdOf(user: Option<User>): (r: Option<UserId>)
    ensures r.Some? <==> user.Some?
    ensures r.Some? ==> r.value == user.value.id
  {
    if user.Some? then Some(user.value.id) else None
  }

  /** `user?.id` read as a condition: the id, when there is a user and the
      id is not empty. */
  function SignedInId(user: Option<User>): (r: Option<UserId>)
    ensures r.Some? <==> user.Some? && user.value.id != ""
    ensures r.Some? ==> r.value == user.value.id
  {
    if user.Some? && user.value.id != "" then Some(user.value.id) else None
  }
}
