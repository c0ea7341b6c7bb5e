/** Shared vocabulary of the client: optional values, the outcome of a call
    to the remote store, and the query-cache keys that mutations invalidate.
    The remote store itself is not modelled; whether one of its calls
    succeeded is always an input to the transitions that use it. */
module Common {

  /** A JavaScript value that may be `null` or `undefined`. */
  datatype Option<+T> = None | Some(value: T) {

    /** The value, or `default` when there is none. */
    function GetOr(default: T): T {
      match this
      case Some(v) => v
      case None => default
    }
  }

  /** Why a mutation or a read was abandoned: an error the client raises
      itself (with its user-visible message), a JavaScript runtime error
      such as reading a field of `null`, or an error reported by the remote
      store, whose message is the store's and is not modelled. */
  datatype Failure = ClientError(message: string) | RuntimeError | StoreError

  /** What a mutation produced: its value, or the failure it threw. */
  datatype Outcome<+T> = Ok(value: T) | Err(failure: Failure)

  /** The answer to a read: the rows in the order the store returned them,
      or an error. */
  datatype Fetch<+T> = Fetched(rows: T) | FetchError

  /** The query-cache keys that the modelled mutations invalidate.
      `user?.id` may be undefined, hence the options. */
  datatype QueryKey =
    | VotesKey(post: int)
    | MessagesKey(user: Option<string>, other: Option<string>)
    | FollowedTweetsKey(user: Option<string>)
}
