/** Shared vocabulary of the handlers: identifiers, optional request fields and replies. */
module Base {

  /** Document identifier (a MongoDB ObjectId); the stores hand them out in increasing order. */
  type Id = nat

  datatype Option<+T> = None | Some(value: T)

  /** JavaScript truthiness of an optional string field of a request body:
      an absent field, `null` and the empty string are all falsy. */
  predicate Given(field: Option<string>) {
    field.Some? && field.value != ""
  }

  /** What a handler sends back: the HTTP status, the `message` member of the
      JSON body when it has one, and the data sent beside (or instead of) it. */
  datatype Reply<+T> = Reply(status: nat, message: Option<string>, data: Option<T>)

  /** The reply body of every handler's catch-all. */
  const ServerError := "Server error"

  /** A reply whose body is `{ message }` alone. */
  function Plain<T>(status: nat, message: string): Reply<T> {
    Reply(status, Some(message), None)
  }
}
