/** Outcome types shared by the route handlers. */
module Replies {

  /** A value that may be absent: a missing or `None` JSON field, a failed lookup. */
  datatype Option<+T> = None | Some(value: T)

  /** What a route handler answers: the success payload, or one of the two
      error envelopes the application registers (404 and 422). */
  datatype Reply<+T> = Ok(body: T) | NotFound | Unprocessable
}
