/**
 * The server's error conditions (the `Errors` enum), plus the two kinds of
 * failure the model needs from collaborators it does not model: a storage
 * statement that fails, and a feed that could not be fetched or parsed.
 */
module Errors {

  datatype Error =
    | NonExistUser(email: string)
    | InvalidToken(token: string)
    | WrongPassword
    | SubscriptionNotFound
      /** A failed storage statement (an `sqlx` error in the source). */
    | Storage(message: string)
      /** A feed that could not be fetched or parsed (the feed service's error). */
    | FeedUnavailable(url: string)
}
