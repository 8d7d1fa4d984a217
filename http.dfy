/** What the route handlers see of a request and what they answer, without
    the HTTP plumbing. */
module Http {
  import opened Wrappers
  import opened Numbers

  /** The request headers the handlers read, each `None` when absent. */
  datatype Request = Request(
    authorization: Option<string>,
    cookie: Option<string>,
    forwardedFor: Option<string>,
    realIp: Option<string>)

  /** A JSON answer with its status, or an error message with its status
      and, for 429, the `Retry-After` seconds. */
  datatype Response<T> =
    | Json(status: int, value: T)
    | Fail(status: int, error: string, retryAfter: Option<int>)

  /** `Math.max(1, Math.ceil((resetAt - now) / 1000))`: the whole seconds
      until the window ends, at least one. Waiting that long always
      reaches the end of the window, and a second less would not (unless
      the floor of one second applies). */
  function RetryAfterSeconds(resetAt: int, now: int): (s: int)
    ensures s >= 1
    ensures now + 1000 * s >= resetAt
    ensures s == 1 || now + 1000 * (s - 1) < resetAt
  {
    Max(1, CeilDiv(resetAt - now, 1000))
  }

  function TooMany<T>(message: string, resetAt: int, now: int): (r: Response<T>)
    ensures r.status == 429 && r.Fail? && r.error == message
    ensures r.retryAfter == Some(RetryAfterSeconds(resetAt, now))
  {
    Fail(429, message, Some(RetryAfterSeconds(resetAt, now)))
  }

  function Error<T>(status: int, message: string): Response<T> {
    Fail(status, message, None)
  }
}
