/** HTTP replies as abstract input data. Every endpoint of the platform answers
    with a JSON object whose string field `returnCode` is `"200"` on success. */
module Replies {

  /** The outcome of `response.json()`: `Malformed` when it raises. A missing
      or non-string `returnCode` is some string other than `"200"`. */
  datatype Body<T> = Malformed | Json(returnCode: string, data: T)

  /** A reply, or the exception `requests` raised instead (connection
      failure, timeout). */
  datatype Reply<T> = TransportError | Http(status: int, body: Body<T>)

  /** The success sentinel every endpoint uses. */
  const Sentinel: string := "200"

  /** HTTP 200 with a parseable body whose `returnCode` is the sentinel. */
  predicate Accepted<T>(r: Reply<T>) {
    r.Http? && r.status == 200 && r.body.Json? && r.body.returnCode == Sentinel
  }
}
