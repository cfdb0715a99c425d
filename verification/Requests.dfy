/** Requests to the API server. */
module Requests {
  /** How a request ends: it may return an error, and take effect all the same. */
  datatype Request = Request(fails: bool, applied: bool)

  predicate Effective(r: Request) {
    !r.fails || r.applied
  }
}
