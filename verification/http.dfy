/** HTTP status classes as httpx's `raise_for_status` sees them. */
module Http {

  /** httpx treats exactly the 2xx codes as success; every other code,
      redirects included, makes `raise_for_status` raise `HTTPStatusError`. */
  predicate IsSuccess(status: int) {
    200 <= status <= 299
  }
}
