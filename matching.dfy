/**
 * The collaborators the near-miss calculator consumes but does not implement:
 * logged requests, request patterns, stub mappings, served stubs and the
 * result of matching a pattern against a request. Their internals (URL,
 * header and body matching; storage; journaling) are not part of this model,
 * so the entities are opaque types and the matching function is a parameter.
 */
module Matching {

  /** A concrete request the server received. */
  type LoggedRequest(==, !new)

  /** A set of matching criteria (method, URL, headers, body, ...). */
  type RequestPattern(==, !new)

  /** The canned response attached to a stub mapping or a served stub. */
  type ResponseDefinition(==, !new)

  /**
   * The outcome of matching a request pattern against a request. The real
   * distance is a floating-point number; here it is a natural number, where
   * 0 is an exact match and larger values fit worse.
   */
  datatype MatchResult = MatchResult(isExactMatch: bool, distance: nat)

  /** A registered stub: the pattern it answers and the response it gives. */
  datatype StubMapping = StubMapping(request: RequestPattern, response: ResponseDefinition)

  /** A journal entry: a request that was served, and the response it got. */
  datatype ServedStub = ServedStub(request: LoggedRequest, response: ResponseDefinition)

  /**
   * `RequestPattern.match(request)`: total and free of side effects, so it
   * is a plain (total) function value supplied by the caller.
   */
  type Matcher = (RequestPattern, LoggedRequest) -> MatchResult
}
