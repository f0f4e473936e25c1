/**
 * The scored candidate ("near miss") and the ascending comparator that ranks
 * near misses closest first.
 */
module NearMisses {
  import opened Matching

  /** What a request was compared against: a whole stub mapping, or a bare pattern. */
  datatype Candidate =
    | Mapping(stubMapping: StubMapping)
    | Pattern(requestPattern: RequestPattern)

  /** A request, the candidate it was compared with, and how well they matched. */
  datatype NearMiss = NearMiss(request: LoggedRequest, candidate: Candidate, matchResult: MatchResult)

  /** The key the comparator orders by. */
  function Distance(n: NearMiss): nat {
    n.matchResult.distance
  }

  /**
   * NEAR_MISS_ASCENDING_COMPARATOR, which delegates to `NearMiss.compareTo`:
   * negative when `a` is closer than `b`, zero on equal distance, positive
   * when `a` is farther.
   */
  function Compare(a: NearMiss, b: NearMiss): int {
    if Distance(a) < Distance(b) then -1
    else if Distance(a) > Distance(b) then 1
    else 0
  }

  /**
   * The comparator meets the contract of a Java `Comparator`: it orders by
   * distance, is antisymmetric in sign, transitive, and treats elements that
   * compare equal alike.
   */
  lemma ComparatorContract(x: NearMiss, y: NearMiss, z: NearMiss)
    ensures Compare(x, y) <= 0 <==> Distance(x) <= Distance(y)
    ensures Compare(x, y) == 0 <==> Distance(x) == Distance(y)
    ensures Compare(x, y) == -Compare(y, x)
    ensures Compare(x, y) <= 0 && Compare(y, z) <= 0 ==> Compare(x, z) <= 0
    ensures Compare(x, y) == 0 ==> Compare(x, z) == Compare(y, z)
  {
  }
}
