/**
 * The near-miss calculator: ranks stub mappings against an unmatched
 * request, or served requests against an unmatched request pattern, and
 * keeps the closest few.
 *
 * The calculator's two collaborators, the stub registry and the request
 * journal, are read once per call; their snapshots (`getAll()` and
 * `getAllServedStubs()`) are the sequence parameters here.
 */
module NearMissCalculator {
  import opened Matching
  import opened NearMisses
  import opened SortedList

  /** NEAR_MISS_COUNT: how many near misses a diagnosis reports at most. */
  const NearMissCount: nat := 3

  /** `Math.min`. */
  function Min(a: nat, b: nat): nat {
    if a <= b then a else b
  }

  /**
   * sortAndTruncate: the sorted copy of `nearMisses`, cut to the first
   * `min(NearMissCount, originalSize)` elements. `List.subList` demands that
   * this length not exceed the list's size.
   */
  function SortAndTruncate(nearMisses: seq<NearMiss>, originalSize: nat): (r: seq<NearMiss>)
    requires Min(NearMissCount, originalSize) <= |nearMisses|
    ensures |r| == Min(NearMissCount, originalSize)
    ensures Sorted(r)
    ensures multiset(r) <= multiset(nearMisses)
    ensures forall x | x in multiset(nearMisses) - multiset(r) ::
              forall i | 0 <= i < |r| :: Compare(r[i], x) <= 0
    ensures forall d: nat :: Tied(r, d) <= Tied(nearMisses, d)
  {
    var k := Min(NearMissCount, originalSize);
    SortSorts(nearMisses);
    SortedPrefixIsSubset(nearMisses, k);
    SortedPrefixIsNearest(nearMisses, k);
    SortedPrefixKeepsTies(nearMisses, k);
    Sort(nearMisses)[..k]
  }

  /**
   * Whatever stable sort of the candidates one starts from, the result is its
   * first `min(NearMissCount, originalSize)` elements.
   */
  lemma TruncatesAnyStableSort(nearMisses: seq<NearMiss>, originalSize: nat, t: seq<NearMiss>)
    requires Min(NearMissCount, originalSize) <= |nearMisses|
    requires IsStableSortOf(t, nearMisses)
    ensures Min(NearMissCount, originalSize) <= |t|
    ensures SortAndTruncate(nearMisses, originalSize) == t[..Min(NearMissCount, originalSize)]
  {
    StableSortIsUnique(nearMisses, t);
  }

  /** The first `k` sorted elements are a sub-multiset of the input. */
  lemma SortedPrefixIsSubset(s: seq<NearMiss>, k: nat)
    requires k <= |s|
    ensures multiset(Sort(s)[..k]) <= multiset(s)
  {
    var sorted := Sort(s);
    SortPermutes(s);
    assert sorted == sorted[..k] + sorted[k..];
  }

  /** What the first `k` sorted elements leave out of the input lies after them. */
  lemma LeftOutLiesBeyond(s: seq<NearMiss>, k: nat)
    requires k <= |s|
    ensures forall x | x in multiset(s) - multiset(Sort(s)[..k]) :: x in Sort(s)[k..]
  {
    var sorted := Sort(s);
    SortPermutes(s);
    assert sorted == sorted[..k] + sorted[k..];
    assert multiset(s) - multiset(sorted[..k]) == multiset(sorted[k..]);
  }

  /** In an ascending list, nothing after position `k` is closer than what comes before it. */
  lemma SuffixIsNotCloser(t: seq<NearMiss>, k: nat, x: NearMiss)
    requires Sorted(t) && k <= |t| && x in t[k..]
    ensures forall i | 0 <= i < k :: Compare(t[i], x) <= 0
  {
    var j :| 0 <= j < |t| - k && t[k..][j] == x;
    assert t[k + j] == x;
  }

  /** None of the first `k` sorted elements is farther than any element left out. */
  lemma SortedPrefixIsNearest(s: seq<NearMiss>, k: nat)
    requires k <= |s|
    ensures forall x | x in multiset(s) - multiset(Sort(s)[..k]) ::
              forall i | 0 <= i < k :: Compare(Sort(s)[i], x) <= 0
  {
    LeftOutLiesBeyond(s, k);
    SortSorts(s);
    forall x | x in multiset(s) - multiset(Sort(s)[..k])
      ensures forall i | 0 <= i < k :: Compare(Sort(s)[i], x) <= 0
    {
      SuffixIsNotCloser(Sort(s), k, x);
    }
  }

  /** Near misses at one distance keep their input order in the first `k` sorted elements. */
  lemma SortedPrefixKeepsTies(s: seq<NearMiss>, k: nat)
    requires k <= |s|
    ensures forall d: nat :: Tied(Sort(s)[..k], d) <= Tied(s, d)
  {
    var sorted := Sort(s);
    assert sorted == sorted[..k] + sorted[k..];
    forall d: nat ensures Tied(sorted[..k], d) <= Tied(s, d) {
      var kept, dropped := Tied(sorted[..k], d), Tied(sorted[k..], d);
      TiedAppend(sorted[..k], sorted[k..], d);
      SortIsStable(s, d);
      assert Tied(s, d) == kept + dropped;
      assert kept <= kept + dropped;
    }
  }

  /**
   * The transform in `findNearestTo(request)`: one near miss per stub
   * mapping, in registry order, holding the request, the mapping, and the
   * result of matching the mapping's request pattern against the request.
   */
  function ScoreMappings(request: LoggedRequest, mappings: seq<StubMapping>, matcher: Matcher): (r: seq<NearMiss>)
    ensures |r| == |mappings|
    ensures forall j | 0 <= j < |r| ::
              r[j] == NearMiss(request, Mapping(mappings[j]), matcher(mappings[j].request, request))
  {
    if mappings == [] then []
    else
      var m := mappings[0];
      [NearMiss(request, Mapping(m), matcher(m.request, request))] + ScoreMappings(request, mappings[1..], matcher)
  }

  /**
   * The transform in `findNearestTo(requestPattern)`: one near miss per
   * served stub, in journal order, holding the served request, the pattern,
   * and the result of matching the pattern against the served request.
   */
  function ScoreServedStubs(requestPattern: RequestPattern, servedStubs: seq<ServedStub>, matcher: Matcher): (r: seq<NearMiss>)
    ensures |r| == |servedStubs|
    ensures forall j | 0 <= j < |r| ::
              r[j] == NearMiss(servedStubs[j].request, Pattern(requestPattern), matcher(requestPattern, servedStubs[j].request))
  {
    if servedStubs == [] then []
    else
      var served := servedStubs[0].request;
      [NearMiss(served, Pattern(requestPattern), matcher(requestPattern, served))]
        + ScoreServedStubs(requestPattern, servedStubs[1..], matcher)
  }

  /**
   * findNearestTo(request): the stub mappings that came closest to matching
   * an unmatched request, closest first, at most NearMissCount of them.
   */
  function FindNearestToRequest(request: LoggedRequest, allMappings: seq<StubMapping>, matcher: Matcher): (r: seq<NearMiss>)
    ensures |r| == Min(NearMissCount, |allMappings|)
    ensures Sorted(r)
    ensures forall i | 0 <= i < |r| :: exists j | 0 <= j < |allMappings| ::
              r[i] == NearMiss(request, Mapping(allMappings[j]), matcher(allMappings[j].request, request))
    ensures multiset(r) <= multiset(ScoreMappings(request, allMappings, matcher))
    ensures forall x | x in multiset(ScoreMappings(request, allMappings, matcher)) - multiset(r) ::
              forall i | 0 <= i < |r| :: Compare(r[i], x) <= 0
    ensures forall d: nat :: Tied(r, d) <= Tied(ScoreMappings(request, allMappings, matcher), d)
  {
    var scored := ScoreMappings(request, allMappings, matcher);
    var r := SortAndTruncate(scored, |allMappings|);
    forall i | 0 <= i < |r|
      ensures exists j | 0 <= j < |allMappings| ::
                r[i] == NearMiss(request, Mapping(allMappings[j]), matcher(allMappings[j].request, request))
    {
      assert r[i] in multiset(scored);
      var j :| 0 <= j < |scored| && scored[j] == r[i];
    }
    r
  }

  /**
   * findNearestTo(requestPattern): the served requests that came closest to
   * matching an unmatched pattern, closest first, at most NearMissCount.
   */
  function FindNearestToPattern(requestPattern: RequestPattern, servedStubs: seq<ServedStub>, matcher: Matcher): (r: seq<NearMiss>)
    ensures |r| == Min(NearMissCount, |servedStubs|)
    ensures Sorted(r)
    ensures forall i | 0 <= i < |r| :: exists j | 0 <= j < |servedStubs| ::
              r[i] == NearMiss(servedStubs[j].request, Pattern(requestPattern), matcher(requestPattern, servedStubs[j].request))
    ensures multiset(r) <= multiset(ScoreServedStubs(requestPattern, servedStubs, matcher))
    ensures forall x | x in multiset(ScoreServedStubs(requestPattern, servedStubs, matcher)) - multiset(r) ::
              forall i | 0 <= i < |r| :: Compare(r[i], x) <= 0
    ensures forall d: nat :: Tied(r, d) <= Tied(ScoreServedStubs(requestPattern, servedStubs, matcher), d)
  {
    var scored := ScoreServedStubs(requestPattern, servedStubs, matcher);
    var r := SortAndTruncate(scored, |servedStubs|);
    forall i | 0 <= i < |r|
      ensures exists j | 0 <= j < |servedStubs| ::
                r[i] == NearMiss(servedStubs[j].request, Pattern(requestPattern), matcher(requestPattern, servedStubs[j].request))
    {
      assert r[i] in multiset(scored);
      var j :| 0 <= j < |scored| && scored[j] == r[i];
    }
    r
  }

  /**
   * The first near miss reported is at least as close as every candidate,
   * so an exact match, when there is one, is reported first.
   */
  lemma NearestComesFirst(nearMisses: seq<NearMiss>, originalSize: nat)
    requires 0 < originalSize && Min(NearMissCount, originalSize) <= |nearMisses|
    ensures forall x | x in nearMisses :: Compare(SortAndTruncate(nearMisses, originalSize)[0], x) <= 0
    ensures (exists x | x in nearMisses :: Distance(x) == 0) ==>
              Distance(SortAndTruncate(nearMisses, originalSize)[0]) == 0
  {
    var r := SortAndTruncate(nearMisses, originalSize);
    forall x | x in nearMisses ensures Compare(r[0], x) <= 0 {
      if x in multiset(r) {
        var j :| 0 <= j < |r| && r[j] == x;
        assert j == 0 || Compare(r[0], r[j]) <= 0;
      } else {
        assert x in multiset(nearMisses) - multiset(r);
      }
    }
  }

  /**
   * The ranking depends on the candidates' order only among candidates at
   * equal distance: inputs that agree on the order of every tie give the
   * same result.
   */
  lemma RankingDependsOnlyOnTies(s1: seq<NearMiss>, s2: seq<NearMiss>)
    requires forall d: nat :: Tied(s1, d) == Tied(s2, d)
    ensures SortAndTruncate(s1, |s1|) == SortAndTruncate(s2, |s2|)
  {
    forall d: nat ensures Tied(Sort(s2), d) == Tied(s1, d) {
      SortIsStable(s2, d);
    }
    SortSorts(s2);
    StableSortIsUnique(s1, Sort(s2));
  }

  /** Sorting a list with a first element inserts that element into the sorted rest. */
  lemma SortCons(x: NearMiss, s: seq<NearMiss>)
    ensures Sort([x] + s) == Insert(x, Sort(s))
  {
    assert ([x] + s)[1..] == s;
  }

  /** The sorted order of five near misses at distances 4, 1, 0, 3, 2. */
  lemma SortDistances41032(n1: NearMiss, n2: NearMiss, n3: NearMiss, n4: NearMiss, n5: NearMiss)
    requires Distance(n1) == 4 && Distance(n2) == 1 && Distance(n3) == 0
    requires Distance(n4) == 3 && Distance(n5) == 2
    ensures Sort([n1, n2, n3, n4, n5]) == [n3, n2, n5, n4, n1]
  {
    SortCons(n5, []);
    assert [n5] == [n5] + [];
    SortCons(n4, [n5]);
    assert [n4, n5] == [n4] + [n5];
    assert Insert(n4, [n5]) == [n5, n4];
    SortCons(n3, [n4, n5]);
    assert [n3, n4, n5] == [n3] + [n4, n5];
    SortCons(n2, [n3, n4, n5]);
    assert [n2, n3, n4, n5] == [n2] + [n3, n4, n5];
    assert [n3, n5, n4][1..] == [n5, n4];
    assert Insert(n2, [n3, n5, n4]) == [n3, n2, n5, n4];
    SortCons(n1, [n2, n3, n4, n5]);
    assert [n1, n2, n3, n4, n5] == [n1] + [n2, n3, n4, n5];
    assert Insert(n1, [n4]) == [n4, n1];
    assert [n5, n4][1..] == [n4];
    assert Insert(n1, [n5, n4]) == [n5, n4, n1];
    assert [n2, n5, n4][1..] == [n5, n4];
    assert Insert(n1, [n2, n5, n4]) == [n2, n5, n4, n1];
    assert [n3, n2, n5, n4][1..] == [n2, n5, n4];
    assert Insert(n1, [n3, n2, n5, n4]) == [n3, n2, n5, n4, n1];
  }

  /** The sorted order of four near misses at distances 3, 3, 1, 3. */
  lemma SortDistances3313(n1: NearMiss, n2: NearMiss, n3: NearMiss, n4: NearMiss)
    requires Distance(n1) == 3 && Distance(n2) == 3 && Distance(n3) == 1 && Distance(n4) == 3
    ensures Sort([n1, n2, n3, n4]) == [n3, n1, n2, n4]
  {
    SortCons(n4, []);
    assert [n4] == [n4] + [];
    SortCons(n3, [n4]);
    assert [n3, n4] == [n3] + [n4];
    SortCons(n2, [n3, n4]);
    assert [n2, n3, n4] == [n2] + [n3, n4];
    assert Insert(n2, [n4]) == [n2, n4];
    assert Insert(n2, [n3, n4]) == [n3, n2, n4];
    SortCons(n1, [n2, n3, n4]);
    assert [n1, n2, n3, n4] == [n1] + [n2, n3, n4];
    assert Insert(n1, [n2, n4]) == [n1, n2, n4];
    assert [n3, n2, n4][1..] == [n2, n4];
    assert Insert(n1, [n3, n2, n4]) == [n3, n1, n2, n4];
  }

  /**
   * Five stub mappings at distances 4, 1, 0, 3, 2: the three closest are
   * reported, at distances 0, 1 and 2, in that order.
   */
  lemma FiveMappingsKeepClosestThree(request: LoggedRequest, m1: StubMapping, m2: StubMapping, m3: StubMapping,
                                     m4: StubMapping, m5: StubMapping, matcher: Matcher)
    requires matcher(m1.request, request).distance == 4
    requires matcher(m2.request, request).distance == 1
    requires matcher(m3.request, request).distance == 0
    requires matcher(m4.request, request).distance == 3
    requires matcher(m5.request, request).distance == 2
    ensures FindNearestToRequest(request, [m1, m2, m3, m4, m5], matcher) ==
              [NearMiss(request, Mapping(m3), matcher(m3.request, request)),
               NearMiss(request, Mapping(m2), matcher(m2.request, request)),
               NearMiss(request, Mapping(m5), matcher(m5.request, request))]
  {
    var n1 := NearMiss(request, Mapping(m1), matcher(m1.request, request));
    var n2 := NearMiss(request, Mapping(m2), matcher(m2.request, request));
    var n3 := NearMiss(request, Mapping(m3), matcher(m3.request, request));
    var n4 := NearMiss(request, Mapping(m4), matcher(m4.request, request));
    var n5 := NearMiss(request, Mapping(m5), matcher(m5.request, request));
    var scored := ScoreMappings(request, [m1, m2, m3, m4, m5], matcher);
    assert scored == [n1, n2, n3, n4, n5];
    SortDistances41032(n1, n2, n3, n4, n5);
  }

  /**
   * Four served requests at distances 3, 3, 1, 3: the closest comes first,
   * followed by the first two at distance 3 in their journal order.
   */
  lemma TiesKeepJournalOrder(requestPattern: RequestPattern, s1: ServedStub, s2: ServedStub, s3: ServedStub,
                             s4: ServedStub, matcher: Matcher)
    requires matcher(requestPattern, s1.request).distance == 3
    requires matcher(requestPattern, s2.request).distance == 3
    requires matcher(requestPattern, s3.request).distance == 1
    requires matcher(requestPattern, s4.request).distance == 3
    ensures FindNearestToPattern(requestPattern, [s1, s2, s3, s4], matcher) ==
              [NearMiss(s3.request, Pattern(requestPattern), matcher(requestPattern, s3.request)),
               NearMiss(s1.request, Pattern(requestPattern), matcher(requestPattern, s1.request)),
               NearMiss(s2.request, Pattern(requestPattern), matcher(requestPattern, s2.request))]
  {
    var n1 := NearMiss(s1.request, Pattern(requestPattern), matcher(requestPattern, s1.request));
    var n2 := NearMiss(s2.request, Pattern(requestPattern), matcher(requestPattern, s2.request));
    var n3 := NearMiss(s3.request, Pattern(requestPattern), matcher(requestPattern, s3.request));
    var n4 := NearMiss(s4.request, Pattern(requestPattern), matcher(requestPattern, s4.request));
    var scored := ScoreServedStubs(requestPattern, [s1, s2, s3, s4], matcher);
    assert scored == [n1, n2, n3, n4];
    SortDistances3313(n1, n2, n3, n4);
  }
}
