# Near-miss ranking, modelled in Dafny

When WireMock receives a request that no stub answers, or a verification
query whose pattern matched nothing, it reports the few candidates that came
*closest*. `NearMissCalculator` does this ranking. `findNearestTo(request)`
scores every registered stub mapping against the unmatched request.
`findNearestTo(requestPattern)` scores every served request in the journal
against the unmatched pattern. Both then pass their scored `NearMiss` values
to `sortAndTruncate`. That routine sorts them closest first with
`NEAR_MISS_ASCENDING_COMPARATOR` and keeps at most `NEAR_MISS_COUNT` (3) of them.

The model is pure, like the source: functions over sequences, with lemmas.

- `matching.dfy` (module `Matching`) holds the collaborators the calculator
  consumes: `LoggedRequest`, `RequestPattern` and `ResponseDefinition` as
  opaque types, plus `MatchResult`, `StubMapping` and `ServedStub`.
  `RequestPattern.match` is a total function value of type `Matcher`, and
  callers pass it in.
- `near_miss.dfy` (module `NearMisses`) holds the `NearMiss` record. Its
  candidate is a tagged variant: a whole `Mapping` or a bare `Pattern`.
  The module also holds the comparator `Compare`, which orders by match
  distance.
- `sorted_list.dfy` (module `SortedList`) models Guava's `toSortedList`. It
  is a stable insertion sort `Sort`, and `Tied(t, d)` is the subsequence of
  `t` at distance `d`. "Stable" means `Tied(Sort(s), d) == Tied(s, d)` for
  every `d`. `IsStableSortOf(t, s)` means sorted and stable, and `Sort(s)`
  is proved to be the only list that satisfies it.
- `near_miss_calculator.dfy` (module `NearMissCalculator`) holds
  `NearMissCount`, `SortAndTruncate` and the two entry points. Those are
  `FindNearestToRequest` (the overload taking a request) and
  `FindNearestToPattern` (the overload taking a pattern). The module also
  has lemmas about the ranking and two worked scenarios.

The registry snapshot (`stubMappings.getAll()`) and the journal snapshot
(`requestJournal.getAllServedStubs()`) are the sequence parameters of the
entry points. The calculator's two fields are final and only read, so it
has no state of its own. Every member is a function of its inputs, so calling
an entry point twice with the same registry or journal gives the same result.

## Model

| member | source | states |
|---|---|---|
| `NearMisses.ComparatorContract` | src/main/java/com/github/tomakehurst/wiremock/verification/NearMissCalculator.java:21-25 | The ascending comparator orders by match distance. It meets Java's `Comparator` contract: the sign flips when arguments swap, it is transitive, and elements that compare equal compare alike with every third element. |
| `SortedList.Insert` | src/main/java/com/github/tomakehurst/wiremock/verification/NearMissCalculator.java:58 | One insertion step of the sort adds exactly one element. |
| `SortedList.InsertPermutes` | src/main/java/com/github/tomakehurst/wiremock/verification/NearMissCalculator.java:58 | An insertion adds its element and loses none, as multisets. |
| `SortedList.InsertSorted` | src/main/java/com/github/tomakehurst/wiremock/verification/NearMissCalculator.java:58 | Inserting into an ascending list keeps it ascending. |
| `SortedList.InsertKeepsTies` | src/main/java/com/github/tomakehurst/wiremock/verification/NearMissCalculator.java:58 | An insertion never moves an element past another one at the same distance. |
| `SortedList.Sort` | src/main/java/com/github/tomakehurst/wiremock/verification/NearMissCalculator.java:58 | The sorted copy has as many elements as its input. |
| `SortedList.SortPermutes` | src/main/java/com/github/tomakehurst/wiremock/verification/NearMissCalculator.java:58 | The sorted copy is a permutation of the input. |
| `SortedList.SortSorts` | src/main/java/com/github/tomakehurst/wiremock/verification/NearMissCalculator.java:58 | The sorted copy is ascending under the comparator, closest first. |
| `SortedList.SortIsStable` | src/main/java/com/github/tomakehurst/wiremock/verification/NearMissCalculator.java:58 | The sort is stable. For every distance, the near misses at that distance appear in the output in their input order. |
| `SortedList.TiedAppend` | src/main/java/com/github/tomakehurst/wiremock/verification/NearMissCalculator.java:58-59 | Taking the elements at one distance distributes over concatenation. Truncation keeps a prefix of each tie group because of this. |
| `SortedList.SortedUnique` | src/main/java/com/github/tomakehurst/wiremock/verification/NearMissCalculator.java:58 | Two ascending lists that agree, distance by distance, on which near misses they hold and in what order are equal. |
| `SortedList.StableSortIsUnique` | src/main/java/com/github/tomakehurst/wiremock/verification/NearMissCalculator.java:58 | Any ascending list holding the input's ties in input order is the sorted copy. |
| `SortedList.SortIsTheStableSort` | src/main/java/com/github/tomakehurst/wiremock/verification/NearMissCalculator.java:58 | A list is a stable ascending sort of the input if and only if it equals `Sort` of the input. |
| `NearMissCalculator.SortAndTruncate` | src/main/java/com/github/tomakehurst/wiremock/verification/NearMissCalculator.java:56-60 | The result has length `min(3, originalSize)` and is ascending. No element occurs in it more often than in the input. Each returned element is no farther than each dropped one. For every distance, the returned elements at that distance are a prefix of the input's elements at that distance, in input order. |
| `NearMissCalculator.TruncatesAnyStableSort` | src/main/java/com/github/tomakehurst/wiremock/verification/NearMissCalculator.java:56-60 | The result is the first `min(3, originalSize)` elements of any stable ascending sort of the input. |
| `NearMissCalculator.SortedPrefixIsSubset` | src/main/java/com/github/tomakehurst/wiremock/verification/NearMissCalculator.java:57-59 | The first `k` sorted elements form a sub-multiset of the input. |
| `NearMissCalculator.LeftOutLiesBeyond` | src/main/java/com/github/tomakehurst/wiremock/verification/NearMissCalculator.java:57-59 | Every input element that truncation drops lies after position `k` of the sorted list. |
| `NearMissCalculator.SuffixIsNotCloser` | src/main/java/com/github/tomakehurst/wiremock/verification/NearMissCalculator.java:58-59 | In an ascending list, no element after position `k` is closer than any element before it. |
| `NearMissCalculator.SortedPrefixIsNearest` | src/main/java/com/github/tomakehurst/wiremock/verification/NearMissCalculator.java:57-59 | None of the first `k` sorted elements is farther than any input element left out. |
| `NearMissCalculator.SortedPrefixKeepsTies` | src/main/java/com/github/tomakehurst/wiremock/verification/NearMissCalculator.java:57-59 | In the first `k` sorted elements, each distance's near misses form a prefix of that distance's near misses in the input. |
| `NearMissCalculator.ScoreMappings` | src/main/java/com/github/tomakehurst/wiremock/verification/NearMissCalculator.java:38-42 | There is exactly one near miss per stub mapping, in registry order. Each holds the input request, that mapping, and the result of matching the mapping's request pattern against the request. |
| `NearMissCalculator.ScoreServedStubs` | src/main/java/com/github/tomakehurst/wiremock/verification/NearMissCalculator.java:48-52 | There is exactly one near miss per served stub, in journal order. Each holds the served request, the input pattern, and the result of matching the pattern against the served request. |
| `NearMissCalculator.FindNearestToRequest` | src/main/java/com/github/tomakehurst/wiremock/verification/NearMissCalculator.java:35-44 | The result has `min(3, number of mappings)` elements, so an empty registry gives an empty result. It is ascending. Each element scores some registered mapping against the request. It is a sub-multiset of the scored mappings, and none of the dropped mappings is closer than a returned one. Ties keep registry order. |
| `NearMissCalculator.FindNearestToPattern` | src/main/java/com/github/tomakehurst/wiremock/verification/NearMissCalculator.java:46-54 | The result has `min(3, number of served stubs)` elements, so an empty journal gives an empty result. It is ascending. Each element scores some served request against the pattern. It is a sub-multiset of the scored requests, and none of the dropped requests is closer than a returned one. Ties keep journal order. |
| `NearMissCalculator.NearestComesFirst` | src/main/java/com/github/tomakehurst/wiremock/verification/NearMissCalculator.java:56-60 | The first reported near miss is at least as close as every candidate. When some candidate matches exactly (distance 0), the first reported one does too. |
| `NearMissCalculator.RankingDependsOnlyOnTies` | src/main/java/com/github/tomakehurst/wiremock/verification/NearMissCalculator.java:56-60 | Two candidate lists that agree on the order within every distance give the same ranking. Input order matters only among ties. |
| `NearMissCalculator.FiveMappingsKeepClosestThree` | src/main/java/com/github/tomakehurst/wiremock/verification/NearMissCalculator.java:35-44 | Five mappings at distances 4, 1, 0, 3 and 2 give the mappings at distances 0, 1 and 2, in that order. |
| `NearMissCalculator.TiesKeepJournalOrder` | src/main/java/com/github/tomakehurst/wiremock/verification/NearMissCalculator.java:46-54 | Served requests at distances 3, 3, 1 and 3 give the one at distance 1, then the first and second at distance 3, in journal order. |

## Left out

- Storage and journaling: how `StubMappings.getAll()` and `RequestJournal.getAllServedStubs()` build their lists. Their results are input sequences.
- Request matching: how `RequestPattern.match` compares URLs, headers and bodies, and what `MatchResult` holds beyond an exact-match flag and a distance. The matcher is a total, pure function parameter, so the model has no path on which matching fails. In the source such a failure would propagate out of `findNearestTo`.
- Floating-point distance: the source's distance is a `double`. Here it is a natural number, so NaN and negative or fractional distances are not modelled.
- `NearMiss.compareTo`: `NearMiss.java` is not part of this model. The comparator is taken to compare by match distance alone, returning -1, 0 or 1.
- Guava's `FluentIterable.transform` is lazy, and `List.subList` returns a view of the sorted list. The model keeps only their effect: map, stable sort, then prefix. When `match` is invoked and how views alias are not modelled.
- `SortAndTruncate` requires `min(3, originalSize)` to be at most the list's size. That is `List.subList`'s precondition, and the source throws `IndexOutOfBoundsException` otherwise. Both callers pass the list's own size, so the exception path is not modelled.
- Rendering near misses into diagnostic messages, and thread-safety of concurrent callers. The calculator holds no mutable state.
