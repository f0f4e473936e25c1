/**
 * Sorting a list of near misses with the ascending comparator, as Guava's
 * `toSortedList` does: a stable sort, so near misses at the same distance
 * keep the order in which they were supplied. Modelled as insertion sort.
 */
module SortedList {
  import opened NearMisses

  /** Ascending under the near-miss comparator: closest first. */
  predicate Sorted(t: seq<NearMiss>) {
    forall i, j :: 0 <= i < j < |t| ==> Compare(t[i], t[j]) <= 0
  }

  /** The near misses of `t` at distance `d`, in the order of `t`. */
  function Tied(t: seq<NearMiss>, d: nat): seq<NearMiss> {
    if t == [] then []
    else (if Distance(t[0]) == d then [t[0]] else []) + Tied(t[1..], d)
  }

  /** `Tied(t, d)` holds exactly the elements of `t` at distance `d`. */
  lemma {:induction false} TiedMembers(t: seq<NearMiss>, d: nat, y: NearMiss)
    ensures y in Tied(t, d) <==> y in t && Distance(y) == d
  {
    if t != [] {
      TiedMembers(t[1..], d, y);
      assert t == [t[0]] + t[1..];
    }
  }

  /** Inserts `x` before the first element it does not compare greater than. */
  function Insert(x: NearMiss, t: seq<NearMiss>): (r: seq<NearMiss>)
    ensures |r| == |t| + 1
  {
    if t == [] || Compare(x, t[0]) <= 0 then [x] + t
    else [t[0]] + Insert(x, t[1..])
  }

  /** Insertion adds `x` and loses nothing. */
  lemma {:induction false} InsertPermutes(x: NearMiss, t: seq<NearMiss>)
    ensures multiset(Insert(x, t)) == multiset(t) + multiset{x}
  {
    if t != [] && Compare(x, t[0]) > 0 {
      InsertPermutes(x, t[1..]);
      assert t == [t[0]] + t[1..];
    }
  }

  /** Inserting into a sorted list keeps it sorted. */
  lemma {:induction false} InsertSorted(x: NearMiss, t: seq<NearMiss>)
    requires Sorted(t)
    ensures Sorted(Insert(x, t))
  {
    if t != [] && Compare(x, t[0]) > 0 {
      var rest := Insert(x, t[1..]);
      InsertSorted(x, t[1..]);
      InsertPermutes(x, t[1..]);
      forall y | y in rest ensures Compare(t[0], y) <= 0 {
        assert y in multiset(rest);
        if y != x {
          assert y in t[1..];
        }
      }
    }
  }

  /** The sorted copy of `s`. */
  function Sort(s: seq<NearMiss>): (r: seq<NearMiss>)
    ensures |r| == |s|
  {
    if s == [] then [] else Insert(s[0], Sort(s[1..]))
  }

  /** The sorted copy is a permutation of `s`, ... */
  lemma {:induction false} SortPermutes(s: seq<NearMiss>)
    ensures multiset(Sort(s)) == multiset(s)
  {
    if s != [] {
      SortPermutes(s[1..]);
      InsertPermutes(s[0], Sort(s[1..]));
      assert s == [s[0]] + s[1..];
    }
  }

  /** ... in ascending order, closest first. */
  lemma {:induction false} SortSorts(s: seq<NearMiss>)
    ensures Sorted(Sort(s))
  {
    if s != [] {
      SortSorts(s[1..]);
      InsertSorted(s[0], Sort(s[1..]));
    }
  }

  lemma {:induction false} TiedAppend(a: seq<NearMiss>, b: seq<NearMiss>, d: nat)
    ensures Tied(a + b, d) == Tied(a, d) + Tied(b, d)
  {
    if a == [] {
      assert a + b == b;
    } else {
      var h := if Distance(a[0]) == d then [a[0]] else [];
      calc {
        Tied(a + b, d);
        { assert (a + b)[0] == a[0]; }
        h + Tied((a + b)[1..], d);
        { assert (a + b)[1..] == a[1..] + b; }
        h + Tied(a[1..] + b, d);
        { TiedAppend(a[1..], b, d); }
        h + (Tied(a[1..], d) + Tied(b, d));
        (h + Tied(a[1..], d)) + Tied(b, d);
        Tied(a, d) + Tied(b, d);
      }
    }
  }

  lemma TiedCons(y: NearMiss, u: seq<NearMiss>, d: nat)
    ensures Tied([y] + u, d) == (if Distance(y) == d then [y] else []) + Tied(u, d)
  {
    assert ([y] + u)[1..] == u;
  }

  /** Insertion never moves `x` past an element at its own distance. */
  lemma {:induction false} InsertKeepsTies(x: NearMiss, t: seq<NearMiss>, d: nat)
    ensures Tied(Insert(x, t), d) == Tied([x] + t, d)
  {
    if t != [] && Compare(x, t[0]) > 0 {
      var hx := if Distance(x) == d then [x] else [];
      var h0 := if Distance(t[0]) == d then [t[0]] else [];
      // `x` and `t[0]` lie at different distances, so at most one is kept.
      assert hx == [] || h0 == [];
      calc {
        Tied(Insert(x, t), d);
        Tied([t[0]] + Insert(x, t[1..]), d);
        { TiedCons(t[0], Insert(x, t[1..]), d); }
        h0 + Tied(Insert(x, t[1..]), d);
        { InsertKeepsTies(x, t[1..], d); }
        h0 + Tied([x] + t[1..], d);
        { TiedCons(x, t[1..], d); }
        h0 + (hx + Tied(t[1..], d));
        hx + (h0 + Tied(t[1..], d));
        { TiedCons(t[0], t[1..], d); assert [t[0]] + t[1..] == t; }
        hx + Tied(t, d);
        { TiedCons(x, t, d); }
        Tied([x] + t, d);
      }
    }
  }

  /** The sort is stable: for every distance, the tied near misses keep their input order. */
  lemma {:induction false} SortIsStable(s: seq<NearMiss>, d: nat)
    ensures Tied(Sort(s), d) == Tied(s, d)
  {
    if s != [] {
      SortIsStable(s[1..], d);
      InsertKeepsTies(s[0], Sort(s[1..]), d);
      TiedAppend([s[0]], Sort(s[1..]), d);
      TiedAppend([s[0]], s[1..], d);
      assert [s[0]] + s[1..] == s;
    }
  }

  lemma HeadIsClosest(t: seq<NearMiss>, y: NearMiss)
    requires Sorted(t) && y in t
    ensures Distance(t[0]) <= Distance(y)
  {
    var j :| 0 <= j < |t| && t[j] == y;
    if j > 0 {
      assert Compare(t[0], t[j]) <= 0;
    }
  }

  /**
   * Two sorted lists that agree on the near misses at every distance, in
   * order, are the same list.
   */
  lemma {:induction false} SortedUnique(t1: seq<NearMiss>, t2: seq<NearMiss>)
    requires Sorted(t1) && Sorted(t2)
    requires forall d: nat :: Tied(t1, d) == Tied(t2, d)
    ensures t1 == t2
  {
    if t1 == [] || t2 == [] {
      if t1 != [] {
        TiedMembers(t1, Distance(t1[0]), t1[0]);
        assert false;
      }
      if t2 != [] {
        TiedMembers(t2, Distance(t2[0]), t2[0]);
        assert false;
      }
    } else {
      var d1, d2 := Distance(t1[0]), Distance(t2[0]);
      TiedMembers(t1, d1, t1[0]);
      TiedMembers(t2, d1, t1[0]);
      HeadIsClosest(t2, t1[0]);
      TiedMembers(t2, d2, t2[0]);
      TiedMembers(t1, d2, t2[0]);
      HeadIsClosest(t1, t2[0]);
      assert d1 == d2;
      assert t1 == [t1[0]] + t1[1..];
      assert t2 == [t2[0]] + t2[1..];
      TiedCons(t1[0], t1[1..], d1);
      TiedCons(t2[0], t2[1..], d1);
      assert t1[0] == Tied(t1, d1)[0] == Tied(t2, d1)[0] == t2[0];
      forall d: nat ensures Tied(t1[1..], d) == Tied(t2[1..], d) {
        assert Tied(t1, d) == Tied(t2, d);
        if d == d1 {
          assert Tied(t1, d) == [t1[0]] + Tied(t1[1..], d);
          assert Tied(t2, d) == [t2[0]] + Tied(t2[1..], d);
          assert Tied(t1[1..], d) == Tied(t1, d)[1..];
          assert Tied(t2[1..], d) == Tied(t2, d)[1..];
        } else {
          assert Tied(t1, d) == Tied(t1[1..], d);
          assert Tied(t2, d) == Tied(t2[1..], d);
        }
      }
      SortedUnique(t1[1..], t2[1..]);
    }
  }

  /** Any sorted list with the ties of `s` in the order of `s` is `Sort(s)`. */
  lemma StableSortIsUnique(s: seq<NearMiss>, t: seq<NearMiss>)
    requires Sorted(t)
    requires forall d: nat :: Tied(t, d) == Tied(s, d)
    ensures t == Sort(s)
  {
    forall d: nat ensures Tied(t, d) == Tied(Sort(s), d) {
      SortIsStable(s, d);
    }
    SortSorts(s);
    SortedUnique(t, Sort(s));
  }

  /**
   * `t` is a stable sort of `s`: closest first, and for every distance the
   * near misses of `s` at that distance appear in `t` in their order in `s`.
   */
  ghost predicate IsStableSortOf(t: seq<NearMiss>, s: seq<NearMiss>) {
    Sorted(t) && forall d: nat :: Tied(t, d) == Tied(s, d)
  }

  /** `Sort(s)` is a stable sort of `s`, and the only one. */
  lemma SortIsTheStableSort(s: seq<NearMiss>, t: seq<NearMiss>)
    ensures IsStableSortOf(t, s) <==> t == Sort(s)
  {
    if IsStableSortOf(t, s) {
      StableSortIsUnique(s, t);
    }
    if t == Sort(s) {
      SortSorts(s);
      forall d: nat ensures Tied(t, d) == Tied(s, d) {
        SortIsStable(s, d);
      }
    }
  }
}
