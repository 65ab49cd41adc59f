/**
 * Sequence helpers that stand for the JavaScript array methods the source
 * relies on: `filter`, a stable `sort` with a comparator, and `slice(0, n)`.
 */
module Seqs {
  import opened Wrappers

  /** `s.filter(p)`: the elements satisfying `p`, in their original order. */
  function Filter<T>(s: seq<T>, p: T -> bool): (r: seq<T>)
    ensures |r| <= |s|
    ensures forall i :: 0 <= i < |r| ==> p(r[i])
  {
    if s == [] then []
    else
      assert s == [s[0]] + s[1..];
      (if p(s[0]) then [s[0]] else []) + Filter(s[1..], p)
  }

  /** An element is kept exactly when it occurs and satisfies `p`. */
  lemma {:induction false} FilterMember<T>(s: seq<T>, p: T -> bool, x: T)
    ensures x in Filter(s, p) <==> x in s && p(x)
  {
    if s != [] {
      FilterMember(s[1..], p, x);
      assert s == [s[0]] + s[1..];
    }
  }

  /** The kept elements are a sub-multiset of the input. */
  lemma {:induction false} FilterSubMultiset<T>(s: seq<T>, p: T -> bool)
    ensures multiset(Filter(s, p)) <= multiset(s)
  {
    if s != [] {
      FilterSubMultiset(s[1..], p);
      assert s == [s[0]] + s[1..];
    }
  }

  lemma {:induction false} FilterAppend<T>(a: seq<T>, b: seq<T>, p: T -> bool)
    ensures Filter(a + b, p) == Filter(a, p) + Filter(b, p)
  {
    if a == [] {
      assert a + b == b;
    } else {
      assert (a + b)[1..] == a[1..] + b;
      FilterAppend(a[1..], b, p);
    }
  }

  lemma FilterSingle<T>(x: T, p: T -> bool)
    ensures Filter([x], p) == if p(x) then [x] else []
  {
    assert [x][1..] == [];
  }

  lemma FilterSnoc<T>(s: seq<T>, x: T, p: T -> bool)
    ensures Filter(s + [x], p) == Filter(s, p) + (if p(x) then [x] else [])
  {
    FilterAppend(s, [x], p);
    FilterSingle(x, p);
  }

  /** `cond ? s.filter(p) : s` */
  function FilterIf<T>(s: seq<T>, cond: bool, p: T -> bool): (r: seq<T>)
    ensures |r| <= |s|
    ensures cond ==> forall i :: 0 <= i < |r| ==> p(r[i])
  {
    if cond then Filter(s, p) else s
  }

  lemma FilterIfMember<T>(s: seq<T>, cond: bool, p: T -> bool, x: T)
    ensures x in FilterIf(s, cond, p) <==> x in s && (cond ==> p(x))
  {
    if cond { FilterMember(s, p, x); }
  }

  /** Filtering twice equals filtering once by the conjunction. */
  lemma {:induction false} FilterFilter<T>(s: seq<T>, p: T -> bool, q: T -> bool)
    ensures Filter(Filter(s, p), q) == Filter(s, x => p(x) && q(x))
  {
    if s != [] {
      FilterFilter(s[1..], p, q);
      var head := if p(s[0]) then [s[0]] else [];
      FilterAppend(head, Filter(s[1..], p), q);
      if p(s[0]) { FilterSingle(s[0], q); }
    }
  }

  /** Filtering by a predicate every element satisfies changes nothing. */
  lemma {:induction false} FilterAll<T>(s: seq<T>, p: T -> bool)
    requires forall i :: 0 <= i < |s| ==> p(s[i])
    ensures Filter(s, p) == s
  {
    if s != [] {
      FilterAll(s[1..], p);
    }
  }

  lemma {:induction false} FilterNone<T>(s: seq<T>, p: T -> bool)
    requires forall i :: 0 <= i < |s| ==> !p(s[i])
    ensures Filter(s, p) == []
  {
    if s != [] {
      FilterNone(s[1..], p);
    }
  }

  /** Number of elements satisfying `p`. */
  function Count<T>(s: seq<T>, p: T -> bool): nat {
    |Filter(s, p)|
  }

  /** The index of the first element satisfying `p`, or `|s|` when there is none. */
  function FindIndex<T>(s: seq<T>, p: T -> bool): (k: nat)
    ensures k <= |s|
    ensures k < |s| ==> p(s[k])
    ensures forall j :: 0 <= j < k ==> !p(s[j])
  {
    if s == [] || p(s[0]) then 0 else 1 + FindIndex(s[1..], p)
  }

  /** The index of the first element satisfying `p` is the one every earlier element fails. */
  lemma FindIndexIs<T>(s: seq<T>, p: T -> bool, i: nat)
    requires i <= |s| && (i < |s| ==> p(s[i]))
    requires forall j :: 0 <= j < i ==> !p(s[j])
    ensures FindIndex(s, p) == i
  {
  }

  /** `s.find(p)`: the first element satisfying `p`, if any. */
  function Find<T>(s: seq<T>, p: T -> bool): (r: Option<T>)
    ensures r.None? <==> forall i :: 0 <= i < |s| ==> !p(s[i])
    ensures r.Some? ==> exists i :: 0 <= i < |s| && s[i] == r.value && p(s[i]) && forall j :: 0 <= j < i ==> !p(s[j])
  {
    var k := FindIndex(s, p);
    if k < |s| then Some(s[k]) else None
  }

  /** The negation of a predicate: `x => !p(x)`. */
  function Not<T>(p: T -> bool): T -> bool {
    x => !p(x)
  }

  /** Every element satisfies `p` or its negation, never both. */
  lemma {:induction false} FilterComplement<T>(s: seq<T>, p: T -> bool)
    ensures Count(s, p) + Count(s, Not(p)) == |s|
  {
    if s != [] {
      FilterComplement(s[1..], p);
    }
  }

  /** `Math.min(...s)` on a non-empty list. */
  function MinOf(s: seq<int>): (m: int)
    requires |s| > 0
    ensures m in s
    ensures forall i :: 0 <= i < |s| ==> m <= s[i]
  {
    if |s| == 1 then s[0]
    else
      var rest := MinOf(s[1..]);
      if s[0] <= rest then s[0] else rest
  }

  /** `Math.max(...s)` on a non-empty list. */
  function MaxOf(s: seq<int>): (m: int)
    requires |s| > 0
    ensures m in s
    ensures forall i :: 0 <= i < |s| ==> s[i] <= m
  {
    if |s| == 1 then s[0]
    else
      var rest := MaxOf(s[1..]);
      if s[0] >= rest then s[0] else rest
  }

  // ---------------------------------------------------------------------
  // Partitions by a key

  /** The elements whose key is `k`, as a predicate for `Filter`. */
  function KeyIs<T, K(==)>(key: T -> K, k: K): T -> bool {
    x => key(x) == k
  }

  /** How many times `k` occurs in `ks`. */
  function Occurrences<K(==)>(ks: seq<K>, k: K): nat {
    if ks == [] then 0 else (if ks[0] == k then 1 else 0) + Occurrences(ks[1..], k)
  }

  /** The sum, over the keys `ks`, of the number of elements with that key. */
  function CountPerKey<T, K(==)>(s: seq<T>, key: T -> K, ks: seq<K>): nat {
    if ks == [] then 0 else Count(s, KeyIs(key, ks[0])) + CountPerKey(s, key, ks[1..])
  }

  lemma {:induction false} CountPerKeyCons<T, K>(x: T, s: seq<T>, key: T -> K, ks: seq<K>)
    ensures CountPerKey([x] + s, key, ks) == CountPerKey(s, key, ks) + Occurrences(ks, key(x))
  {
    if ks != [] {
      CountPerKeyCons(x, s, key, ks[1..]);
      assert ([x] + s)[1..] == s;
    }
  }

  lemma {:induction false} OccurrencesDistinct<K>(ks: seq<K>, k: K)
    requires forall i, j :: 0 <= i < j < |ks| ==> ks[i] != ks[j]
    ensures Occurrences(ks, k) == if k in ks then 1 else 0
  {
    if ks != [] {
      OccurrencesDistinct(ks[1..], k);
    }
  }

  /**
   * When every element's key is one of the distinct keys `ks`, the groups of
   * those keys together hold every element exactly once.
   */
  lemma {:induction false} PartitionCount<T, K>(s: seq<T>, key: T -> K, ks: seq<K>)
    requires forall i, j :: 0 <= i < j < |ks| ==> ks[i] != ks[j]
    requires forall i :: 0 <= i < |s| ==> key(s[i]) in ks
    ensures CountPerKey(s, key, ks) == |s|
  {
    if s == [] {
      PartitionEmpty(key, ks);
    } else {
      assert s == [s[0]] + s[1..];
      PartitionCount(s[1..], key, ks);
      CountPerKeyCons(s[0], s[1..], key, ks);
      OccurrencesDistinct(ks, key(s[0]));
    }
  }

  lemma {:induction false} PartitionEmpty<T, K>(key: T -> K, ks: seq<K>)
    ensures CountPerKey([], key, ks) == 0
  {
    if ks != [] {
      PartitionEmpty(key, ks[1..]);
    }
  }

  function Min(a: int, b: int): int { if a <= b then a else b }

  /** `s.slice(0, n)` */
  function Take<T>(s: seq<T>, n: nat): (r: seq<T>)
    ensures |r| == Min(n, |s|)
    ensures r == s[..|r|]
  {
    if n <= |s| then s[..n] else s
  }

  // ---------------------------------------------------------------------
  // Ordering

  /** `le` is a total preorder: a comparator JavaScript's sort can use. */
  ghost predicate TotalPreorder<T(!new)>(le: (T, T) -> bool) {
    && (forall a, b :: le(a, b) || le(b, a))
    && (forall a, b, c :: le(a, b) && le(b, c) ==> le(a, c))
  }

  ghost predicate Sorted<T>(s: seq<T>, le: (T, T) -> bool) {
    forall i, j :: 0 <= i < j < |s| ==> le(s[i], s[j])
  }

  /** Inserts `x` before the first element it is not greater than. */
  function InsertBy<T>(x: T, s: seq<T>, le: (T, T) -> bool): (r: seq<T>)
    ensures multiset(r) == multiset(s) + multiset{x}
    ensures |r| == |s| + 1
  {
    if s == [] then [x]
    else if le(x, s[0]) then [x] + s
    else
      assert s == [s[0]] + s[1..];
      [s[0]] + InsertBy(x, s[1..], le)
  }

  /**
   * The stable sort of `Array.prototype.sort` with comparator `le`
   * (an insertion sort; equivalent elements keep their input order).
   */
  function SortBy<T>(s: seq<T>, le: (T, T) -> bool): (r: seq<T>)
    ensures multiset(r) == multiset(s)
    ensures |r| == |s|
  {
    if s == [] then []
    else
      assert s == [s[0]] + s[1..];
      InsertBy(s[0], SortBy(s[1..], le), le)
  }

  /** Sorting keeps exactly the elements. */
  lemma SortByMember<T>(s: seq<T>, le: (T, T) -> bool, x: T)
    ensures x in SortBy(s, le) <==> x in s
  {
    assert x in SortBy(s, le) <==> x in multiset(SortBy(s, le));
    assert x in s <==> x in multiset(s);
  }

  lemma {:induction false} InsertSorted<T(!new)>(x: T, s: seq<T>, le: (T, T) -> bool)
    requires TotalPreorder(le)
    requires Sorted(s, le)
    ensures Sorted(InsertBy(x, s, le), le)
  {
    if s != [] && !le(x, s[0]) {
      var t := InsertBy(x, s[1..], le);
      InsertSorted(x, s[1..], le);
      forall j | 0 <= j < |t| ensures le(s[0], t[j]) {
        assert t[j] in multiset(t);
        assert t[j] == x || t[j] in multiset(s[1..]);
        if t[j] != x {
          var k :| 0 <= k < |s[1..]| && s[1..][k] == t[j];
          assert s[k + 1] == t[j];
        }
      }
    }
  }

  /** The sort is ordered by `le`. */
  lemma {:induction false} SortBySorted<T(!new)>(s: seq<T>, le: (T, T) -> bool)
    requires TotalPreorder(le)
    ensures Sorted(SortBy(s, le), le)
  {
    if s != [] {
      SortBySorted(s[1..], le);
      InsertSorted(s[0], SortBy(s[1..], le), le);
    }
  }

  lemma Transitive<T(!new)>(le: (T, T) -> bool, a: T, b: T, c: T)
    requires TotalPreorder(le)
    ensures le(a, b) && le(b, c) ==> le(a, c)
  {
  }

  /** The elements of `s` equivalent to `x` under `le`, in order. */
  function Equivalents<T>(s: seq<T>, x: T, le: (T, T) -> bool): seq<T> {
    if s == [] then []
    else (if le(x, s[0]) && le(s[0], x) then [s[0]] else []) + Equivalents(s[1..], x, le)
  }

  lemma {:induction false} InsertEquivalents<T(!new)>(y: T, s: seq<T>, x: T, le: (T, T) -> bool)
    requires TotalPreorder(le)
    ensures Equivalents(InsertBy(y, s, le), x, le)
         == (if le(x, y) && le(y, x) then [y] else []) + Equivalents(s, x, le)
  {
    if s == [] {
      assert Equivalents(InsertBy(y, s, le), x, le) == Equivalents([y], x, le);
      assert [y][1..] == [];
    } else if le(y, s[0]) {
      assert InsertBy(y, s, le) == [y] + s;
      assert ([y] + s)[1..] == s;
    } else {
      InsertEquivalents(y, s[1..], x, le);
      var t := InsertBy(y, s[1..], le);
      assert InsertBy(y, s, le) == [s[0]] + t;
      assert ([s[0]] + t)[1..] == t;
      if le(x, y) && le(y, x) {
        // s[0] comes strictly before y, so it is not equivalent to x
        Transitive(le, y, x, s[0]);
      }
      calc {
        Equivalents([s[0]] + t, x, le);
        (if le(x, s[0]) && le(s[0], x) then [s[0]] else []) + Equivalents(t, x, le);
      }
    }
  }

  /** Stability: for every `x`, the elements equivalent to it keep their order. */
  lemma {:induction false} SortByStable<T(!new)>(s: seq<T>, x: T, le: (T, T) -> bool)
    requires TotalPreorder(le)
    ensures Equivalents(SortBy(s, le), x, le) == Equivalents(s, x, le)
  {
    if s != [] {
      SortByStable(s[1..], x, le);
      InsertEquivalents(s[0], SortBy(s[1..], le), x, le);
    }
  }

  /** A filter of a sorted sequence is sorted. */
  lemma {:induction false} FilterSorted<T>(s: seq<T>, p: T -> bool, le: (T, T) -> bool)
    requires Sorted(s, le)
    ensures Sorted(Filter(s, p), le)
  {
    if s != [] {
      FilterSorted(s[1..], p, le);
      var r := Filter(s[1..], p);
      forall j | 0 <= j < |r| ensures le(s[0], r[j]) {
        FilterMember(s[1..], p, r[j]);
        var k :| 0 <= k < |s[1..]| && s[1..][k] == r[j];
        assert s[k + 1] == r[j];
      }
    }
  }

  /** A prefix of a sorted sequence is sorted. */
  lemma TakeSorted<T>(s: seq<T>, n: nat, le: (T, T) -> bool)
    requires Sorted(s, le)
    ensures Sorted(Take(s, n), le)
  {
  }
}
