/**
 * The list operations the pages share, as functions on sequences: `Array.prototype.filter`
 * (what it keeps, how it distributes over concatenation, when it is the identity), the stable
 * `Array.prototype.sort` by an integer key, and the partition-then-sort of the agenda (filter
 * by two tests, sort each part, concatenate).
 */
module Seqs {

  /** The items of `s` that satisfy `p`, in their original order. */
  function Filter<T>(p: T -> bool, s: seq<T>): (r: seq<T>)
    ensures |r| <= |s|
    ensures forall i :: 0 <= i < |r| ==> p(r[i])
  {
    if s == [] then []
    else
      var rest := Filter(p, s[1..]);
      if p(s[0]) then [s[0]] + rest else rest
  }

  /** Every occurrence of an item that passes is kept, and no other item survives. */
  lemma {:induction false} FilterMultiset<T>(p: T -> bool, s: seq<T>, x: T)
    ensures multiset(Filter(p, s))[x] == if p(x) then multiset(s)[x] else 0
  {
    if s != [] {
      FilterMultiset(p, s[1..], x);
      assert s == [s[0]] + s[1..];
    }
  }

  lemma FilterMembership<T>(p: T -> bool, s: seq<T>, x: T)
    ensures x in Filter(p, s) <==> x in s && p(x)
  {
    FilterMultiset(p, s, x);
    assert x in Filter(p, s) <==> multiset(Filter(p, s))[x] > 0;
    assert x in s <==> multiset(s)[x] > 0;
  }

  lemma {:induction false} FilterAppend<T>(p: T -> bool, a: seq<T>, b: seq<T>)
    ensures Filter(p, a + b) == Filter(p, a) + Filter(p, b)
  {
    if a == [] {
      assert a + b == b;
    } else {
      assert (a + b)[0] == a[0];
      assert (a + b)[1..] == a[1..] + b;
      FilterAppend(p, a[1..], b);
    }
  }

  /** A single item is kept exactly when it passes. */
  lemma FilterOne<T>(p: T -> bool, x: T)
    ensures Filter(p, [x]) == if p(x) then [x] else []
  {
    assert [x][1..] == [];
  }

  /** Filtering keeps everything exactly when every item passes. */
  lemma {:induction false} FilterKeepsAll<T>(p: T -> bool, s: seq<T>)
    ensures Filter(p, s) == s <==> forall i :: 0 <= i < |s| ==> p(s[i])
    ensures |Filter(p, s)| == |s| <==> forall i :: 0 <= i < |s| ==> p(s[i])
  {
    if s != [] {
      FilterKeepsAll(p, s[1..]);
      if !p(s[0]) {
        assert |Filter(p, s)| <= |s[1..]| < |s|;
      } else {
        assert forall i :: 1 <= i < |s| ==> s[i] == s[1..][i - 1];
      }
    }
  }

  lemma {:induction false} FilterKeepsNone<T>(p: T -> bool, s: seq<T>)
    requires forall i :: 0 <= i < |s| ==> !p(s[i])
    ensures Filter(p, s) == []
  {
    if s != [] {
      FilterKeepsNone(p, s[1..]);
    }
  }

  /** Filters by predicates that agree on every item of `s` give the same result. */
  lemma {:induction false} FilterCongruent<T>(p: T -> bool, q: T -> bool, s: seq<T>)
    requires forall i :: 0 <= i < |s| ==> p(s[i]) == q(s[i])
    ensures Filter(p, s) == Filter(q, s)
  {
    if s != [] {
      FilterCongruent(p, q, s[1..]);
    }
  }

  /** Filtering by `q` after a coarser filter `p` is filtering by `q` alone. */
  lemma {:induction false} FilterOfFilter<T>(p: T -> bool, q: T -> bool, s: seq<T>)
    requires forall i :: 0 <= i < |s| ==> q(s[i]) ==> p(s[i])
    ensures Filter(q, Filter(p, s)) == Filter(q, s)
  {
    if s != [] {
      FilterOfFilter(p, q, s[1..]);
    }
  }

  /** Two complementary filters split `s` into two parts that together hold all of it. */
  lemma {:induction false} FilterComplement<T>(p: T -> bool, q: T -> bool, s: seq<T>)
    requires forall i :: 0 <= i < |s| ==> p(s[i]) != q(s[i])
    ensures multiset(Filter(p, s)) + multiset(Filter(q, s)) == multiset(s)
  {
    if s != [] {
      FilterComplement(p, q, s[1..]);
      assert s == [s[0]] + s[1..];
    }
  }

  // ---------------------------------------------------------------- stable sort by an integer key

  predicate SortedBy<T>(key: T -> int, s: seq<T>) {
    forall i, j :: 0 <= i < j < |s| ==> key(s[i]) <= key(s[j])
  }

  /** The items whose key is `k`. */
  function HasKey<T>(key: T -> int, k: int): T -> bool {
    x => key(x) == k
  }

  /** Puts `x` before the first item whose key is not smaller than its own. */
  function InsertBy<T>(key: T -> int, x: T, s: seq<T>): (r: seq<T>)
    ensures |r| == |s| + 1
    ensures multiset(r) == multiset(s) + multiset{x}
  {
    if s == [] || key(x) <= key(s[0]) then [x] + s
    else
      assert s == [s[0]] + s[1..];
      [s[0]] + InsertBy(key, x, s[1..])
  }

  /** Inserting an item no smaller than a bound into items no smaller than it keeps the bound. */
  lemma {:induction false} InsertByLowerBound<T>(key: T -> int, x: T, s: seq<T>, b: int)
    requires key(x) >= b
    requires forall i :: 0 <= i < |s| ==> key(s[i]) >= b
    ensures forall i :: 0 <= i < |InsertBy(key, x, s)| ==> key(InsertBy(key, x, s)[i]) >= b
  {
    if s != [] && key(x) > key(s[0]) {
      InsertByLowerBound(key, x, s[1..], b);
    }
  }

  lemma {:induction false} InsertBySorted<T>(key: T -> int, x: T, s: seq<T>)
    requires SortedBy(key, s)
    ensures SortedBy(key, InsertBy(key, x, s))
  {
    if s != [] && key(x) > key(s[0]) {
      var rest := InsertBy(key, x, s[1..]);
      InsertBySorted(key, x, s[1..]);
      InsertByLowerBound(key, x, s[1..], key(s[0]));
      assert InsertBy(key, x, s) == [s[0]] + rest;
    }
  }

  /**
   * A stable sort by ascending key (insertion sort): what `Array.prototype.sort` does with the
   * comparator `(a, b) => key(a) - key(b)`.
   */
  function SortBy<T>(key: T -> int, s: seq<T>): (r: seq<T>)
    ensures |r| == |s|
    ensures multiset(r) == multiset(s)
    ensures SortedBy(key, r)
  {
    if s == [] then []
    else
      assert s == [s[0]] + s[1..];
      InsertBySorted(key, s[0], SortBy(key, s[1..]));
      InsertBy(key, s[0], SortBy(key, s[1..]))
  }

  lemma SortByMembers<T>(key: T -> int, s: seq<T>, x: T)
    ensures x in SortBy(key, s) <==> x in s
  {
    assert x in SortBy(key, s) <==> x in multiset(SortBy(key, s));
  }

  lemma {:induction false} InsertByKeepsKeyOrder<T>(key: T -> int, x: T, s: seq<T>, k: int)
    ensures Filter(HasKey(key, k), InsertBy(key, x, s))
         == (if key(x) == k then [x] else []) + Filter(HasKey(key, k), s)
  {
    if s == [] || key(x) <= key(s[0]) {
      assert ([x] + s)[1..] == s;
    } else {
      InsertByKeepsKeyOrder(key, x, s[1..], k);
      assert ([s[0]] + InsertBy(key, x, s[1..]))[1..] == InsertBy(key, x, s[1..]);
    }
  }

  /** Stability: the items with any one key keep their input order. */
  lemma {:induction false} SortByIsStable<T>(key: T -> int, s: seq<T>, k: int)
    ensures Filter(HasKey(key, k), SortBy(key, s)) == Filter(HasKey(key, k), s)
  {
    if s != [] {
      SortByIsStable(key, s[1..], k);
      InsertByKeepsKeyOrder(key, s[0], SortBy(key, s[1..]), k);
    }
  }

  /** Sorting an already sorted list changes nothing. */
  lemma {:induction false} SortByOfSorted<T>(key: T -> int, s: seq<T>)
    requires SortedBy(key, s)
    ensures SortBy(key, s) == s
  {
    if s != [] {
      SortByOfSorted(key, s[1..]);
      assert [s[0]] + s[1..] == s;
    }
  }

  // ---------------------------------------------------------------- partition, then sort each part

  /** `[...s.filter(p).sort(byKey), ...s.filter(q).sort(byKey)]`. */
  function PartitionSort<T>(p: T -> bool, q: T -> bool, key: T -> int, s: seq<T>): seq<T> {
    SortBy(key, Filter(p, s)) + SortBy(key, Filter(q, s))
  }

  lemma SortByPartMembers<T>(p: T -> bool, key: T -> int, s: seq<T>, i: int)
    requires 0 <= i < |SortBy(key, Filter(p, s))|
    ensures p(SortBy(key, Filter(p, s))[i])
  {
    var f := Filter(p, s);
    SortByMembers(key, f, SortBy(key, f)[i]);
    var j :| 0 <= j < |f| && f[j] == SortBy(key, f)[i];
  }

  /** Items of a part all pass that part's test. */
  lemma SortByPartAll<T>(p: T -> bool, key: T -> int, s: seq<T>)
    ensures forall i :: 0 <= i < |SortBy(key, Filter(p, s))| ==> p(SortBy(key, Filter(p, s))[i])
  {
    forall i | 0 <= i < |SortBy(key, Filter(p, s))| ensures p(SortBy(key, Filter(p, s))[i]) {
      SortByPartMembers(p, key, s, i);
    }
  }

  lemma AppendPositions<T>(a: seq<T>, b: seq<T>, p: T -> bool, q: T -> bool)
    requires forall i :: 0 <= i < |a| ==> p(a[i])
    requires forall j :: 0 <= j < |b| ==> q(b[j])
    ensures forall i :: 0 <= i < |a| ==> p((a + b)[i])
    ensures forall i :: |a| <= i < |a + b| ==> q((a + b)[i])
  {
    forall i | |a| <= i < |a + b| ensures q((a + b)[i]) {
      assert (a + b)[i] == b[i - |a|];
    }
  }

  lemma PartitionSortPositions<T>(p: T -> bool, q: T -> bool, key: T -> int, s: seq<T>)
    ensures forall i :: 0 <= i < |Filter(p, s)| ==> p(PartitionSort(p, q, key, s)[i])
    ensures forall i :: |Filter(p, s)| <= i < |PartitionSort(p, q, key, s)| ==> q(PartitionSort(p, q, key, s)[i])
  {
    var sp, sq := SortBy(key, Filter(p, s)), SortBy(key, Filter(q, s));
    SortByPartAll(p, key, s);
    SortByPartAll(q, key, s);
    AppendPositions(sp, sq, p, q);
  }

  /** The first |s.filter(p)| items pass `p` and the rest pass `q`. */
  lemma PartitionSortSegments<T>(p: T -> bool, q: T -> bool, key: T -> int, s: seq<T>)
    ensures |Filter(p, s)| <= |PartitionSort(p, q, key, s)|
    ensures forall i :: 0 <= i < |Filter(p, s)| ==> p(PartitionSort(p, q, key, s)[i])
    ensures forall i :: |Filter(p, s)| <= i < |PartitionSort(p, q, key, s)| ==> q(PartitionSort(p, q, key, s)[i])
  {
    PartitionSortPositions(p, q, key, s);
  }

  /** Each of the two segments is sorted by key. */
  lemma PartitionSortSorted<T>(p: T -> bool, q: T -> bool, key: T -> int, s: seq<T>)
    ensures |Filter(p, s)| <= |PartitionSort(p, q, key, s)|
    ensures SortedBy(key, PartitionSort(p, q, key, s)[..|Filter(p, s)|])
    ensures SortedBy(key, PartitionSort(p, q, key, s)[|Filter(p, s)|..])
  {
    var r, k := PartitionSort(p, q, key, s), |Filter(p, s)|;
    assert r[..k] == SortBy(key, Filter(p, s));
    assert r[k..] == SortBy(key, Filter(q, s));
  }

  /** What is kept: every occurrence of an item that passes `p` or `q`, and nothing else. */
  lemma PartitionSortMultiset<T>(p: T -> bool, q: T -> bool, key: T -> int, s: seq<T>, x: T)
    ensures multiset(PartitionSort(p, q, key, s))[x]
         == (if p(x) then multiset(s)[x] else 0) + (if q(x) then multiset(s)[x] else 0)
  {
    FilterMultiset(p, s, x);
    FilterMultiset(q, s, x);
  }

  /** When every item passes exactly one of the tests the result is a permutation. */
  lemma PartitionSortPermutes<T>(p: T -> bool, q: T -> bool, key: T -> int, s: seq<T>)
    requires forall i :: 0 <= i < |s| ==> p(s[i]) != q(s[i])
    ensures multiset(PartitionSort(p, q, key, s)) == multiset(s)
  {
    FilterComplement(p, q, s);
  }

  /** Items with key `k` keep their relative order within each part. */
  lemma PartitionSortStable<T>(p: T -> bool, q: T -> bool, key: T -> int, s: seq<T>, k: int)
    ensures Filter(HasKey(key, k), PartitionSort(p, q, key, s))
         == Filter(HasKey(key, k), Filter(p, s)) + Filter(HasKey(key, k), Filter(q, s))
  {
    FilterAppend(HasKey(key, k), SortBy(key, Filter(p, s)), SortBy(key, Filter(q, s)));
    SortByIsStable(key, Filter(p, s), k);
    SortByIsStable(key, Filter(q, s), k);
  }

  /** With exclusive tests, partitioning and sorting a second time changes nothing. */
  lemma PartitionSortIdempotent<T>(p: T -> bool, q: T -> bool, key: T -> int, s: seq<T>)
    requires forall i :: 0 <= i < |s| ==> !(p(s[i]) && q(s[i]))
    ensures PartitionSort(p, q, key, PartitionSort(p, q, key, s)) == PartitionSort(p, q, key, s)
  {
    var sp, sq := SortBy(key, Filter(p, s)), SortBy(key, Filter(q, s));
    forall i | 0 <= i < |sp| ensures p(sp[i]) && !q(sp[i]) {
      SortByPartMembers(p, key, s, i);
      SortByMembers(key, Filter(p, s), sp[i]);
      FilterMembership(p, s, sp[i]);
    }
    forall i | 0 <= i < |sq| ensures q(sq[i]) && !p(sq[i]) {
      SortByPartMembers(q, key, s, i);
      SortByMembers(key, Filter(q, s), sq[i]);
      FilterMembership(q, s, sq[i]);
    }
    FilterAppend(p, sp, sq);
    FilterKeepsAll(p, sp);
    FilterKeepsNone(p, sq);
    FilterAppend(q, sp, sq);
    FilterKeepsNone(q, sp);
    FilterKeepsAll(q, sq);
    assert sp + [] == sp && [] + sq == sq;
    SortByOfSorted(key, sp);
    SortByOfSorted(key, sq);
  }
}
