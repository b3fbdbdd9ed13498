/** Sequence operations shared by the services: consecutive batching (Guava's
    `Lists.partition` and the services' own index loops), stream `filter`, the stable
    sort of `List.sort`/`Stream.sorted`, and the append-if-absent of a `LinkedHashSet`. */
module Seqs {

  // ---------------------------------------------------------------------------
  // Batching
  // ---------------------------------------------------------------------------

  /** Consecutive batches of `size` elements; the last one may be shorter. */
  function Partition<T>(s: seq<T>, size: nat): seq<seq<T>>
    requires size > 0
    decreases |s|
  {
    if |s| == 0 then []
    else
      var end := if |s| < size then |s| else size;
      [s[..end]] + Partition(s[end..], size)
  }

  /** The batches laid end to end. */
  function Flatten<T>(ss: seq<seq<T>>): seq<T>
  {
    if ss == [] then [] else ss[0] + Flatten(ss[1..])
  }

  /** Number of batches: the ceiling of `n / size`. */
  function CeilDiv(n: nat, size: nat): nat
    requires size > 0
  {
    (n + size - 1) / size
  }

  lemma {:induction false} FlattenAppend<T>(a: seq<seq<T>>, b: seq<seq<T>>)
    ensures Flatten(a + b) == Flatten(a) + Flatten(b)
  {
    if a == [] {
      assert a + b == b;
    } else {
      assert (a + b)[0] == a[0] && (a + b)[1..] == a[1..] + b;
      FlattenAppend(a[1..], b);
    }
  }

  /** The batches cover the input exactly once and in order. */
  lemma {:induction false} PartitionFlattens<T>(s: seq<T>, size: nat)
    requires size > 0
    ensures Flatten(Partition(s, size)) == s
  {
    if |s| > 0 {
      var end := if |s| < size then |s| else size;
      PartitionFlattens(s[end..], size);
      assert Partition(s, size)[1..] == Partition(s[end..], size);
      assert s == s[..end] + s[end..];
    }
  }

  lemma MultipleBelowDivisor(k: int, d: int)
    requires d > 0 && -d < k * d < d
    ensures k == 0
  {
  }

  /** Euclidean division has a unique quotient. */
  lemma DivUnique(x: int, d: int, q: int, r: int)
    requires d > 0 && 0 <= r < d && x == q * d + r
    ensures x / d == q
  {
    assert (q - x / d) * d == x % d - r;
    MultipleBelowDivisor(q - x / d, d);
  }

  lemma CeilDivStep(n: nat, size: nat)
    requires size > 0 && n >= size
    ensures CeilDiv(n, size) == CeilDiv(n - size, size) + 1
  {
    var m := n - size + size - 1;
    DivUnique(m, size, m / size, m % size);
    DivUnique(m + size, size, m / size + 1, m % size);
  }

  lemma CeilDivOfShort(n: nat, size: nat)
    requires 0 < n < size
    ensures CeilDiv(n, size) == 1
  {
    DivUnique(n + size - 1, size, 1, n - 1);
  }

  /** The batches from position `i` on: the next batch, then the batches after it. */
  lemma PartitionStep<T>(s: seq<T>, i: nat, size: nat)
    requires size > 0 && i < |s|
    ensures var end := if i + size < |s| then i + size else |s|;
            Partition(s[i..], size) == [s[i..end]] + Partition(s[end..], size)
  {
    var end := if i + size < |s| then i + size else |s|;
    assert s[i..][..end - i] == s[i..end];
    assert s[i..][end - i..] == s[end..];
  }

  /** Proof helper: a loop that has cut `batches` off the front of `s` and stands
      at `i` cuts one more. */
  lemma PartitionAdvance<T>(s: seq<T>, i: nat, size: nat, batches: seq<seq<T>>)
    requires size > 0 && i < |s|
    requires Partition(s, size) == batches + Partition(s[i..], size)
    ensures var end := if i + size < |s| then i + size else |s|;
            Partition(s, size) == (batches + [s[i..end]]) + Partition(s[end..], size)
  {
    PartitionStep(s, i, size);
  }

  /** There are ceil(|s| / size) batches. */
  lemma {:induction false} PartitionCount<T>(s: seq<T>, size: nat)
    requires size > 0
    ensures |Partition(s, size)| == CeilDiv(|s|, size)
  {
    if |s| == 0 {
      DivUnique(size - 1, size, 0, size - 1);
    } else if |s| < size {
      CeilDivOfShort(|s|, size);
    } else {
      PartitionCount(s[size..], size);
      CeilDivStep(|s|, size);
    }
  }

  /** No batch is empty; all but the last hold exactly `size` elements, and the last
      holds at most `size`. */
  lemma {:induction false} PartitionSizes<T>(s: seq<T>, size: nat)
    requires size > 0
    ensures forall i :: 0 <= i < |Partition(s, size)| ==> 0 < |Partition(s, size)[i]| <= size
    ensures forall i :: 0 <= i < |Partition(s, size)| - 1 ==> |Partition(s, size)[i]| == size
  {
    if |s| > 0 {
      var end := if |s| < size then |s| else size;
      PartitionSizes(s[end..], size);
      var p := Partition(s, size);
      assert p[0] == s[..end] && p[1..] == Partition(s[end..], size);
      assert forall i :: 1 <= i < |p| ==> p[i] == p[1..][i - 1];
      if |s| < size {
        assert |p| == 1;
      }
    }
  }

  // ---------------------------------------------------------------------------
  // Filtering
  // ---------------------------------------------------------------------------

  /** `stream().filter(p)`: the elements satisfying `p`, in their original order. */
  function Filter<T>(s: seq<T>, p: T -> bool): (r: seq<T>)
    ensures |r| <= |s|
    ensures forall i :: 0 <= i < |r| ==> r[i] in s && p(r[i])
    ensures forall i :: 0 <= i < |s| && p(s[i]) ==> s[i] in r
    decreases |s|
  {
    if s == [] then []
    else (if p(s[0]) then [s[0]] else []) + Filter(s[1..], p)
  }

  /** `f` applied to each element, in order. */
  function Map<A, B>(s: seq<A>, f: A -> B): (r: seq<B>)
    ensures |r| == |s|
    ensures forall i :: 0 <= i < |s| ==> r[i] == f(s[i])
    decreases |s|
  {
    if s == [] then [] else [f(s[0])] + Map(s[1..], f)
  }

  lemma {:induction false} MapAppend<A, B>(a: seq<A>, b: seq<A>, f: A -> B)
    ensures Map(a + b, f) == Map(a, f) + Map(b, f)
  {
    assert |Map(a + b, f)| == |Map(a, f) + Map(b, f)|;
  }

  /** Mapping a permutation gives a permutation. */
  lemma {:induction false} MapPermutation<A, B>(a: seq<A>, b: seq<A>, f: A -> B)
    requires multiset(a) == multiset(b)
    ensures multiset(Map(a, f)) == multiset(Map(b, f))
    decreases |a|
  {
    if a != [] {
      var x := a[0];
      assert x in multiset(a);
      var k :| 0 <= k < |b| && b[k] == x;
      var rest := b[..k] + b[k + 1..];
      assert b == b[..k] + [x] + b[k + 1..];
      assert a == [x] + a[1..];
      assert multiset(a[1..]) == multiset(a) - multiset{x};
      assert multiset(rest) == multiset(b) - multiset{x};
      MapPermutation(a[1..], rest, f);
      MapAppend([x], a[1..], f);
      MapAppend(b[..k] + [x], b[k + 1..], f);
      MapAppend(b[..k], [x], f);
      MapAppend(b[..k], b[k + 1..], f);
    }
  }

  /** A filter of a duplicate-free sequence is duplicate-free. */
  lemma {:induction false} FilterNoDuplicates<T>(s: seq<T>, p: T -> bool)
    requires NoDuplicates(s)
    ensures NoDuplicates(Filter(s, p))
    decreases |s|
  {
    if s != [] {
      var t := s[1..];
      assert NoDuplicates(t) by {
        forall i, j | 0 <= i < j < |t| ensures t[i] != t[j] {
          assert t[i] == s[i + 1] && t[j] == s[j + 1];
        }
      }
      FilterNoDuplicates(t, p);
      assert s[0] !in t by {
        forall k | 0 <= k < |t| ensures t[k] != s[0] {
          assert t[k] == s[k + 1];
        }
      }
    }
  }

  /** No two elements share a key. */
  predicate DistinctKeys<T>(s: seq<T>, key: T -> int)
  {
    forall i, j :: 0 <= i < j < |s| ==> key(s[i]) != key(s[j])
  }

  /** A filter of a sequence with distinct keys has distinct keys. */
  lemma {:induction false} FilterDistinctKeys<T>(s: seq<T>, p: T -> bool, key: T -> int)
    requires DistinctKeys(s, key)
    ensures DistinctKeys(Filter(s, p), key)
    decreases |s|
  {
    if s != [] {
      var t := s[1..];
      assert DistinctKeys(t, key) by {
        forall i, j | 0 <= i < j < |t| ensures key(t[i]) != key(t[j]) {
          assert t[i] == s[i + 1] && t[j] == s[j + 1];
        }
      }
      FilterDistinctKeys(t, p, key);
      var rest := Filter(t, p);
      if p(s[0]) {
        var r := Filter(s, p);
        assert r == [s[0]] + rest;
        forall i, j | 0 <= i < j < |r| ensures key(r[i]) != key(r[j]) {
          assert r[j] == rest[j - 1];
          if i == 0 {
            var k :| 0 <= k < |t| && t[k] == rest[j - 1];
            assert t[k] == s[k + 1];
          } else {
            assert r[i] == rest[i - 1];
          }
        }
      } else {
        assert Filter(s, p) == [] + rest;
      }
    }
  }

  /** Every two elements, the earlier first, stand in relation `ok`. */
  predicate Pairwise<T>(s: seq<T>, ok: (T, T) -> bool)
  {
    forall i, j :: 0 <= i < j < |s| ==> ok(s[i], s[j])
  }

  /** A filter keeps a pairwise relation. */
  lemma {:induction false} FilterPairwise<T>(s: seq<T>, p: T -> bool, ok: (T, T) -> bool)
    requires Pairwise(s, ok)
    ensures Pairwise(Filter(s, p), ok)
    decreases |s|
  {
    if s != [] {
      var t := s[1..];
      assert Pairwise(t, ok) by {
        forall i, j | 0 <= i < j < |t| ensures ok(t[i], t[j]) {
          assert t[i] == s[i + 1] && t[j] == s[j + 1];
        }
      }
      FilterPairwise(t, p, ok);
      var rest := Filter(t, p);
      if p(s[0]) {
        var r := Filter(s, p);
        assert r == [s[0]] + rest;
        forall i, j | 0 <= i < j < |r| ensures ok(r[i], r[j]) {
          assert r[j] == rest[j - 1];
          if i == 0 {
            var k :| 0 <= k < |t| && t[k] == rest[j - 1];
            assert t[k] == s[k + 1];
          } else {
            assert r[i] == rest[i - 1];
          }
        }
      } else {
        assert Filter(s, p) == [] + rest;
      }
    }
  }

  /** `a` is obtained from `b` by deleting elements (order kept). */
  predicate IsSubsequence<T(==)>(a: seq<T>, b: seq<T>)
    decreases |b|
  {
    if a == [] then true
    else if b == [] then false
    else (a[0] == b[0] && IsSubsequence(a[1..], b[1..])) || IsSubsequence(a, b[1..])
  }

  /** A filter keeps the surviving elements in their original order. */
  lemma {:induction false} FilterIsSubsequence<T>(s: seq<T>, p: T -> bool)
    ensures IsSubsequence(Filter(s, p), s)
  {
    if s != [] {
      FilterIsSubsequence(s[1..], p);
      var r := Filter(s, p);
      if p(s[0]) {
        assert r == [s[0]] + Filter(s[1..], p);
        assert r[0] == s[0] && r[1..] == Filter(s[1..], p);
      } else {
        assert r == [] + Filter(s[1..], p);
        assert r == Filter(s[1..], p);
      }
    }
  }

  /** Filtering twice with the same predicate is filtering once. */
  lemma {:induction false} FilterIdempotent<T>(s: seq<T>, p: T -> bool)
    ensures Filter(Filter(s, p), p) == Filter(s, p)
  {
    if s != [] {
      FilterIdempotent(s[1..], p);
      var r := Filter(s, p);
      if p(s[0]) {
        assert r == [s[0]] + Filter(s[1..], p);
        assert r[0] == s[0] && r[1..] == Filter(s[1..], p);
        assert Filter(r, p) == [s[0]] + Filter(r[1..], p);
      } else {
        assert r == [] + Filter(s[1..], p);
        assert r == Filter(s[1..], p);
      }
    }
  }

  /** Two filters in a row are one filter on the conjunction. */
  lemma {:induction false} FilterFusion<T>(s: seq<T>, p: T -> bool, q: T -> bool, pq: T -> bool)
    requires forall x :: pq(x) == (p(x) && q(x))
    ensures Filter(Filter(s, p), q) == Filter(s, pq)
  {
    if s != [] {
      FilterFusion(s[1..], p, q, pq);
      var r := Filter(s, p);
      if p(s[0]) {
        assert r == [s[0]] + Filter(s[1..], p);
        assert r[0] == s[0] && r[1..] == Filter(s[1..], p);
        if q(s[0]) {
          assert Filter(r, q) == [s[0]] + Filter(r[1..], q);
        } else {
          assert Filter(r, q) == [] + Filter(r[1..], q);
        }
        assert Filter(s, pq) == (if pq(s[0]) then [s[0]] else []) + Filter(s[1..], pq);
      } else {
        assert r == [] + Filter(s[1..], p);
        assert r == Filter(s[1..], p);
        assert Filter(s, pq) == [] + Filter(s[1..], pq);
        assert Filter(s, pq) == Filter(s[1..], pq);
      }
    }
  }

  /** A predicate that holds everywhere keeps everything. */
  lemma {:induction false} FilterAll<T>(s: seq<T>, p: T -> bool)
    requires forall i :: 0 <= i < |s| ==> p(s[i])
    ensures Filter(s, p) == s
  {
    if s != [] {
      FilterAll(s[1..], p);
      assert s == [s[0]] + s[1..];
    }
  }

  lemma {:induction false} FilterAppend<T>(a: seq<T>, b: seq<T>, p: T -> bool)
    ensures Filter(a + b, p) == Filter(a, p) + Filter(b, p)
  {
    if a != [] {
      assert (a + b)[0] == a[0] && (a + b)[1..] == a[1..] + b;
      FilterAppend(a[1..], b, p);
    } else {
      assert a + b == b;
    }
  }

  // ---------------------------------------------------------------------------
  // Stable sorting by an integer key
  // ---------------------------------------------------------------------------

  predicate SortedBy<T>(s: seq<T>, key: T -> int)
  {
    forall i, j :: 0 <= i < j < |s| ==> key(s[i]) <= key(s[j])
  }

  /** Inserts `x` before the first element whose key is not smaller. */
  function Insert<T>(x: T, s: seq<T>, key: T -> int): seq<T>
  {
    if s == [] then [x]
    else if key(x) <= key(s[0]) then [x] + s
    else [s[0]] + Insert(x, s[1..], key)
  }

  /** Stable ascending sort by `key` (equal keys keep their input order), as Java's
      `List.sort` and `Stream.sorted` with `Comparator.comparing(key)`. */
  function SortBy<T>(s: seq<T>, key: T -> int): seq<T>
  {
    if s == [] then [] else Insert(s[0], SortBy(s[1..], key), key)
  }

  predicate AllAtLeast<T>(s: seq<T>, key: T -> int, bound: int)
  {
    forall k :: 0 <= k < |s| ==> bound <= key(s[k])
  }

  lemma {:induction false} InsertAtLeast<T>(x: T, s: seq<T>, key: T -> int, bound: int)
    requires bound <= key(x) && AllAtLeast(s, key, bound)
    ensures AllAtLeast(Insert(x, s, key), key, bound)
  {
    if s != [] && key(x) > key(s[0]) {
      InsertAtLeast(x, s[1..], key, bound);
      var t := Insert(x, s[1..], key);
      assert Insert(x, s, key) == [s[0]] + t;
    }
  }

  lemma {:induction false} InsertPermutes<T>(x: T, s: seq<T>, key: T -> int)
    ensures multiset(Insert(x, s, key)) == multiset(s) + multiset{x}
  {
    if s != [] && key(x) > key(s[0]) {
      InsertPermutes(x, s[1..], key);
      assert s == [s[0]] + s[1..];
    }
  }

  lemma PrependSorted<T>(x: T, s: seq<T>, key: T -> int)
    requires SortedBy(s, key) && AllAtLeast(s, key, key(x))
    ensures SortedBy([x] + s, key)
  {
    var r := [x] + s;
    forall i, j | 0 <= i < j < |r| ensures key(r[i]) <= key(r[j]) {
      assert r[j] == s[j - 1];
      if i > 0 {
        assert r[i] == s[i - 1];
      }
    }
  }

  lemma {:induction false} InsertSorted<T>(x: T, s: seq<T>, key: T -> int)
    requires SortedBy(s, key)
    ensures SortedBy(Insert(x, s, key), key)
  {
    if s == [] {
      assert SortedBy([x], key);
    } else if key(x) <= key(s[0]) {
      assert AllAtLeast(s, key, key(x)) by {
        forall k | 0 <= k < |s| ensures key(x) <= key(s[k]) {
          if k > 0 {
            assert key(s[0]) <= key(s[k]);
          }
        }
      }
      PrependSorted(x, s, key);
    } else {
      InsertSorted(x, s[1..], key);
      assert AllAtLeast(s[1..], key, key(s[0])) by {
        forall k | 0 <= k < |s[1..]| ensures key(s[0]) <= key(s[1..][k]) {
          assert s[1..][k] == s[k + 1];
        }
      }
      InsertAtLeast(x, s[1..], key, key(s[0]));
      PrependSorted(s[0], Insert(x, s[1..], key), key);
    }
  }

  /** The sort yields an ordered permutation of its input. */
  lemma {:induction false} SortBySorts<T>(s: seq<T>, key: T -> int)
    ensures SortedBy(SortBy(s, key), key)
    ensures multiset(SortBy(s, key)) == multiset(s)
  {
    if s != [] {
      SortBySorts(s[1..], key);
      InsertSorted(s[0], SortBy(s[1..], key), key);
      InsertPermutes(s[0], SortBy(s[1..], key), key);
      assert s == [s[0]] + s[1..];
    }
  }

  // ---------------------------------------------------------------------------
  // Insertion-ordered sets (LinkedHashSet)
  // ---------------------------------------------------------------------------

  predicate NoDuplicates<T(==)>(s: seq<T>)
  {
    forall i, j :: 0 <= i < j < |s| ==> s[i] != s[j]
  }

  /** `LinkedHashSet.add`: appends `x` unless an equal element is present. */
  function AppendIfAbsent<T(==)>(s: seq<T>, x: T): seq<T>
  {
    if x in s then s else s + [x]
  }

  /** Adding keeps the set free of duplicates, always contains the element afterwards,
      never loses an element and is idempotent. */
  lemma AppendIfAbsentProperties<T>(s: seq<T>, x: T)
    requires NoDuplicates(s)
    ensures NoDuplicates(AppendIfAbsent(s, x))
    ensures x in AppendIfAbsent(s, x)
    ensures forall y :: y in s ==> y in AppendIfAbsent(s, x)
    ensures AppendIfAbsent(AppendIfAbsent(s, x), x) == AppendIfAbsent(s, x)
  {
  }

  /** `new LinkedHashSet<>(list)` / `Collectors.toSet()` on an ordered stream: the
      elements in first-occurrence order, each once. */
  function Distinct<T(==,!new)>(s: seq<T>): (r: seq<T>)
    ensures NoDuplicates(r)
    ensures forall x :: x in r <==> x in s
    ensures |r| <= |s|
  {
    DistinctFrom([], s)
  }

  function DistinctFrom<T(==,!new)>(acc: seq<T>, s: seq<T>): (r: seq<T>)
    requires NoDuplicates(acc)
    ensures NoDuplicates(r)
    ensures forall x :: x in r <==> x in acc || x in s
    ensures |r| <= |acc| + |s|
    decreases |s|
  {
    if s == [] then acc else DistinctFrom(AppendIfAbsent(acc, s[0]), s[1..])
  }

  /** On a sequence already free of duplicates, `Distinct` changes nothing: the
      set keeps the order of its input. */
  lemma {:induction false} DistinctOfDistinct<T(!new)>(acc: seq<T>, s: seq<T>)
    requires NoDuplicates(acc) && NoDuplicates(acc + s)
    ensures DistinctFrom(acc, s) == acc + s
    decreases |s|
  {
    if s != [] {
      assert s[0] !in acc by {
        forall k | 0 <= k < |acc| ensures acc[k] != s[0] {
          assert (acc + s)[k] == acc[k] && (acc + s)[|acc|] == s[0];
        }
      }
      assert AppendIfAbsent(acc, s[0]) + s[1..] == acc + s;
      assert AppendIfAbsent(acc, s[0]) == (acc + s)[..|acc| + 1];
      DistinctOfDistinct(AppendIfAbsent(acc, s[0]), s[1..]);
    }
  }

  /** A duplicate-free sequence holds each element at most once. */
  lemma {:induction false} NoDuplicatesCounts<T>(s: seq<T>)
    requires NoDuplicates(s)
    ensures forall x :: multiset(s)[x] <= 1
  {
    if s != [] {
      var t := s[1..];
      assert NoDuplicates(t) by {
        forall i, j | 0 <= i < j < |t| ensures t[i] != t[j] {
          assert t[i] == s[i + 1] && t[j] == s[j + 1];
        }
      }
      NoDuplicatesCounts(t);
      assert s == [s[0]] + t;
      assert s[0] !in t by {
        forall k | 0 <= k < |t| ensures t[k] != s[0] {
          assert t[k] == s[k + 1];
        }
      }
    }
  }

  /** A permutation of a duplicate-free sequence is duplicate-free. */
  lemma PermutationKeepsNoDuplicates<T>(a: seq<T>, b: seq<T>)
    requires multiset(a) == multiset(b) && NoDuplicates(a)
    ensures NoDuplicates(b)
  {
    NoDuplicatesCounts(a);
    forall i, j | 0 <= i < j < |b| ensures b[i] != b[j] {
      assert b == b[..i] + [b[i]] + b[i + 1..j] + [b[j]] + b[j + 1..];
      assert multiset(b)[b[i]] >= 1 + multiset([b[j]])[b[i]];
    }
  }

  /** `new ArrayList<>(set)`: the elements of a set, each once, in some order. */
  method SetToSeq<T>(s: set<T>) returns (r: seq<T>)
    ensures NoDuplicates(r)
    ensures forall x :: x in r <==> x in s
    ensures |r| == |s|
  {
    r := [];
    var remaining := s;
    while remaining != {}
      invariant remaining <= s
      invariant NoDuplicates(r)
      invariant forall x :: x in r <==> x in s && x !in remaining
      invariant |r| + |remaining| == |s|
      decreases remaining
    {
      var x :| x in remaining;
      r := r + [x];
      remaining := remaining - {x};
    }
  }
}
