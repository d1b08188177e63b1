/** Facts about sequences and finite sets used by the tour algorithms. */
module Collections {

  /** The set of values held by a sequence. */
  function Elems<T(==)>(s: seq<T>): set<T>
  {
    set x | x in s
  }

  /** No value occurs twice. */
  predicate Distinct<T(==)>(s: seq<T>)
  {
    forall a, b :: 0 <= a < b < |s| ==> s[a] != s[b]
  }

  /** Every value is an index below n. */
  predicate InRange(s: seq<nat>, n: nat)
  {
    forall k :: 0 <= k < |s| ==> s[k] < n
  }

  /** The indices 0 .. n-1. */
  function Range(n: nat): (r: set<nat>)
    ensures forall k: nat :: k in r <==> k < n
  {
    if n == 0 then {} else Range(n - 1) + {n - 1}
  }

  lemma {:induction false} RangeSize(n: nat)
    ensures |Range(n)| == n
  {
    if n > 0 {
      RangeSize(n - 1);
    }
  }

  lemma SubsetSize<T>(a: set<T>, b: set<T>)
    requires a <= b
    ensures |a| <= |b|
    ensures |a| == |b| ==> a == b
  {
    assert b == a + (b - a);
    assert |b| == |a| + |b - a|;
    if |a| == |b| {
      assert |b - a| == 0;
      assert b - a == {};
    }
  }

  /** A set of indices below n with fewer than n members misses one of them. */
  lemma MissingIndex(s: set<nat>, n: nat)
    requires forall x :: x in s ==> x < n
    requires |s| < n
    ensures exists k :: 0 <= k < n && k !in s
  {
    RangeSize(n);
    if forall k :: 0 <= k < n ==> k in s {
      assert Range(n) <= s;
      SubsetSize(Range(n), s);
    }
  }

  /** A set of indices below n with n members holds all of them. */
  lemma FullRange(s: set<nat>, n: nat)
    requires forall x :: x in s ==> x < n
    requires |s| >= n
    ensures |s| == n
    ensures forall k :: 0 <= k < n ==> k in s
  {
    RangeSize(n);
    assert s <= Range(n);
    SubsetSize(s, Range(n));
  }

  /** Array.prototype.reverse, as a value. */
  function Reverse<T>(s: seq<T>): (r: seq<T>)
    ensures |r| == |s|
    ensures multiset(r) == multiset(s)
    ensures forall k :: 0 <= k < |s| ==> r[k] == s[|s| - 1 - k]
  {
    if s == [] then []
    else
      assert s == [s[0]] + s[1..];
      Reverse(s[1..]) + [s[0]]
  }

  /** How many times `x` occurs in `s`. */
  function Count<T(==)>(s: seq<T>, x: T): nat
  {
    if s == [] then 0 else Count(s[..|s| - 1], x) + (if s[|s| - 1] == x then 1 else 0)
  }

  /** n copies of x. */
  function Repeat<T>(x: T, n: nat): (r: seq<T>)
    ensures |r| == n && forall i :: 0 <= i < n ==> r[i] == x
  {
    if n == 0 then [] else Repeat(x, n - 1) + [x]
  }

  /** Appending m copies of `k` adds m to k's count and nothing to the others'. */
  lemma {:induction false} CountAppendCopies<T>(s: seq<T>, k: T, m: nat, x: T)
    ensures Count(s + Repeat(k, m), x) == Count(s, x) + (if x == k then m else 0)
  {
    if m > 0 {
      var t := s + Repeat(k, m - 1);
      assert s + Repeat(k, m) == t + [k];
      assert (t + [k])[..|t + [k]| - 1] == t;
      CountAppendCopies(s, k, m - 1, x);
    } else {
      assert s + Repeat(k, m) == s;
    }
  }

  /** A value that does not occur has count zero. */
  lemma {:induction false} CountAbsent<T>(s: seq<T>, x: T)
    requires x !in s
    ensures Count(s, x) == 0
  {
    if s != [] {
      CountAbsent(s[..|s| - 1], x);
    }
  }

  /**
   * Appending n copies of k to indices below k: the earlier indices keep
   * their counts and k is counted n times.
   */
  lemma CountsAfterCopies(s: seq<nat>, k: nat, n: nat)
    requires InRange(s, k)
    ensures forall j: nat :: j < k ==> Count(s + Repeat(k, n), j) == Count(s, j)
    ensures Count(s + Repeat(k, n), k) == n
  {
    assert k !in s;
    CountAbsent(s, k);
    forall j: nat | j < k + 1
      ensures Count(s + Repeat(k, n), j) == Count(s, j) + (if j == k then n else 0)
    {
      CountAppendCopies(s, k, n, j);
    }
  }

  /** A sequence has no repeated value exactly when no value occurs twice in its multiset. */
  lemma {:induction false} DistinctCounts<T>(s: seq<T>)
    ensures Distinct(s) <==> forall x :: multiset(s)[x] <= 1
  {
    if s != [] {
      var p, y := s[..|s| - 1], s[|s| - 1];
      assert s == p + [y];
      DistinctCounts(p);
      if Distinct(s) {
        assert Distinct(p);
        assert y !in p;
        assert multiset(p)[y] == 0;
      }
      if forall x :: multiset(s)[x] <= 1 {
        assert forall x :: multiset(p)[x] <= multiset(s)[x];
        assert multiset(p)[y] == 0;
        forall a, b | 0 <= a < b < |s| ensures s[a] != s[b] {
          if b < |s| - 1 {
            assert s[a] == p[a] && s[b] == p[b];
          } else {
            assert p[a] in multiset(p);
          }
        }
      }
    }
  }

  /** Rearranging a sequence without repeats gives one without repeats. */
  lemma DistinctPermutation<T>(a: seq<T>, b: seq<T>)
    requires multiset(a) == multiset(b) && Distinct(a)
    ensures Distinct(b)
  {
    DistinctCounts(a);
    DistinctCounts(b);
  }
}
