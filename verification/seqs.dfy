/** Order-preserving filtering of sequences: the model of JavaScript's
    `Array.prototype.filter`, which every removal and every view of the
    ledger is built from. */
module Seqs {

  /** The elements of `s` that satisfy `p`, in their original order. */
  function Filter<T>(s: seq<T>, p: T -> bool): (r: seq<T>)
    ensures |r| <= |s|
    ensures forall i | 0 <= i < |r| :: p(r[i]) && r[i] in s
    ensures forall i | 0 <= i < |s| && p(s[i]) :: s[i] in r
  {
    if |s| == 0 then []
    else (if p(s[0]) then [s[0]] else []) + Filter(s[1..], p)
  }

  /** Position of the first element satisfying `p`, or `|s|` when there is
      none: the search behind JavaScript's `Array.prototype.find`. */
  function FirstIndex<T>(s: seq<T>, p: T -> bool): (k: nat)
    ensures k <= |s|
    ensures forall j | 0 <= j < k :: !p(s[j])
    ensures k < |s| ==> p(s[k])
  {
    if |s| == 0 || p(s[0]) then 0 else 1 + FirstIndex(s[1..], p)
  }

  /** `f` applied to every element, as JavaScript's `Array.prototype.map`. */
  function Map<T, U>(s: seq<T>, f: T -> U): (r: seq<U>)
    ensures |r| == |s|
    ensures forall i | 0 <= i < |s| :: r[i] == f(s[i])
  {
    seq(|s|, i requires 0 <= i < |s| => f(s[i]))
  }

  /** Number of elements of `s` that satisfy `p`. */
  function Count<T>(s: seq<T>, p: T -> bool): (n: nat)
    ensures n <= |s|
    ensures n == 0 <==> forall i | 0 <= i < |s| :: !p(s[i])
    ensures n == |s| <==> forall i | 0 <= i < |s| :: p(s[i])
  {
    if |s| == 0 then 0
    else (if p(s[0]) then 1 else 0) + Count(s[1..], p)
  }

  /** Filtering distributes over concatenation: the filter keeps the
      relative order of the elements it retains. */
  lemma {:induction false} FilterConcat<T>(a: seq<T>, b: seq<T>, p: T -> bool)
    ensures Filter(a + b, p) == Filter(a, p) + Filter(b, p)
    decreases |a|
  {
    if |a| == 0 {
      assert a + b == b;
    } else {
      assert (a + b)[1..] == a[1..] + b;
      FilterConcat(a[1..], b, p);
    }
  }

  /** Filtering a sequence with a known first element. */
  lemma FilterCons<T>(x: T, s: seq<T>, p: T -> bool)
    ensures Filter([x] + s, p) == (if p(x) then [x] else []) + Filter(s, p)
  {
    assert ([x] + s)[1..] == s;
  }

  /** The filter keeps exactly `Count` elements. */
  lemma {:induction false} FilterLength<T>(s: seq<T>, p: T -> bool)
    ensures |Filter(s, p)| == Count(s, p)
    decreases |s|
  {
    if |s| > 0 {
      FilterLength(s[1..], p);
    }
  }

  /** A filter and its complement split the sequence: their lengths add up. */
  lemma {:induction false} FilterComplement<T>(s: seq<T>, p: T -> bool, q: T -> bool)
    requires forall x :: q(x) == !p(x)
    ensures |Filter(s, p)| + |Filter(s, q)| == |s|
    decreases |s|
  {
    if |s| > 0 {
      FilterComplement(s[1..], p, q);
    }
  }

  /** Filtering with a predicate every element satisfies changes nothing. */
  lemma {:induction false} FilterAll<T>(s: seq<T>, p: T -> bool)
    requires forall i | 0 <= i < |s| :: p(s[i])
    ensures Filter(s, p) == s
    decreases |s|
  {
    if |s| > 0 {
      FilterAll(s[1..], p);
    }
  }

  /** Counting distributes over concatenation. */
  lemma {:induction false} CountConcat<T>(a: seq<T>, b: seq<T>, p: T -> bool)
    ensures Count(a + b, p) == Count(a, p) + Count(b, p)
    decreases |a|
  {
    if |a| == 0 {
      assert a + b == b;
    } else {
      assert (a + b)[1..] == a[1..] + b;
      CountConcat(a[1..], b, p);
    }
  }

  /** Two sequences of equal length whose elements agree position by
      position on the two predicates have the same counts. */
  lemma {:induction false} CountPointwise<T, U>(a: seq<T>, b: seq<U>, p: T -> bool, q: U -> bool)
    requires |a| == |b|
    requires forall j | 0 <= j < |a| :: p(a[j]) == q(b[j])
    ensures Count(a, p) == Count(b, q)
    decreases |a|
  {
    if |a| > 0 {
      CountPointwise(a[1..], b[1..], p, q);
    }
  }

  /** Filtering out only elements that `q` rejects leaves the `q`-count alone. */
  lemma {:induction false} CountAfterFilter<T>(s: seq<T>, p: T -> bool, q: T -> bool)
    requires forall i | 0 <= i < |s| :: q(s[i]) ==> p(s[i])
    ensures Count(Filter(s, p), q) == Count(s, q)
    decreases |s|
  {
    if |s| > 0 {
      CountAfterFilter(s[1..], p, q);
      var h := if p(s[0]) then [s[0]] else [];
      CountConcat(h, Filter(s[1..], p), q);
    }
  }

  /** No two positions of `s` carry the same key. */
  predicate DistinctKeys<T, K(==)>(s: seq<T>, key: T -> K) {
    forall i, j | 0 <= i < j < |s| :: key(s[i]) != key(s[j])
  }

  /** Under distinct keys, two positions with the same key are one position. */
  lemma SameKeySamePosition<T, K>(s: seq<T>, key: T -> K, i: nat, j: nat)
    requires DistinctKeys(s, key) && i < |s| && j < |s| && key(s[i]) == key(s[j])
    ensures i == j
  {
  }

  /** Filtering keeps keys distinct when they were distinct. */
  lemma {:induction false} FilterKeepsDistinct<T, K>(s: seq<T>, p: T -> bool, key: T -> K)
    requires DistinctKeys(s, key)
    ensures DistinctKeys(Filter(s, p), key)
    decreases |s|
  {
    if |s| > 0 {
      var tail := s[1..];
      FilterKeepsDistinct(tail, p, key);
      var ft := Filter(tail, p);
      forall i | 0 <= i < |ft|
        ensures key(ft[i]) != key(s[0])
      {
        var k :| 0 <= k < |tail| && tail[k] == ft[i];
        assert s[k + 1] == ft[i];
      }
      var r := Filter(s, p);
      if p(s[0]) {
        assert r == [s[0]] + ft;
        forall i, j | 0 <= i < j < |r|
          ensures key(r[i]) != key(r[j])
        {
          assert r[j] == ft[j - 1];
          if i > 0 {
            assert r[i] == ft[i - 1];
            assert key(ft[i - 1]) != key(ft[j - 1]);
          } else {
            assert r[i] == s[0];
            assert key(ft[j - 1]) != key(s[0]);
          }
        }
      } else {
        assert r == ft;
      }
    }
  }
}
