/**
 * `itertools.combinations(pool, k)`: every choice of `k` elements of `pool`
 * by position, in lexicographic order of the chosen positions.
 */
module Itertools {

  /** Strictly increasing positions. */
  predicate Increasing(c: seq<nat>)
  {
    forall a, b :: 0 <= a < b < |c| ==> c[a] < c[b]
  }

  predicate InRange(c: seq<nat>, lo: nat, n: nat)
  {
    forall t :: 0 <= t < |c| ==> lo <= c[t] < n
  }

  /** `a` comes strictly before `b` in lexicographic order. */
  predicate LexLess(a: seq<nat>, b: seq<nat>)
  {
    |a| > 0 && |b| > 0 && (a[0] < b[0] || (a[0] == b[0] && LexLess(a[1..], b[1..])))
  }

  /** Every earlier entry comes lexicographically before every later one. */
  predicate LexSorted(cs: seq<seq<nat>>)
  {
    forall i, j :: 0 <= i < j < |cs| ==> LexLess(cs[i], cs[j])
  }

  /** Lexicographic order is a strict order: no two sequences precede each other. */
  lemma {:induction false} LexLessAsymmetric(a: seq<nat>, b: seq<nat>)
    ensures !(LexLess(a, b) && LexLess(b, a))
    decreases |a|
  {
    if |a| > 0 && |b| > 0 && a[0] == b[0] {
      LexLessAsymmetric(a[1..], b[1..]);
    }
  }

  /** In a lexicographically sorted list, an entry that precedes another sits before it. */
  lemma SortedPositions(cs: seq<seq<nat>>)
    requires LexSorted(cs)
    ensures forall i, j :: 0 <= i < |cs| && 0 <= j < |cs| && LexLess(cs[j], cs[i]) ==> j < i
  {
    forall i, j | 0 <= i < |cs| && 0 <= j < |cs| && LexLess(cs[j], cs[i]) ensures j < i {
      LexLessAsymmetric(cs[i], cs[j]);
      LexLessAsymmetric(cs[j], cs[j]);
    }
  }

  function Binomial(n: nat, k: nat): nat
  {
    if k == 0 then 1 else if n == 0 then 0 else Binomial(n - 1, k - 1) + Binomial(n - 1, k)
  }

  function PrependAll(x: nat, cs: seq<seq<nat>>): (r: seq<seq<nat>>)
    ensures |r| == |cs|
    ensures forall i :: 0 <= i < |cs| ==> r[i] == [x] + cs[i]
  {
    seq(|cs|, i requires 0 <= i < |cs| => [x] + cs[i])
  }

  /**
   * The `k`-element increasing choices from the positions `lo .. n-1`:
   * first those that take `lo`, then those that skip it.
   */
  function IndexCombinations(lo: nat, n: nat, k: nat): (r: seq<seq<nat>>)
    requires lo <= n
    ensures forall i :: 0 <= i < |r| ==> |r[i]| == k && Increasing(r[i]) && InRange(r[i], lo, n)
    decreases n - lo
  {
    if k == 0 then [[]]
    else if lo == n then []
    else
      var taken := IndexCombinations(lo + 1, n, k - 1);
      var skipped := IndexCombinations(lo + 1, n, k);
      assert forall i :: 0 <= i < |taken| ==> Increasing([lo] + taken[i]) by {
        forall i | 0 <= i < |taken| ensures Increasing([lo] + taken[i]) {
          var c := [lo] + taken[i];
          assert forall t :: 1 <= t < |c| ==> c[t] == taken[i][t - 1];
        }
      }
      PrependAll(lo, taken) + skipped
  }

  /** Every increasing choice of `k` positions in range is enumerated. */
  lemma {:induction false} IndexCombinationsComplete(lo: nat, n: nat, k: nat, c: seq<nat>)
    requires lo <= n
    requires |c| == k && Increasing(c) && InRange(c, lo, n)
    ensures c in IndexCombinations(lo, n, k)
    decreases n - lo
  {
    if k == 0 {
      assert c == [];
    } else if c[0] == lo {
      TailInRange(lo, n, c);
      IndexCombinationsComplete(lo + 1, n, k - 1, c[1..]);
      TakenIsEnumerated(lo, n, k, c);
    } else {
      AboveLowest(lo, n, c);
      IndexCombinationsComplete(lo + 1, n, k, c);
      SkippedIsEnumerated(lo, n, k, c);
    }
  }

  /** The tail of an increasing choice that starts at `lo` lies above `lo`. */
  lemma TailInRange(lo: nat, n: nat, c: seq<nat>)
    requires |c| > 0 && Increasing(c) && InRange(c, lo, n) && c[0] == lo
    ensures lo < n && Increasing(c[1..]) && InRange(c[1..], lo + 1, n)
  {
    var rest := c[1..];
    forall t | 0 <= t < |rest| ensures lo + 1 <= rest[t] < n {
      assert rest[t] == c[t + 1] && c[0] < c[t + 1];
    }
  }

  /** An increasing choice that does not start at `lo` lies above `lo`. */
  lemma AboveLowest(lo: nat, n: nat, c: seq<nat>)
    requires |c| > 0 && Increasing(c) && InRange(c, lo, n) && c[0] != lo
    ensures lo < n && InRange(c, lo + 1, n)
  {
    forall t | 0 <= t < |c| ensures lo + 1 <= c[t] {
      if t > 0 {
        assert c[0] < c[t];
      }
    }
  }

  /** A choice that takes `lo` is enumerated when its tail is. */
  lemma TakenIsEnumerated(lo: nat, n: nat, k: nat, c: seq<nat>)
    requires lo < n && k > 0 && |c| == k && c[0] == lo
    requires c[1..] in IndexCombinations(lo + 1, n, k - 1)
    ensures c in IndexCombinations(lo, n, k)
  {
    var taken := IndexCombinations(lo + 1, n, k - 1);
    var i :| 0 <= i < |taken| && taken[i] == c[1..];
    assert c == [lo] + c[1..];
    assert PrependAll(lo, taken)[i] == c;
  }

  /** A choice that skips `lo` is enumerated when it is enumerated from `lo + 1`. */
  lemma SkippedIsEnumerated(lo: nat, n: nat, k: nat, c: seq<nat>)
    requires lo < n && k > 0
    requires c in IndexCombinations(lo + 1, n, k)
    ensures c in IndexCombinations(lo, n, k)
  {
  }

  /** The enumeration is in strictly increasing lexicographic order. */
  lemma {:induction false} IndexCombinationsSorted(lo: nat, n: nat, k: nat)
    requires lo <= n
    ensures LexSorted(IndexCombinations(lo, n, k))
    decreases n - lo
  {
    if k == 0 || lo == n {
    } else {
      var taken := IndexCombinations(lo + 1, n, k - 1);
      var skipped := IndexCombinations(lo + 1, n, k);
      IndexCombinationsSorted(lo + 1, n, k - 1);
      IndexCombinationsSorted(lo + 1, n, k);
      var r := IndexCombinations(lo, n, k);
      var front := PrependAll(lo, taken);
      assert r == front + skipped;
      forall i, j | 0 <= i < j < |r| ensures LexLess(r[i], r[j]) {
        if j < |front| {
          assert r[i] == [lo] + taken[i] && r[j] == [lo] + taken[j];
          assert ([lo] + taken[i])[1..] == taken[i];
          assert ([lo] + taken[j])[1..] == taken[j];
        } else if i < |front| {
          var c := skipped[j - |front|];
          assert r[j] == c && |c| == k && c[0] >= lo + 1;
        } else {
          assert r[i] == skipped[i - |front|] && r[j] == skipped[j - |front|];
        }
      }
    }
  }

  /** There are `C(n - lo, k)` of them. */
  lemma {:induction false} IndexCombinationsCount(lo: nat, n: nat, k: nat)
    requires lo <= n
    ensures |IndexCombinations(lo, n, k)| == Binomial(n - lo, k)
    decreases n - lo
  {
    if k == 0 || lo == n {
    } else {
      IndexCombinationsCount(lo + 1, n, k - 1);
      IndexCombinationsCount(lo + 1, n, k);
    }
  }

  /** The elements of `pool` at the positions `c`. */
  function Select<T>(pool: seq<T>, c: seq<nat>): (r: seq<T>)
    requires InRange(c, 0, |pool|)
    ensures |r| == |c|
    ensures forall t :: 0 <= t < |c| ==> r[t] == pool[c[t]]
  {
    seq(|c|, t requires 0 <= t < |c| => pool[c[t]])
  }

  /** `combinations(pool, k)`. */
  function Combinations<T>(pool: seq<T>, k: nat): (r: seq<seq<T>>)
    ensures |r| == |IndexCombinations(0, |pool|, k)|
    ensures forall i :: 0 <= i < |r| ==> r[i] == Select(pool, IndexCombinations(0, |pool|, k)[i])
  {
    var positions := IndexCombinations(0, |pool|, k);
    seq(|positions|, i requires 0 <= i < |positions| => Select(pool, positions[i]))
  }

  /**
   * A choice of positions that precedes the `k`-th enumerated one in
   * lexicographic order is enumerated before it.
   */
  lemma EarlierChoice<T>(pool: seq<T>, k: nat, i: nat, c: seq<nat>) returns (j: nat)
    requires i < |IndexCombinations(0, |pool|, k)|
    requires |c| == k && Increasing(c) && InRange(c, 0, |pool|)
    requires LexLess(c, IndexCombinations(0, |pool|, k)[i])
    ensures j < i && Combinations(pool, k)[j] == Select(pool, c)
  {
    var idx := IndexCombinations(0, |pool|, k);
    IndexCombinationsComplete(0, |pool|, k, c);
    IndexCombinationsSorted(0, |pool|, k);
    SortedPositions(idx);
    j :| 0 <= j < |idx| && idx[j] == c;
  }

  /** Each combination has `k` elements, all drawn from the pool. */
  lemma CombinationsFromPool<T>(pool: seq<T>, k: nat)
    ensures forall c :: c in Combinations(pool, k) ==> |c| == k && forall x :: x in c ==> x in pool
  {
  }

  /** Elements at distinct positions of a duplicate-free pool are distinct. */
  lemma CombinationsDistinct<T>(pool: seq<T>, k: nat, i: nat)
    requires forall a, b :: 0 <= a < b < |pool| ==> pool[a] != pool[b]
    requires i < |Combinations(pool, k)|
    ensures forall a, b :: 0 <= a < b < |Combinations(pool, k)[i]| ==> Combinations(pool, k)[i][a] != Combinations(pool, k)[i][b]
  {
    var c := IndexCombinations(0, |pool|, k)[i];
    assert Increasing(c);
  }
}
