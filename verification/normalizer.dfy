/**
 * `bestFactor` and `scoreFactor`: the choice of the scale applied to a raw
 * null vector.  Four factors are tried, `+1/max|p|`, `-1/max|p|`,
 * `+1/min|p|` and `-1/min|p|` (the minimum over the nonzero entries), and
 * the first one whose scaled vector has the most whole entries plus
 * positive entries wins.
 */
module Normalizer {
  import opened Basics
  import opened Helpers

  predicate HasNonzero(v: seq<real>)
  {
    exists i :: 0 <= i < |v| && v[i] != 0.0
  }

  /** `factor * powers` on a numpy array. */
  function ScaleR(c: real, v: seq<real>): (r: seq<real>)
    ensures |r| == |v|
    ensures forall i :: 0 <= i < |v| ==> r[i] == c * v[i]
  {
    seq(|v|, i requires 0 <= i < |v| => c * v[i])
  }

  /** The position of a largest magnitude among the first `n` entries. */
  function ArgMaxAbs(v: seq<real>, n: nat): (k: nat)
    requires 0 < n <= |v|
    ensures k < n
    ensures forall i :: 0 <= i < n ==> Abs(v[i]) <= Abs(v[k])
  {
    if n == 1 then 0
    else
      var k := ArgMaxAbs(v, n - 1);
      if Abs(v[n - 1]) > Abs(v[k]) then n - 1 else k
  }

  /**
   * The position of a smallest nonzero magnitude among the first `n`
   * entries, or `None` when they are all zero.
   */
  function ArgMinNonzeroAbs(v: seq<real>, n: nat): (k: Option<nat>)
    requires n <= |v|
    ensures k.None? ==> forall i :: 0 <= i < n ==> v[i] == 0.0
    ensures k.Some? ==> k.value < n && v[k.value] != 0.0
    ensures k.Some? ==> forall i :: 0 <= i < n && v[i] != 0.0 ==> Abs(v[k.value]) <= Abs(v[i])
  {
    if n == 0 then None
    else
      var k := ArgMinNonzeroAbs(v, n - 1);
      if v[n - 1] == 0.0 then k
      else if k.None? || Abs(v[n - 1]) < Abs(v[k.value]) then Some(n - 1)
      else k
  }

  /** `max(abs(powers))`. */
  function MaxAbs(v: seq<real>): (r: real)
    requires |v| > 0
    ensures forall i :: 0 <= i < |v| ==> Abs(v[i]) <= r
  {
    Abs(v[ArgMaxAbs(v, |v|)])
  }

  /** `min(abs(powers[powers != 0]))`. */
  function MinNonzeroAbs(v: seq<real>): (r: real)
    requires HasNonzero(v)
    ensures r > 0.0
    ensures forall i :: 0 <= i < |v| && v[i] != 0.0 ==> r <= Abs(v[i])
  {
    Abs(v[ArgMinNonzeroAbs(v, |v|).value])
  }

  /** The four candidate factors, in the order they are tried. */
  function Candidates(v: seq<real>): (c: seq<real>)
    requires HasNonzero(v)
    ensures |c| == 4
    ensures forall i :: 0 <= i < 4 ==> c[i] != 0.0
  {
    var hi := MaxAbs(v);
    var lo := MinNonzeroAbs(v);
    assert hi >= lo > 0.0 by {
      var k := ArgMinNonzeroAbs(v, |v|).value;
      assert Abs(v[k]) <= hi;
    }
    [1.0 / hi, -1.0 / hi, 1.0 / lo, -1.0 / lo]
  }


  /** `trial > 0` on a numpy array. */
  function Positive(v: seq<real>): (r: seq<bool>)
    ensures |r| == |v|
    ensures forall i :: 0 <= i < |v| ==> (r[i] <==> v[i] > 0.0)
    decreases |v|
  {
    if |v| == 0 then [] else [v[0] > 0.0] + Positive(v[1..])
  }

  /** The score of an already scaled vector. */
  function ScoreTrial(trial: seq<real>): (s: nat)
    ensures s <= 2 * |trial|
  {
    CountTrue(IsWholeNum(trial, DefaultCrit)) + CountTrue(Positive(trial))
  }

  /**
   * `scoreFactor(factor, powers)`: the number of whole entries plus the
   * number of positive entries of `factor * powers`.
   */
  function ScoreFactor(factor: real, powers: seq<real>): (s: nat)
    ensures 0 <= s <= 2 * |powers|
  {
    ScoreTrial(ScaleR(factor, powers))
  }

  /** The powers scaled by candidate `b`. */
  function Scaled(v: seq<real>, b: nat): (r: seq<real>)
    requires HasNonzero(v) && b < 4
    ensures |r| == |v|
  {
    ScaleR(Candidates(v)[b], v)
  }

  /** The score of each candidate, in candidate order. */
  function Scores(v: seq<real>): (s: seq<nat>)
    requires HasNonzero(v)
    ensures |s| == 4
  {
    seq(4, j requires 0 <= j < 4 => ScoreTrial(Scaled(v, j)))
  }

  /**
   * The position Python's `max(..., key=...)` returns: a maximal element,
   * and the first of them, since a later element replaces the current best
   * only when strictly greater.
   */
  function FirstMax(s: seq<nat>): (i: nat)
    requires |s| > 0
    ensures i < |s|
    ensures forall j :: 0 <= j < |s| ==> s[j] <= s[i]
    ensures forall j :: 0 <= j < i ==> s[j] < s[i]
    decreases |s|
  {
    if |s| == 1 then 0
    else
      var k := FirstMax(s[..|s| - 1]);
      assert forall j :: 0 <= j < |s| - 1 ==> s[j] == s[..|s| - 1][j];
      if s[|s| - 1] > s[k] then |s| - 1 else k
  }

  /**
   * The position of the chosen candidate: a candidate with the highest
   * score, and strictly better than every candidate tried before it.
   */
  function BestCandidate(v: seq<real>): (b: nat)
    requires HasNonzero(v)
    ensures b < 4
    ensures forall j :: 0 <= j < 4 ==> Scores(v)[j] <= Scores(v)[b]
    ensures forall j :: 0 <= j < b ==> Scores(v)[j] < Scores(v)[b]
  {
    FirstMax(Scores(v))
  }

  /** `bestFactor(powers)`: the candidate at the chosen position. */
  function BestFactor(v: seq<real>): (f: real)
    requires HasNonzero(v)
    ensures f != 0.0 && f in Candidates(v)
    ensures forall j :: 0 <= j < 4 ==> ScoreFactor(Candidates(v)[j], v) <= ScoreFactor(f, v)
  {
    var b := BestCandidate(v);
    ScoresAreScoreFactor(v);
    Candidates(v)[b]
  }

  /**
   * The scaled powers `bestFactor(p) * p`: zero exactly where `p` is zero,
   * with some entry ±1.
   */
  function Normalize(v: seq<real>): (r: seq<real>)
    requires HasNonzero(v)
    ensures |r| == |v|
    ensures forall i :: 0 <= i < |v| ==> r[i] == BestFactor(v) * v[i]
    ensures forall i :: 0 <= i < |v| ==> (r[i] == 0.0 <==> v[i] == 0.0)
    ensures exists i :: 0 <= i < |v| && Abs(r[i]) == 1.0
  {
    var b := BestCandidate(v);
    ScaledHasUnitEntry(v, b);
    ScaleRZeros(BestFactor(v), v);
    Scaled(v, b)
  }

  // ---------------------------------------------------------------------
  // Arithmetic facts, stated over plain reals so that products and
  // magnitudes never meet in one proof obligation

  /** The magnitude of `f * y` when `f` is `g` or `-g` for a positive `g`. */
  lemma AbsMulSigned(f: real, g: real, y: real)
    requires g > 0.0 && (f == g || f == -g)
    ensures Abs(f * y) == g * Abs(y)
  {
    if f == g {
      if y < 0.0 { assert g * y < 0.0; assert -(g * y) == g * -y; }
      else { assert g * y >= 0.0; }
    } else {
      assert f * y == -(g * y);
      if y < 0.0 { assert g * y < 0.0; assert -(g * y) == g * -y; }
      else { assert g * y >= 0.0; }
    }
  }


  /** A product with a nonzero factor is zero exactly when the other factor is. */
  lemma ZeroProduct(f: real, y: real, x: real)
    requires f != 0.0 && x == f * y
    ensures x == 0.0 <==> y == 0.0
  {
  }

  /** Dividing by a bound `h` maps the magnitudes up to `h` into [0, 1]. */
  lemma RecipBelow(h: real, a: real)
    requires h > 0.0 && 0.0 <= a <= h
    ensures 1.0 / h * a <= 1.0
    ensures 1.0 / h * h == 1.0
  {
  }

  /** Dividing by a lower bound `h` maps the magnitudes from `h` up into [1, ∞). */
  lemma RecipAbove(h: real, a: real)
    requires h > 0.0 && h <= a
    ensures 1.0 / h * a >= 1.0
    ensures 1.0 / h * h == 1.0
  {
  }



  // ---------------------------------------------------------------------
  // Properties of the normaliser

  /** Scaling by a nonzero factor keeps the zero pattern. */
  lemma ScaleRZeros(f: real, v: seq<real>)
    requires f != 0.0
    ensures forall i :: 0 <= i < |v| ==> (ScaleR(f, v)[i] == 0.0 <==> v[i] == 0.0)
  {
    forall i | 0 <= i < |v| ensures ScaleR(f, v)[i] == 0.0 <==> v[i] == 0.0 {
      ZeroProduct(f, v[i], ScaleR(f, v)[i]);
    }
  }

  /** Each entry of `Scores` is `scoreFactor` of the matching candidate. */
  lemma ScoresAreScoreFactor(v: seq<real>)
    requires HasNonzero(v)
    ensures forall j :: 0 <= j < 4 ==> Scores(v)[j] == ScoreFactor(Candidates(v)[j], v)
  {
  }

  /**
   * The chosen factor is one of the four candidates, scores at least as
   * well as every candidate, and strictly better than every candidate tried
   * before it; every score lies in [0, 2|p|].
   */
  lemma BestFactorIsFirstMax(v: seq<real>)
    requires HasNonzero(v)
    ensures BestCandidate(v) < 4 && BestFactor(v) == Candidates(v)[BestCandidate(v)]
    ensures forall j :: 0 <= j < 4 ==> ScoreFactor(Candidates(v)[j], v) <= ScoreFactor(BestFactor(v), v)
    ensures forall j :: 0 <= j < BestCandidate(v) ==> ScoreFactor(Candidates(v)[j], v) < ScoreFactor(BestFactor(v), v)
    ensures forall j :: 0 <= j < 4 ==> ScoreFactor(Candidates(v)[j], v) <= 2 * |v|
  {
    ScoresAreScoreFactor(v);
  }

  /** The normalised powers are `bestFactor(p) * p` and keep the zero entries of `p`. */
  lemma NormalizeKeepsZeros(v: seq<real>)
    requires HasNonzero(v)
    ensures Normalize(v) == ScaleR(BestFactor(v), v)
    ensures forall i :: 0 <= i < |v| ==> (Normalize(v)[i] == 0.0 <==> v[i] == 0.0)
  {
    ScaleRZeros(BestFactor(v), v);
  }

  /**
   * Scaling by any candidate makes the largest or the smallest nonzero
   * magnitude exactly 1: either every entry lies in [-1, 1], or every
   * nonzero entry lies outside (-1, 1), and some entry is ±1.
   */
  lemma ScaledHasUnitEntry(v: seq<real>, b: nat)
    requires HasNonzero(v) && b < 4
    ensures exists i :: 0 <= i < |v| && Abs(Scaled(v, b)[i]) == 1.0
    ensures (forall i :: 0 <= i < |v| ==> Abs(Scaled(v, b)[i]) <= 1.0) ||
            (forall i :: 0 <= i < |v| && v[i] != 0.0 ==> Abs(Scaled(v, b)[i]) >= 1.0)
  {
    var c := Candidates(v);
    var hi := MaxAbs(v);
    var lo := MinNonzeroAbs(v);
    assert c == [1.0 / hi, -1.0 / hi, 1.0 / lo, -1.0 / lo];
    if b < 2 {
      var k := ArgMaxAbs(v, |v|);
      UnitEntryBelow(v, c[b], hi, k);
      assert Abs(Scaled(v, b)[k]) == 1.0;
    } else {
      var k := ArgMinNonzeroAbs(v, |v|).value;
      UnitEntryAbove(v, c[b], lo, k);
      assert Abs(Scaled(v, b)[k]) == 1.0;
    }
  }

  /** Dividing by the largest magnitude `hi` at `k` puts every entry in [-1, 1] and `k` on ±1. */
  lemma UnitEntryBelow(v: seq<real>, f: real, hi: real, k: nat)
    requires hi > 0.0 && (f == 1.0 / hi || f == -1.0 / hi)
    requires k < |v| && Abs(v[k]) == hi
    requires forall i :: 0 <= i < |v| ==> Abs(v[i]) <= hi
    ensures Abs(ScaleR(f, v)[k]) == 1.0
    ensures forall i :: 0 <= i < |v| ==> Abs(ScaleR(f, v)[i]) <= 1.0
  {
    var r := ScaleR(f, v);
    forall i | 0 <= i < |v| ensures Abs(r[i]) <= 1.0 && (Abs(v[i]) == hi ==> Abs(r[i]) == 1.0) {
      ScaledBelow(f, 1.0 / hi, hi, v[i], r[i]);
    }
  }

  /** One entry of `UnitEntryBelow`. */
  lemma ScaledBelow(f: real, g: real, hi: real, y: real, x: real)
    requires hi > 0.0 && g == 1.0 / hi && (f == g || f == -g) && x == f * y
    requires Abs(y) <= hi
    ensures Abs(x) <= 1.0
    ensures Abs(y) == hi ==> Abs(x) == 1.0
  {
    AbsMulSigned(f, g, y);
    RecipBelow(hi, Abs(y));
  }

  /**
   * Dividing by the smallest nonzero magnitude `lo` at `k` puts every
   * nonzero entry outside (-1, 1) and `k` on ±1.
   */
  lemma UnitEntryAbove(v: seq<real>, f: real, lo: real, k: nat)
    requires lo > 0.0 && (f == 1.0 / lo || f == -1.0 / lo)
    requires k < |v| && Abs(v[k]) == lo
    requires forall i :: 0 <= i < |v| && v[i] != 0.0 ==> lo <= Abs(v[i])
    ensures Abs(ScaleR(f, v)[k]) == 1.0
    ensures forall i :: 0 <= i < |v| && v[i] != 0.0 ==> Abs(ScaleR(f, v)[i]) >= 1.0
  {
    var r := ScaleR(f, v);
    forall i | 0 <= i < |v| && v[i] != 0.0 ensures Abs(r[i]) >= 1.0 && (Abs(v[i]) == lo ==> Abs(r[i]) == 1.0) {
      ScaledAbove(f, 1.0 / lo, lo, v[i], r[i]);
    }
    assert v[k] != 0.0;
  }

  /** One entry of `UnitEntryAbove`. */
  lemma ScaledAbove(f: real, g: real, lo: real, y: real, x: real)
    requires lo > 0.0 && g == 1.0 / lo && (f == g || f == -g) && x == f * y
    requires lo <= Abs(y)
    ensures Abs(x) >= 1.0
    ensures Abs(y) == lo ==> Abs(x) == 1.0
  {
    AbsMulSigned(f, g, y);
    RecipAbove(lo, Abs(y));
  }

  /**
   * After normalising, some entry is ±1, and either all entries lie in
   * [-1, 1] or all nonzero entries lie outside (-1, 1).
   */
  lemma NormalizeHasUnitEntry(v: seq<real>)
    requires HasNonzero(v)
    ensures exists i :: 0 <= i < |v| && Abs(Normalize(v)[i]) == 1.0
    ensures (forall i :: 0 <= i < |v| ==> Abs(Normalize(v)[i]) <= 1.0) ||
            (forall i :: 0 <= i < |v| && v[i] != 0.0 ==> Abs(Normalize(v)[i]) >= 1.0)
  {
    var b := BestCandidate(v);
    var r := Normalize(v);
    assert r == Scaled(v, b);
    ScaledHasUnitEntry(v, b);
  }

  /** The vectors [1, -1] and [-1, 1] have every candidate equal to ±1. */
  lemma UnitPairCandidates(a: seq<real>)
    requires a == [1.0, -1.0] || a == [-1.0, 1.0]
    ensures HasNonzero(a)
    ensures Candidates(a) == [1.0, -1.0, 1.0, -1.0]
  {
    assert a[0] != 0.0;
    assert ArgMaxAbs(a, 1) == 0;
    assert Abs(a[0]) == 1.0 && Abs(a[1]) == 1.0;
    assert MaxAbs(a) == 1.0;
    assert ArgMinNonzeroAbs(a, 1) == Some(0);
    assert MinNonzeroAbs(a) == 1.0;
  }

  /** [1, -1] and [-1, 1] both score 3: two whole entries, one positive. */
  lemma UnitPairScore(a: seq<real>)
    requires a == [1.0, -1.0] || a == [-1.0, 1.0]
    ensures ScoreTrial(a) == 3
  {
    UnitPairWhole(a);
    UnitPairPositive(a);
    assert CountTrue([true, true]) == 2;
  }

  /** Both entries of [1, -1] and [-1, 1] are whole. */
  lemma UnitPairWhole(a: seq<real>)
    requires a == [1.0, -1.0] || a == [-1.0, 1.0]
    ensures IsWholeNum(a, DefaultCrit) == [true, true]
  {
    IsWholeNumOfIntegers(a, DefaultCrit);
    assert IsInteger(a[0]) && IsInteger(a[1]);
    var w := IsWholeNum(a, DefaultCrit);
    assert w[0] && w[1];
  }

  /** Exactly one entry of [1, -1] and of [-1, 1] is positive. */
  lemma UnitPairPositive(a: seq<real>)
    requires a == [1.0, -1.0] || a == [-1.0, 1.0]
    ensures CountTrue(Positive(a)) == 1
  {
    var p := Positive(a);
    if a == [1.0, -1.0] {
      assert p == [true, false];
      assert CountTrue([true, false]) == 1;
    } else {
      assert p == [false, true];
      assert CountTrue([false, true]) == 1;
    }
  }

  /** Every candidate scales [1, -1] or [-1, 1] to one of the two, which both score 3. */
  lemma UnitPairScaledScore(a: seq<real>, b: seq<real>, j: nat)
    requires (a == [1.0, -1.0] && b == [-1.0, 1.0]) || (a == [-1.0, 1.0] && b == [1.0, -1.0])
    requires j < 4
    ensures HasNonzero(a)
    ensures ScoreTrial(Scaled(a, j)) == 3
  {
    UnitPairCandidates(a);
    var f := Candidates(a)[j];
    assert f == 1.0 || f == -1.0;
    if f == 1.0 {
      assert ScaleR(f, a) == a;
      UnitPairScore(a);
    } else {
      assert ScaleR(f, a) == b;
      UnitPairScore(b);
    }
  }

  /** When all four candidates tie, the first one, `+1/max|p|`, is taken. */
  lemma TieTakesFirst(v: seq<real>)
    requires HasNonzero(v)
    requires forall j :: 0 <= j < 4 ==> ScoreTrial(Scaled(v, j)) == ScoreTrial(Scaled(v, 0))
    ensures BestCandidate(v) == 0
    ensures Normalize(v) == Scaled(v, 0)
  {
    var s := Scores(v);
    assert s[BestCandidate(v)] == s[0];
  }

  /** Normalising [1, -1] or [-1, 1] keeps the vector: every candidate ties and +1 is tried first. */
  lemma UnitPairNormalize(a: seq<real>, b: seq<real>)
    requires (a == [1.0, -1.0] && b == [-1.0, 1.0]) || (a == [-1.0, 1.0] && b == [1.0, -1.0])
    ensures HasNonzero(a)
    ensures Normalize(a) == a
  {
    UnitPairAllTie(a, b);
    TieTakesFirst(a);
    UnitPairFirstScaled(a);
  }

  /** The first candidate leaves [1, -1] and [-1, 1] unchanged. */
  lemma UnitPairFirstScaled(a: seq<real>)
    requires a == [1.0, -1.0] || a == [-1.0, 1.0]
    ensures HasNonzero(a)
    ensures Scaled(a, 0) == a
  {
    UnitPairCandidates(a);
    assert ScaleR(1.0, a) == a;
  }

  /** All four candidates tie on [1, -1] and on [-1, 1]. */
  lemma UnitPairAllTie(a: seq<real>, b: seq<real>)
    requires (a == [1.0, -1.0] && b == [-1.0, 1.0]) || (a == [-1.0, 1.0] && b == [1.0, -1.0])
    ensures HasNonzero(a)
    ensures forall j :: 0 <= j < 4 ==> ScoreTrial(Scaled(a, j)) == ScoreTrial(Scaled(a, 0))
  {
    UnitPairCandidates(a);
    forall j | 0 <= j < 4 ensures ScoreTrial(Scaled(a, j)) == 3 {
      UnitPairScaledScore(a, b, j);
    }
  }

  /**
   * Negating the raw vector can change the result: for [1, -1] each
   * candidate ties with its negation, and the first one tried wins, so
   * [1, -1] and its negation [-1, 1] are both left as they are.
   */
  lemma NormalizeNotNegationInvariant()
    ensures HasNonzero([1.0, -1.0]) && HasNonzero(ScaleR(-1.0, [1.0, -1.0]))
    ensures Normalize(ScaleR(-1.0, [1.0, -1.0])) != Normalize([1.0, -1.0])
  {
    assert ScaleR(-1.0, [1.0, -1.0]) == [-1.0, 1.0];
    UnitPairNormalize([1.0, -1.0], [-1.0, 1.0]);
    UnitPairNormalize([-1.0, 1.0], [1.0, -1.0]);
  }
}
