/**
 * `calcPiGroup` after its singular value decomposition: given the raw null
 * vector that the decomposition yields for the columns
 * `[nonRepeatVar] + repeatingList`, zero the entries below 1e-8, scale the
 * vector by `bestFactor` and pair it with the parameters.
 */
module PiGroups {
  import opened Basics
  import opened LinAlg
  import opened Normalizer

  /** Entries of the raw null vector smaller than this in magnitude are zeroed. */
  const Cutoff: real := 0.00000001

  /** A parameter of a Pi group and its exponent. */
  datatype Term = Term(param: nat, power: real)

  type PiGroup = seq<Term>

  /** The dot product of an integer row with a real vector. */
  function DotR(a: Vector, b: seq<real>): real
    requires |a| == |b|
    decreases |a|
  {
    if |a| == 0 then 0.0 else a[0] as real * b[0] + DotR(a[1..], b[1..])
  }

  /** `M·v == 0` over the reals: the product of powers is dimensionless. */
  predicate IsNullR(M: Matrix, v: seq<real>)
    requires IsMatrix(M, |v|)
  {
    forall u :: 0 <= u < |M| ==> DotR(M[u], v) == 0.0
  }

  function ToReal(v: Vector): (r: seq<real>)
    ensures |r| == |v|
    ensures forall i :: 0 <= i < |v| ==> r[i] == v[i] as real
  {
    seq(|v|, i requires 0 <= i < |v| => v[i] as real)
  }

  /** `v * (abs(v) >= 1e-8)`. */
  function Clean(v: seq<real>): (r: seq<real>)
    ensures |r| == |v|
    ensures forall i :: 0 <= i < |v| ==> (r[i] == 0.0 <==> Abs(v[i]) < Cutoff)
    ensures forall i :: 0 <= i < |v| && r[i] != 0.0 ==> r[i] == v[i]
  {
    seq(|v|, i requires 0 <= i < |v| => if Abs(v[i]) >= Cutoff then v[i] else 0.0)
  }

  /** The exponents of a Pi group, in order. */
  function Powers(g: PiGroup): (p: seq<real>)
    ensures |p| == |g|
    ensures forall i :: 0 <= i < |g| ==> p[i] == g[i].power
  {
    seq(|g|, i requires 0 <= i < |g| => g[i].power)
  }

  /** The parameters of a Pi group, in order. */
  function Members(g: PiGroup): (p: seq<nat>)
    ensures |p| == |g|
    ensures forall i :: 0 <= i < |g| ==> p[i] == g[i].param
  {
    seq(|g|, i requires 0 <= i < |g| => g[i].param)
  }

  /**
   * `calcPiGroup(nonRepeatVar, repeatingList)` with `raw` the first null
   * row of the decomposition.  The decomposition fails on a single column
   * (`repeatingList` empty), and `bestFactor` needs a nonzero entry after
   * cleaning.  The result pairs `[nonRepeatVar] + repeatingList` with the
   * exponents, and an exponent is zero exactly where the raw entry fell
   * below the cutoff.
   */
  function CalcPiGroup(nonRepeatVar: nat, repeatingList: seq<nat>, raw: seq<real>): (g: PiGroup)
    requires |repeatingList| > 0 && |raw| == 1 + |repeatingList|
    requires HasNonzero(Clean(raw))
    ensures Members(g) == [nonRepeatVar] + repeatingList
    ensures forall i :: 0 <= i < |g| ==> (Powers(g)[i] == 0.0 <==> Abs(raw[i]) < Cutoff)
  {
    var cleaned := Clean(raw);
    var powers := Normalize(cleaned);
    NormalizeKeepsZeros(cleaned);
    ZerosCarry(raw, cleaned, powers);
    Pair([nonRepeatVar] + repeatingList, powers)
  }

  /** `zip(params, powers)`. */
  function Pair(params: seq<nat>, powers: seq<real>): (g: PiGroup)
    requires |params| == |powers|
    ensures Members(g) == params && Powers(g) == powers
  {
    var g := seq(|params|, i requires 0 <= i < |params| => Term(params[i], powers[i]));
    assert Members(g) == params && Powers(g) == powers;
    g
  }

  /** Zero entries carry over through cleaning and scaling. */
  lemma ZerosCarry(raw: seq<real>, cleaned: seq<real>, powers: seq<real>)
    requires |cleaned| == |raw| && |powers| == |raw|
    requires forall i :: 0 <= i < |raw| ==> (cleaned[i] == 0.0 <==> Abs(raw[i]) < Cutoff)
    requires forall i :: 0 <= i < |raw| ==> (powers[i] == 0.0 <==> cleaned[i] == 0.0)
    ensures forall i :: 0 <= i < |raw| ==> (powers[i] == 0.0 <==> Abs(raw[i]) < Cutoff)
  {
  }

  /**
   * The exponents are `bestFactor(p) * p` for the cleaned vector `p`, so the
   * normaliser's guarantees carry over: the factor is the first best scored
   * of the four candidates.
   */
  lemma CalcPiGroupPowers(nonRepeatVar: nat, repeatingList: seq<nat>, raw: seq<real>)
    requires |repeatingList| > 0 && |raw| == 1 + |repeatingList|
    requires HasNonzero(Clean(raw))
    ensures Powers(CalcPiGroup(nonRepeatVar, repeatingList, raw)) == ScaleR(BestFactor(Clean(raw)), Clean(raw))
  {
    NormalizeKeepsZeros(Clean(raw));
  }

  /** Scaling the vector scales the dot product. */
  lemma {:induction false} DotRScale(a: Vector, c: real, b: seq<real>, scaled: seq<real>)
    requires |a| == |b| && |scaled| == |b|
    requires forall i :: 0 <= i < |b| ==> scaled[i] == c * b[i]
    ensures DotR(a, scaled) == c * DotR(a, b)
    decreases |a|
  {
    if |a| > 0 {
      DotRScale(a[1..], c, b[1..], scaled[1..]);
      assert a[0] as real * (c * b[0]) == c * (a[0] as real * b[0]);
    }
  }

  /** A multiple of a null vector is a null vector. */
  lemma ScaledNull(M: Matrix, c: real, v: seq<real>)
    requires IsMatrix(M, |v|) && IsNullR(M, v)
    ensures IsNullR(M, ScaleR(c, v))
  {
    forall u | 0 <= u < |M| ensures DotR(M[u], ScaleR(c, v)) == 0.0 {
      DotRScale(M[u], c, v, ScaleR(c, v));
    }
  }

  /** The real dot product with an integer vector is its integer dot product. */
  lemma {:induction false} DotRToReal(a: Vector, v: Vector)
    requires |a| == |v|
    ensures DotR(a, ToReal(v)) == Dot(a, v) as real
    decreases |a|
  {
    if |a| > 0 {
      assert ToReal(v)[1..] == ToReal(v[1..]);
      DotRToReal(a[1..], v[1..]);
    }
  }

  /** Cleaning leaves a vector alone when none of its nonzero entries is below the cutoff. */
  lemma CleanKeepsLarge(v: seq<real>)
    requires forall i :: 0 <= i < |v| ==> v[i] == 0.0 || Abs(v[i]) >= Cutoff
    ensures Clean(v) == v
  {
  }

  /** A nonzero integer vector survives cleaning unchanged. */
  lemma CleanInteger(v: Vector)
    requires !IsZero(v)
    ensures Clean(ToReal(v)) == ToReal(v)
    ensures HasNonzero(ToReal(v))
  {
    var r := ToReal(v);
    forall i | 0 <= i < |v| ensures r[i] == 0.0 || Abs(r[i]) >= Cutoff {
      if v[i] != 0 {
        assert v[i] >= 1 || v[i] <= -1;
      }
    }
    CleanKeepsLarge(r);
    var i :| 0 <= i < |v| && v[i] != 0;
    assert r[i] != 0.0;
  }

  /**
   * If `raw` is a null vector of the column matrix `M` with no nonzero entry
   * below the cutoff, the exponents of the Pi group are one too: the
   * product of the parameters raised to them is dimensionless.
   */
  lemma CalcPiGroupDimensionless(M: Matrix, nonRepeatVar: nat, repeatingList: seq<nat>, raw: seq<real>)
    requires |repeatingList| > 0 && |raw| == 1 + |repeatingList|
    requires IsMatrix(M, |raw|) && IsNullR(M, raw)
    requires HasNonzero(raw)
    requires forall i :: 0 <= i < |raw| ==> raw[i] == 0.0 || Abs(raw[i]) >= Cutoff
    ensures Clean(raw) == raw
    ensures IsNullR(M, Powers(CalcPiGroup(nonRepeatVar, repeatingList, raw)))
  {
    CleanKeepsLarge(raw);
    CalcPiGroupPowers(nonRepeatVar, repeatingList, raw);
    ScaledNull(M, BestFactor(raw), raw);
  }
}
