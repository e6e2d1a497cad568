/**
 * What `Rank` counts.  The pivot columns that elimination picks form a basis
 * of the column space: there are `Rank(M, m)` of them, a null vector that
 * uses only pivot columns is zero (they are independent), and every other
 * column has a null vector that uses only the pivot columns and itself (they
 * span).  So `Rank` is the rank of the matrix, the number of singular values
 * a decomposition would find nonzero.
 *
 * The pivot columns are given as a mask: entry `c` is true when column `c`
 * holds a pivot.
 */
module ColumnBasis {
  import opened Basics
  import opened LinAlg

  /** The mask `k` with a pivot entry inserted at position `j`. */
  function InsertPivot(k: seq<bool>, j: nat): (r: seq<bool>)
    requires j <= |k|
    ensures |r| == |k| + 1 && r[j]
    ensures forall i :: 0 <= i < j ==> r[i] == k[i]
    ensures forall i :: j < i < |r| ==> r[i] == k[i - 1]
    ensures CountTrue(r) == CountTrue(k) + 1
  {
    assert k == k[..j] + k[j..];
    CountTrueAppend(k[..j], k[j..]);
    CountTrueAppend(k[..j], [true]);
    CountTrueAppend(k[..j] + [true], k[j..]);
    k[..j] + [true] + k[j..]
  }

  /** The mask of `m` columns none of which holds a pivot. */
  function NoPivots(m: nat): (r: seq<bool>)
    ensures |r| == m && CountTrue(r) == 0
    ensures forall i :: 0 <= i < m ==> !r[i]
  {
    var r := seq(m, i requires 0 <= i < m => false);
    CountTrueNone(r);
    r
  }

  /** A mask with no true entry counts zero. */
  lemma {:induction false} CountTrueNone(k: seq<bool>)
    requires forall i :: 0 <= i < |k| ==> !k[i]
    ensures CountTrue(k) == 0
    decreases |k|
  {
    if |k| > 0 {
      CountTrueNone(k[1..]);
    }
  }

  /** The pivot columns of the elimination, as a mask over the `m` columns. */
  function PivotMask(M: Matrix, m: nat): (k: seq<bool>)
    requires IsMatrix(M, m)
    ensures |k| == m
    decreases |M|
  {
    if m == 0 || |M| == 0 then NoPivots(m)
    else if IsZero(M[0]) then PivotMask(M[1..], m)
    else
      var j := FirstNonzero(M[0]);
      InsertPivot(PivotMask(Reduce(M, m, j), m - 1), j)
  }

  /** There are `Rank(M, m)` pivot columns. */
  lemma {:induction false} PivotCount(M: Matrix, m: nat)
    requires IsMatrix(M, m)
    ensures CountTrue(PivotMask(M, m)) == Rank(M, m)
    decreases |M|
  {
    if m == 0 || |M| == 0 {
    } else if IsZero(M[0]) {
      PivotCount(M[1..], m);
    } else {
      var j, R := PivotMaskStep(M, m);
      assert Rank(M, m) == 1 + Rank(R, m - 1);
      PivotCount(R, m - 1);
    }
  }

  /** Every nonzero entry of `v` sits at a position that `k` marks. */
  predicate SupportedIn(v: Vector, k: seq<bool>)
  {
    forall i :: 0 <= i < |v| && v[i] != 0 ==> i < |k| && k[i]
  }

  /** The pivot mask when the first row holds the pivot `j` and `R` is the reduced matrix. */
  lemma PivotMaskStep(M: Matrix, m: nat) returns (j: nat, R: Matrix)
    requires IsMatrix(M, m) && |M| > 0 && !IsZero(M[0])
    ensures j == FirstNonzero(M[0]) && R == Reduce(M, m, j)
    ensures j < m && M[0][j] != 0 && |R| < |M| && IsMatrix(R, m - 1)
    ensures PivotMask(M, m) == InsertPivot(PivotMask(R, m - 1), j)
  {
    j := FirstNonzero(M[0]);
    R := Reduce(M, m, j);
  }

  /** A null vector of a matrix is a null vector of its lower rows. */
  lemma NullOfTail(M: Matrix, m: nat, v: Vector)
    requires IsMatrix(M, m) && |M| > 0 && |v| == m && IsNull(M, v)
    ensures IsNull(M[1..], v)
  {
    forall i | 0 <= i < |M| - 1 ensures Dot(M[1..][i], v) == 0 {
      assert M[1..][i] == M[i + 1];
    }
  }

  /** The pivot columns are independent: a null vector supported on them is zero. */
  lemma {:induction false} PivotColumnsIndependent(M: Matrix, m: nat, v: Vector)
    requires IsMatrix(M, m) && |v| == m && IsNull(M, v)
    requires SupportedIn(v, PivotMask(M, m))
    ensures IsZero(v)
    decreases |M|, 1
  {
    if m == 0 || |M| == 0 {
    } else if IsZero(M[0]) {
      NullOfTail(M, m, v);
      PivotColumnsIndependent(M[1..], m, v);
    } else {
      var j, R := PivotMaskStep(M, m);
      ReduceKeepsNull(M, m, j, v);
      IndependentPivot(M[0], j, R, m, v);
    }
  }

  /**
   * `PivotColumnsIndependent` when the first row `row` holds the pivot `j`
   * and `R` is the reduced matrix.
   */
  lemma {:induction false} IndependentPivot(row: Vector, j: nat, R: Matrix, m: nat, v: Vector)
    requires |row| == m && |v| == m && j < m && row[j] != 0 && Dot(row, v) == 0
    requires IsMatrix(R, m - 1) && IsNull(R, DeleteAt(v, j))
    requires SupportedIn(v, InsertPivot(PivotMask(R, m - 1), j))
    ensures IsZero(v)
    decreases |R| + 1, 0
  {
    var w := DeleteAt(v, j);
    var k := PivotMask(R, m - 1);
    forall i | 0 <= i < |w| && w[i] != 0 ensures k[i] {
      if i < j {
        assert w[i] == v[i];
      } else {
        assert w[i] == v[i + 1];
      }
    }
    PivotColumnsIndependent(R, m - 1, w);
    PivotRowForcesZero(row, j, v);
  }

  /**
   * The pivot columns span: every other column `c` has a null vector that
   * is nonzero at `c` and uses only `c` and the pivot columns.
   */
  lemma {:induction false} SpanningVector(M: Matrix, m: nat, c: nat) returns (v: Vector)
    requires IsMatrix(M, m) && c < m && !PivotMask(M, m)[c]
    ensures |v| == m && IsNull(M, v) && v[c] != 0
    ensures SupportedIn(v, PivotMask(M, m)[c := true])
    decreases |M|, 1
  {
    if |M| == 0 {
      v := Unit(m, c);
    } else if IsZero(M[0]) {
      v := SpanningVector(M[1..], m, c);
      NullAfterZeroRow(M, m, v);
    } else {
      var j, R := PivotMaskStep(M, m);
      v := SpanningPivot(M, m, c, j, R);
    }
  }

  /** `SpanningVector` when the first row holds the pivot `j` and `R` is the reduced matrix. */
  lemma {:induction false} SpanningPivot(M: Matrix, m: nat, c: nat, j: nat, R: Matrix) returns (v: Vector)
    requires IsMatrix(M, m) && c < m && |M| > 0 && j < m && M[0][j] != 0
    requires R == Reduce(M, m, j) && IsMatrix(R, m - 1)
    requires !InsertPivot(PivotMask(R, m - 1), j)[c]
    ensures |v| == m && IsNull(M, v) && v[c] != 0
    ensures SupportedIn(v, InsertPivot(PivotMask(R, m - 1), j)[c := true])
    decreases |R| + 1, 0
  {
    var c' := if c < j then c else c - 1;
    var w := SpanningVector(R, m - 1, c');
    ExtendIsNull(M, m, j, w);
    v := Extend(M[0], j, w);
    ExtendDeletes(M[0], j, w);
    ExtendSupport(M[0][j], PivotMask(R, m - 1), j, c, c', w, DeleteAt(v, j), v);
  }

  /**
   * The back-substituted vector `v`, whose entries off the pivot `j` are
   * those of `w` scaled by `p`, is nonzero at the column `c` that `c'`
   * lifts to and uses only `c` and the pivot columns.
   */
  lemma ExtendSupport(p: int, k: seq<bool>, j: nat, c: nat, c': nat, w: Vector, d: Vector, v: Vector)
    requires p != 0 && |w| == |d| == |k| && |v| == |w| + 1 && j < |v| && c' < |w|
    requires c == (if c' < j then c' else c' + 1)
    requires d == DeleteAt(v, j) && forall i :: 0 <= i < |w| ==> d[i] == p * w[i]
    requires w[c'] != 0 && SupportedIn(w, k[c' := true])
    ensures v[c] != 0
    ensures SupportedIn(v, InsertPivot(k, j)[c := true])
  {
    assert d[c'] == v[c];
    NonzeroProduct(p, w[c'], d[c']);
    var K := InsertPivot(k, j);
    forall i | 0 <= i < |v| && v[i] != 0 && i != j ensures K[c := true][i] {
      var i' := if i < j then i else i - 1;
      assert d[i'] == v[i];
      assert w[i'] != 0;
      assert K[i] == k[i'];
    }
  }
}
