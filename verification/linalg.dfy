/**
 * Exact linear algebra on integer matrices, standing in for the singular
 * value decompositions of the pipeline.  A matrix is a sequence of rows of a
 * common width `m`; for a dimension matrix the rows are the base units and
 * the columns are the parameters.
 *
 * `Rank` and `NullVector` both run fraction-free Gaussian elimination: the
 * first nonzero row is the pivot row, its first nonzero entry the pivot, every
 * other row r is replaced by `pivot * r - r[j] * pivotRow` (which clears
 * column j without division), and the pivot row and column are dropped.
 */
module LinAlg {
  import opened Basics

  type Vector = seq<int>
  type Matrix = seq<Vector>

  /** Every row of `M` has `m` entries. */
  predicate IsMatrix(M: Matrix, m: nat)
  {
    forall i :: 0 <= i < |M| ==> |M[i]| == m
  }

  predicate IsZero(v: Vector)
  {
    forall i :: 0 <= i < |v| ==> v[i] == 0
  }

  function Dot(a: Vector, b: Vector): int
    requires |a| == |b|
    decreases |a|
  {
    if |a| == 0 then 0 else a[0] * b[0] + Dot(a[1..], b[1..])
  }

  /** `v` is a null vector of `M`: the product `M·v` is zero. */
  predicate IsNull(M: Matrix, v: Vector)
    requires IsMatrix(M, |v|)
  {
    forall i :: 0 <= i < |M| ==> Dot(M[i], v) == 0
  }

  /** The columns of `M` are linearly independent: only the zero vector is null. */
  ghost predicate Independent(M: Matrix, m: nat)
    requires IsMatrix(M, m)
  {
    forall v :: |v| == m && IsNull(M, v) ==> IsZero(v)
  }

  function Scale(c: int, v: Vector): (r: Vector)
    ensures |r| == |v|
    ensures forall i :: 0 <= i < |v| ==> r[i] == c * v[i]
  {
    seq(|v|, i requires 0 <= i < |v| => c * v[i])
  }

  /** The row operation `p * r - q * s`. */
  function Combine(p: int, r: Vector, q: int, s: Vector): (t: Vector)
    requires |r| == |s|
    ensures |t| == |r|
    ensures forall i :: 0 <= i < |r| ==> t[i] == p * r[i] - q * s[i]
  {
    seq(|r|, i requires 0 <= i < |r| => p * r[i] - q * s[i])
  }

  function DeleteAt(s: Vector, j: nat): (r: Vector)
    requires j < |s|
    ensures |r| == |s| - 1
    ensures forall k :: 0 <= k < j ==> r[k] == s[k]
    ensures forall k :: j <= k < |r| ==> r[k] == s[k + 1]
  {
    s[..j] + s[j + 1..]
  }

  function InsertAt(s: Vector, j: nat, x: int): (r: Vector)
    requires j <= |s|
    ensures |r| == |s| + 1 && r[j] == x
    ensures forall k :: 0 <= k < j ==> r[k] == s[k]
    ensures forall k :: j < k < |r| ==> r[k] == s[k - 1]
  {
    s[..j] + [x] + s[j..]
  }

  /** The unit vector with a one at position `j`. */
  function Unit(m: nat, j: nat): (r: Vector)
    requires j < m
    ensures |r| == m && !IsZero(r)
    ensures forall k :: 0 <= k < m ==> r[k] == if k == j then 1 else 0
  {
    var r := seq(m, k requires 0 <= k < m => if k == j then 1 else 0);
    assert r[j] == 1;
    r
  }

  /** The position of the first nonzero entry. */
  function FirstNonzero(r: Vector): (j: nat)
    requires !IsZero(r)
    ensures j < |r| && r[j] != 0
    ensures forall k :: 0 <= k < j ==> r[k] == 0
  {
    if r[0] != 0 then 0 else 1 + FirstNonzero(r[1..])
  }

  /** One elimination step with pivot `M[0][j]`: the rows below, cleared in column `j`, without that column. */
  function Reduce(M: Matrix, m: nat, j: nat): (R: Matrix)
    requires IsMatrix(M, m) && |M| > 0 && j < m
    ensures |R| == |M| - 1 && IsMatrix(R, m - 1)
  {
    seq(|M| - 1, i requires 0 <= i < |M| - 1 => DeleteAt(Eliminated(M, m, j, i + 1), j))
  }

  /** Row `i` after clearing column `j` with the pivot row `M[0]`. */
  function Eliminated(M: Matrix, m: nat, j: nat, i: nat): (t: Vector)
    requires IsMatrix(M, m) && i < |M| && j < |M[0]|
    ensures |t| == m && t[j] == 0
  {
    Combine(M[0][j], M[i], M[i][j], M[0])
  }

  /** The rank of `M`: the number of pivots found by elimination. */
  function Rank(M: Matrix, m: nat): (r: nat)
    requires IsMatrix(M, m)
    ensures r <= |M| && r <= m
    decreases |M|
  {
    if m == 0 || |M| == 0 then 0
    else if IsZero(M[0]) then Rank(M[1..], m)
    else 1 + Rank(Reduce(M, m, FirstNonzero(M[0])), m - 1)
  }

  /**
   * Back substitution: a null vector of `Reduce(M, m, j)` scaled by the
   * pivot, with the entry at `j` chosen so that the pivot row vanishes too.
   */
  function Extend(pivotRow: Vector, j: nat, w: Vector): (v: Vector)
    requires j < |pivotRow| && |w| == |pivotRow| - 1
    ensures |v| == |pivotRow|
  {
    InsertAt(Scale(pivotRow[j], w), j, -Dot(DeleteAt(pivotRow, j), w))
  }

  /**
   * A nonzero null vector of `M` when its columns are dependent; `None` when
   * they are independent (see `NullVectorComplete`).
   */
  function NullVector(M: Matrix, m: nat): (r: Option<Vector>)
    requires IsMatrix(M, m)
    ensures r.Some? ==> |r.value| == m && !IsZero(r.value) && IsNull(M, r.value)
    decreases |M|
  {
    if m == 0 then None
    else if |M| == 0 then Some(Unit(m, 0))
    else if IsZero(M[0]) then
      var r := NullVector(M[1..], m);
      if r.Some? then NullAfterZeroRow(M, m, r.value); r else r
    else
      var j := FirstNonzero(M[0]);
      match NullVector(Reduce(M, m, j), m - 1)
      case None => None
      case Some(w) =>
        ExtendIsNull(M, m, j, w);
        Some(Extend(M[0], j, w))
  }

  // ---------------------------------------------------------------------
  // Dot-product algebra

  lemma {:induction false} DotConcat(a1: Vector, a2: Vector, b1: Vector, b2: Vector)
    requires |a1| == |b1| && |a2| == |b2|
    ensures Dot(a1 + a2, b1 + b2) == Dot(a1, b1) + Dot(a2, b2)
    decreases |a1|
  {
    if |a1| > 0 {
      assert (a1 + a2)[1..] == a1[1..] + a2;
      assert (b1 + b2)[1..] == b1[1..] + b2;
      DotConcat(a1[1..], a2, b1[1..], b2);
    } else {
      assert a1 + a2 == a2 && b1 + b2 == b2;
    }
  }

  /** Splitting off the entries at position `j`. */
  lemma DotSplit(a: Vector, b: Vector, j: nat)
    requires |a| == |b| && j < |a|
    ensures Dot(a, b) == a[j] * b[j] + Dot(DeleteAt(a, j), DeleteAt(b, j))
  {
    assert a == a[..j] + ([a[j]] + a[j + 1..]);
    assert b == b[..j] + ([b[j]] + b[j + 1..]);
    DotSplitParts(a[..j], a[j], a[j + 1..], b[..j], b[j], b[j + 1..]);
  }

  /** `DotSplit` on a vector given as its parts. */
  lemma DotSplitParts(a1: Vector, x: int, a2: Vector, b1: Vector, y: int, b2: Vector)
    requires |a1| == |b1| && |a2| == |b2|
    ensures Dot(a1 + ([x] + a2), b1 + ([y] + b2)) == x * y + Dot(a1 + a2, b1 + b2)
  {
    DotConcat(a1, [x] + a2, b1, [y] + b2);
    assert ([x] + a2)[1..] == a2 && ([y] + b2)[1..] == b2;
    DotConcat(a1, a2, b1, b2);
  }

  lemma {:induction false} DotZeroLeft(a: Vector, b: Vector)
    requires |a| == |b| && IsZero(a)
    ensures Dot(a, b) == 0
    decreases |a|
  {
    if |a| > 0 {
      DotZeroLeft(a[1..], b[1..]);
    }
  }

  lemma {:induction false} DotZeroRight(a: Vector, b: Vector)
    requires |a| == |b| && IsZero(b)
    ensures Dot(a, b) == 0
    decreases |a|
  {
    if |a| > 0 {
      DotZeroRight(a[1..], b[1..]);
    }
  }

  lemma {:induction false} DotScale(a: Vector, c: int, w: Vector)
    requires |a| == |w|
    ensures Dot(a, Scale(c, w)) == c * Dot(a, w)
    decreases |a|
  {
    if |a| > 0 {
      assert Scale(c, w)[1..] == Scale(c, w[1..]);
      DotScale(a[1..], c, w[1..]);
      assert a[0] * (c * w[0]) == c * (a[0] * w[0]);
    }
  }

  lemma {:induction false} DotCombine(p: int, r: Vector, q: int, s: Vector, v: Vector)
    requires |r| == |s| == |v|
    ensures Dot(Combine(p, r, q, s), v) == p * Dot(r, v) - q * Dot(s, v)
    decreases |r|
  {
    if |r| > 0 {
      assert Combine(p, r, q, s)[1..] == Combine(p, r[1..], q, s[1..]);
      DotCombine(p, r[1..], q, s[1..], v[1..]);
      assert (p * r[0] - q * s[0]) * v[0] == p * (r[0] * v[0]) - q * (s[0] * v[0]);
    }
  }

  // ---------------------------------------------------------------------
  // Soundness and completeness of the elimination

  /** A zero pivot-row candidate adds no constraint. */
  lemma NullAfterZeroRow(M: Matrix, m: nat, v: Vector)
    requires IsMatrix(M, m) && |M| > 0 && IsZero(M[0]) && |v| == m
    requires IsNull(M[1..], v)
    ensures IsNull(M, v)
  {
    DotZeroLeft(M[0], v);
    forall i | 1 <= i < |M| ensures Dot(M[i], v) == 0 {
      assert M[i] == M[1..][i - 1];
    }
  }

  /** Row `i` of `M` against `v`, seen through its eliminated form. */
  lemma EliminatedDot(M: Matrix, m: nat, j: nat, i: nat, v: Vector)
    requires IsMatrix(M, m) && |M| > 0 && j < m && 1 <= i < |M| && |v| == m
    ensures Dot(Eliminated(M, m, j, i), v) == M[0][j] * Dot(M[i], v) - M[i][j] * Dot(M[0], v)
    ensures Dot(Eliminated(M, m, j, i), v) == Dot(Reduce(M, m, j)[i - 1], DeleteAt(v, j))
  {
    DotCombine(M[0][j], M[i], M[i][j], M[0], v);
    DotSplit(Eliminated(M, m, j, i), v, j);
  }

  /** Back substitution yields a nonzero null vector of the whole matrix. */
  lemma ExtendIsNull(M: Matrix, m: nat, j: nat, w: Vector)
    requires IsMatrix(M, m) && |M| > 0 && j < m && M[0][j] != 0
    requires |w| == m - 1 && !IsZero(w) && IsNull(Reduce(M, m, j), w)
    ensures |Extend(M[0], j, w)| == m
    ensures !IsZero(Extend(M[0], j, w))
    ensures IsNull(M, Extend(M[0], j, w))
  {
    var v := Extend(M[0], j, w);
    ExtendDeletes(M[0], j, w);
    forall i | 0 <= i < |M| ensures Dot(M[i], v) == 0 {
      if i == 0 {
        ExtendPivotRow(M[0], j, w);
      } else {
        ExtendOtherRow(M, m, j, w, i);
      }
    }
    var k :| 0 <= k < |w| && w[k] != 0;
    NonzeroProduct(M[0][j], w[k], DeleteAt(v, j)[k]);
  }

  /** A product of nonzero integers is nonzero. */
  lemma NonzeroProduct(a: int, b: int, c: int)
    requires a != 0 && b != 0 && c == a * b
    ensures c != 0
  {
  }

  /** Off position `j`, the back-substituted vector is the scaled null vector. */
  lemma ExtendDeletes(pivotRow: Vector, j: nat, w: Vector)
    requires j < |pivotRow| && |w| == |pivotRow| - 1
    ensures DeleteAt(Extend(pivotRow, j, w), j) == Scale(pivotRow[j], w)
  {
  }

  /** The entry chosen at `j` makes the pivot row vanish. */
  lemma ExtendPivotRow(pivotRow: Vector, j: nat, w: Vector)
    requires j < |pivotRow| && |w| == |pivotRow| - 1
    ensures Dot(pivotRow, Extend(pivotRow, j, w)) == 0
  {
    var v := Extend(pivotRow, j, w);
    var p := pivotRow[j];
    var d := Dot(DeleteAt(pivotRow, j), w);
    ExtendDeletes(pivotRow, j, w);
    DotSplit(pivotRow, v, j);
    DotScale(DeleteAt(pivotRow, j), p, w);
    assert v[j] == -d;
    CancelProducts(pivotRow[j], v[j], p, d, Dot(pivotRow, v), Dot(DeleteAt(pivotRow, j), DeleteAt(v, j)));
  }

  /** `a * b + rest` vanishes when `a` is `p`, `b` is `-d` and `rest` is `p * d`. */
  lemma CancelProducts(a: int, b: int, p: int, d: int, total: int, rest: int)
    requires a == p && b == -d && rest == p * d && total == a * b + rest
    ensures total == 0
  {
  }

  /** Every other row vanishes because its eliminated form does. */
  lemma ExtendOtherRow(M: Matrix, m: nat, j: nat, w: Vector, i: nat)
    requires IsMatrix(M, m) && |M| > 0 && j < m && M[0][j] != 0 && 1 <= i < |M|
    requires |w| == m - 1 && IsNull(Reduce(M, m, j), w)
    ensures Dot(M[i], Extend(M[0], j, w)) == 0
  {
    var p := M[0][j];
    var v := Extend(M[0], j, w);
    ExtendDeletes(M[0], j, w);
    ExtendPivotRow(M[0], j, w);
    EliminatedDot(M, m, j, i, v);
    DotScale(Reduce(M, m, j)[i - 1], p, w);
    assert p * Dot(M[i], v) == 0;
  }

  /** When elimination finds no null vector, every null vector is zero. */
  lemma {:induction false} NullVectorComplete(M: Matrix, m: nat, v: Vector)
    requires IsMatrix(M, m) && NullVector(M, m).None?
    requires |v| == m && IsNull(M, v)
    ensures IsZero(v)
    decreases |M|
  {
    if m == 0 {
    } else if |M| == 0 {
    } else if IsZero(M[0]) {
      assert IsNull(M[1..], v) by {
        forall i | 0 <= i < |M[1..]| ensures Dot(M[1..][i], v) == 0 {
          assert M[1..][i] == M[i + 1];
        }
      }
      NullVectorComplete(M[1..], m, v);
    } else {
      var j := FirstNonzero(M[0]);
      ReduceKeepsNull(M, m, j, v);
      NullVectorComplete(Reduce(M, m, j), m - 1, DeleteAt(v, j));
      PivotRowForcesZero(M[0], j, v);
    }
  }

  /** A null vector of `M`, without entry `j`, is a null vector of the reduced matrix. */
  lemma ReduceKeepsNull(M: Matrix, m: nat, j: nat, v: Vector)
    requires IsMatrix(M, m) && |M| > 0 && j < m && |v| == m && IsNull(M, v)
    ensures IsNull(Reduce(M, m, j), DeleteAt(v, j))
  {
    var R := Reduce(M, m, j);
    forall i | 0 <= i < |R| ensures Dot(R[i], DeleteAt(v, j)) == 0 {
      EliminatedDot(M, m, j, i + 1, v);
    }
  }

  /** If `v` is zero off position `j` and orthogonal to a row nonzero at `j`, it is zero. */
  lemma PivotRowForcesZero(row: Vector, j: nat, v: Vector)
    requires |row| == |v| && j < |v| && row[j] != 0
    requires IsZero(DeleteAt(v, j)) && Dot(row, v) == 0
    ensures IsZero(v)
  {
    var w := DeleteAt(v, j);
    DotSplit(row, v, j);
    DotZeroRight(DeleteAt(row, j), w);
    assert v[j] == 0;
    forall k | 0 <= k < |v| ensures v[k] == 0 {
      if k < j {
        assert v[k] == w[k];
      } else if k > j {
        assert v[k] == w[k - 1];
      }
    }
  }

  /** Elimination finds a null vector exactly when the rank is below the width. */
  lemma {:induction false} NullVectorIffRankDeficient(M: Matrix, m: nat)
    requires IsMatrix(M, m)
    ensures NullVector(M, m).Some? <==> Rank(M, m) < m
    decreases |M|
  {
    if m == 0 || |M| == 0 {
    } else if IsZero(M[0]) {
      NullVectorIffRankDeficient(M[1..], m);
    } else {
      NullVectorIffRankDeficient(Reduce(M, m, FirstNonzero(M[0])), m - 1);
    }
  }

  /** Full column rank is exactly linear independence of the columns. */
  lemma FullRankIffIndependent(M: Matrix, m: nat)
    requires IsMatrix(M, m)
    ensures Rank(M, m) == m <==> Independent(M, m)
  {
    NullVectorIffRankDeficient(M, m);
    if Rank(M, m) == m {
      forall v | |v| == m && IsNull(M, v) ensures IsZero(v) {
        NullVectorComplete(M, m, v);
      }
    } else {
      var v := NullVector(M, m).value;
      assert |v| == m && IsNull(M, v) && !IsZero(v);
    }
  }
}
