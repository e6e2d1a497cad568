/**
 * Parameters by reference, and the matrices built from them.
 *
 * Parameter objects are compared by identity in the pipeline (they go into
 * Python `set`s without an `__eq__`), so the model keeps a universe
 * `objs: seq<Param>` and every list of parameters holds positions into it.
 * `list(set(a) - set(b))` becomes `Difference`, which keeps the first
 * occurrence of each reference in the order of `a`: Python leaves that order
 * to the hash of the objects, and fixing it is a refinement.
 */
module Columns {
  import opened Params
  import opened LinAlg

  /** A parameter object, identified by its position in the universe. */
  type Ref = nat

  /**
   * Every object has a dimension vector of the common width `m` (stacking
   * them with `np.vstack` needs equal lengths); a constructed parameter has
   * at least seven components.
   */
  predicate WellFormed(objs: seq<Param>, m: nat)
  {
    m >= NumBaseUnits && forall o :: 0 <= o < |objs| ==> |objs[o].dim| == m
  }

  /** Every reference points into the universe. */
  predicate Refs(objs: seq<Param>, rs: seq<Ref>)
  {
    forall i :: 0 <= i < |rs| ==> rs[i] < |objs|
  }

  /** No reference occurs twice. */
  predicate Distinct(rs: seq<Ref>)
  {
    forall a, b :: 0 <= a < b < |rs| ==> rs[a] != rs[b]
  }

  /**
   * `np.vstack([p.dim for p in cols]).T`: one row per base unit, one column
   * per parameter of `cols`.
   */
  function DimMatrix(objs: seq<Param>, cols: seq<Ref>, m: nat): (M: Matrix)
    requires WellFormed(objs, m) && Refs(objs, cols)
    ensures |M| == m && IsMatrix(M, |cols|)
    ensures forall u, c :: 0 <= u < m && 0 <= c < |cols| ==> M[u][c] == objs[cols[c]].dim[u]
  {
    seq(m, u requires 0 <= u < m => seq(|cols|, c requires 0 <= c < |cols| => objs[cols[c]].dim[u]))
  }

  /** The set of references in a list. */
  function SetOf(rs: seq<Ref>): (s: set<Ref>)
    ensures forall x :: x in s <==> x in rs
  {
    set x | x in rs
  }

  /**
   * `list(set(s) - excluded)`: each reference of `s` that is not excluded,
   * once, in the order of its first occurrence.
   */
  function Difference(s: seq<Ref>, excluded: set<Ref>): (r: seq<Ref>)
    ensures forall x :: x in r <==> x in s && x !in excluded
    ensures Distinct(r)
    decreases |s|
  {
    if |s| == 0 then []
    else if s[0] in excluded then Difference(s[1..], excluded)
    else
      var rest := Difference(s[1..], excluded + {s[0]});
      assert forall b :: 0 <= b < |rest| ==> rest[b] != s[0];
      [s[0]] + rest
  }

  /** The size of a duplicate-free list is the size of its set. */
  lemma {:induction false} DistinctCard(rs: seq<Ref>)
    requires Distinct(rs)
    ensures |SetOf(rs)| == |rs|
    decreases |rs|
  {
    if |rs| > 0 {
      var tail := rs[1..];
      assert Distinct(tail) by {
        forall a, b | 0 <= a < b < |tail| ensures tail[a] != tail[b] {
          assert tail[a] == rs[a + 1] && tail[b] == rs[b + 1];
        }
      }
      DistinctCard(tail);
      assert rs[0] !in SetOf(tail) by {
        forall b | 0 <= b < |tail| ensures tail[b] != rs[0] {
          assert tail[b] == rs[b + 1];
        }
      }
      assert SetOf(rs) == SetOf(tail) + {rs[0]} by {
        assert rs == [rs[0]] + tail;
      }
    }
  }

  /**
   * Removing `k` distinct members of a duplicate-free list leaves the
   * others: `len(set(s) - set(b)) == len(s) - len(b)` when `b` lies in `s`.
   */
  lemma DifferenceCard(s: seq<Ref>, b: seq<Ref>)
    requires Distinct(s) && Distinct(b)
    requires forall x :: x in b ==> x in s
    ensures |Difference(s, SetOf(b))| == |s| - |b|
  {
    var d := Difference(s, SetOf(b));
    DistinctCard(s);
    DistinctCard(b);
    DistinctCard(d);
    assert SetOf(d) == SetOf(s) - SetOf(b);
    assert SetOf(b) <= SetOf(s);
    assert SetOf(s) == SetOf(d) + SetOf(b) && SetOf(d) * SetOf(b) == {};
  }
}
