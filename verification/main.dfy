/**
 * The Buckingham Pi pipeline: count the Pi groups, validate or search for a
 * set of repeating variables, and build one Pi group per remaining
 * parameter.  Singular value decompositions are replaced by the exact rank
 * and null vector of `LinAlg`.
 */
module BuckinghamPi {
  import opened Basics
  import opened Params
  import opened LinAlg
  import opened Itertools
  import opened Columns
  import opened Normalizer
  import opened PiGroups

  // ---------------------------------------------------------------------
  // numOfTerms

  datatype Terms = Terms(numOfPiTerms: nat, numOfRepeat: nat)

  /** A parameter list the pipeline can stack: nonempty, over a well-formed universe. */
  predicate Universe(objs: seq<Param>, paramList: seq<Ref>, m: nat)
  {
    WellFormed(objs, m) && Refs(objs, paramList) && |paramList| > 0
  }

  /**
   * `numOfTerms(paramList)`: the number of repeating variables is the rank
   * of the dimension matrix, and the Pi groups make up the rest.
   */
  function NumOfTerms(objs: seq<Param>, paramList: seq<Ref>, m: nat): (t: Terms)
    requires Universe(objs, paramList, m)
    ensures t.numOfPiTerms + t.numOfRepeat == |paramList|
    ensures t.numOfRepeat <= m && t.numOfRepeat <= |paramList|
    ensures t.numOfRepeat == Rank(DimMatrix(objs, paramList, m), |paramList|)
  {
    var r := Rank(DimMatrix(objs, paramList, m), |paramList|);
    Terms(|paramList| - r, r)
  }

  function NumRepeat(objs: seq<Param>, paramList: seq<Ref>, m: nat): nat
    requires Universe(objs, paramList, m)
  {
    NumOfTerms(objs, paramList, m).numOfRepeat
  }

  /**
   * There are no Pi groups exactly when the parameters are dimensionally
   * independent, and some exactly when a nonzero combination of their
   * exponent vectors vanishes.
   */
  lemma NumOfTermsMeaning(objs: seq<Param>, paramList: seq<Ref>, m: nat)
    requires Universe(objs, paramList, m)
    ensures NumOfTerms(objs, paramList, m).numOfPiTerms == 0 <==> Independent(DimMatrix(objs, paramList, m), |paramList|)
    ensures NumOfTerms(objs, paramList, m).numOfPiTerms > 0 <==> NullVector(DimMatrix(objs, paramList, m), |paramList|).Some?
  {
    FullRankIffIndependent(DimMatrix(objs, paramList, m), |paramList|);
    NullVectorIffRankDeficient(DimMatrix(objs, paramList, m), |paramList|);
  }

  // ---------------------------------------------------------------------
  // checkRepeatingList

  /** Why a repeating list is rejected; the source reports these as messages. */
  datatype Reason = WrongLength(expected: nat) | NotIndependent

  datatype Check = Valid | Invalid(reason: Reason)

  /**
   * The check can run: stacking the repeating list fails when it is empty,
   * which the length test lets through only when no repeating variable is
   * expected.
   */
  predicate CheckDefined(objs: seq<Param>, paramList: seq<Ref>, rep: seq<Ref>, m: nat)
  {
    Universe(objs, paramList, m) && Refs(objs, rep) && (|rep| == 0 ==> NumRepeat(objs, paramList, m) > 0)
  }

  /**
   * `checkRepeatingList(paramList, repeatingList)`: the length is tested
   * first, then the rank of the repeating columns.
   */
  function CheckRepeatingList(objs: seq<Param>, paramList: seq<Ref>, rep: seq<Ref>, m: nat): (r: Check)
    requires CheckDefined(objs, paramList, rep, m)
    ensures |rep| != NumRepeat(objs, paramList, m) ==> r == Invalid(WrongLength(NumRepeat(objs, paramList, m)))
    ensures r.Valid? <==> |rep| == NumRepeat(objs, paramList, m) && Rank(DimMatrix(objs, rep, m), |rep|) == |rep|
    ensures r.Invalid? && |rep| == NumRepeat(objs, paramList, m) ==> r.reason == NotIndependent
  {
    var n := NumRepeat(objs, paramList, m);
    if |rep| != n then Invalid(WrongLength(n))
    else if Rank(DimMatrix(objs, rep, m), |rep|) != n then Invalid(NotIndependent)
    else Valid
  }

  /**
   * A repeating list is accepted exactly when it has as many members as
   * the dimension matrix has rank and their exponent vectors are linearly
   * independent.
   */
  lemma ValidIffIndependent(objs: seq<Param>, paramList: seq<Ref>, rep: seq<Ref>, m: nat)
    requires CheckDefined(objs, paramList, rep, m)
    ensures CheckRepeatingList(objs, paramList, rep, m).Valid? <==>
            |rep| == NumRepeat(objs, paramList, m) && Independent(DimMatrix(objs, rep, m), |rep|)
  {
    FullRankIffIndependent(DimMatrix(objs, rep, m), |rep|);
  }

  // ---------------------------------------------------------------------
  // The automatic search of `run`

  function Excluded(dep: Option<Ref>): set<Ref>
  {
    if dep.Some? then {dep.value} else {}
  }

  /** `list(set(paramList) - set([depParam]))`. */
  function Pool(paramList: seq<Ref>, dep: Option<Ref>): (p: seq<Ref>)
    ensures Distinct(p)
    ensures forall x :: x in p <==> x in paramList && dep != Some(x)
  {
    Difference(paramList, Excluded(dep))
  }

  /** `combinations(subParamList, numOfRepeat)`, in the order they are tried. */
  function RepeatingCandidates(objs: seq<Param>, paramList: seq<Ref>, dep: Option<Ref>, m: nat): (cs: seq<seq<Ref>>)
    requires Universe(objs, paramList, m)
    ensures forall i :: 0 <= i < |cs| ==> Refs(objs, cs[i]) && |cs[i]| == NumRepeat(objs, paramList, m)
  {
    var pool := Pool(paramList, dep);
    var n := NumRepeat(objs, paramList, m);
    CombinationsFromPool<Ref>(pool, n);
    var cs := Combinations<Ref>(pool, n);
    forall i | 0 <= i < |cs| ensures Refs(objs, cs[i]) && |cs[i]| == n {
      assert cs[i] in cs;
      forall t | 0 <= t < |cs[i]| ensures cs[i][t] < |objs| {
        assert cs[i][t] in cs[i];
        assert cs[i][t] in paramList;
      }
    }
    cs
  }

  /**
   * The first position at or after `from` whose candidate passes the
   * check, or `None`: the `for ... break` loop of `run`.
   */
  function FirstValid(objs: seq<Param>, paramList: seq<Ref>, cs: seq<seq<Ref>>, m: nat, from: nat): (k: Option<nat>)
    requires Universe(objs, paramList, m) && NumRepeat(objs, paramList, m) > 0 && from <= |cs|
    requires forall i :: 0 <= i < |cs| ==> Refs(objs, cs[i])
    ensures k.Some? ==> from <= k.value < |cs| && CheckRepeatingList(objs, paramList, cs[k.value], m).Valid?
    ensures k.Some? ==> forall j :: from <= j < k.value ==> CheckRepeatingList(objs, paramList, cs[j], m).Invalid?
    ensures k.None? ==> forall j :: from <= j < |cs| ==> CheckRepeatingList(objs, paramList, cs[j], m).Invalid?
    decreases |cs| - from
  {
    if from == |cs| then None
    else if CheckRepeatingList(objs, paramList, cs[from], m).Valid? then Some(from)
    else FirstValid(objs, paramList, cs, m, from + 1)
  }

  /** The position of the chosen candidate, if any passes. */
  function SearchIndex(objs: seq<Param>, paramList: seq<Ref>, dep: Option<Ref>, m: nat): (k: Option<nat>)
    requires Universe(objs, paramList, m) && NumRepeat(objs, paramList, m) > 0
    ensures k.Some? ==> k.value < |RepeatingCandidates(objs, paramList, dep, m)|
  {
    FirstValid(objs, paramList, RepeatingCandidates(objs, paramList, dep, m), m, 0)
  }

  /**
   * The repeating list `run` settles on when none is given: the first
   * valid candidate, or the empty list when none is valid.  With no
   * repeating variable expected the source fails on the empty candidate.
   */
  function AutoSearch(objs: seq<Param>, paramList: seq<Ref>, dep: Option<Ref>, m: nat): (rep: seq<Ref>)
    requires Universe(objs, paramList, m) && NumRepeat(objs, paramList, m) > 0
    ensures Refs(objs, rep) && Distinct(rep)
    ensures forall x :: x in rep ==> x in paramList && dep != Some(x)
    ensures rep != [] ==> |rep| == NumRepeat(objs, paramList, m) && CheckRepeatingList(objs, paramList, rep, m).Valid?
    ensures rep == [] <==> SearchIndex(objs, paramList, dep, m).None?
  {
    var cs := RepeatingCandidates(objs, paramList, dep, m);
    match SearchIndex(objs, paramList, dep, m)
    case None => []
    case Some(k) =>
      var pool := Pool(paramList, dep);
      CombinationsFromPool<Ref>(pool, NumRepeat(objs, paramList, m));
      CombinationsDistinct<Ref>(pool, NumRepeat(objs, paramList, m), k);
      assert cs[k] in cs;
      cs[k]
  }

  /**
   * The search takes the first candidate that passes the check, in the
   * order `combinations` produces them, and comes back empty exactly when
   * none passes.
   */
  lemma AutoSearchIsFirstValid(objs: seq<Param>, paramList: seq<Ref>, dep: Option<Ref>, m: nat)
    requires Universe(objs, paramList, m) && NumRepeat(objs, paramList, m) > 0
    ensures var cs := RepeatingCandidates(objs, paramList, dep, m);
            AutoSearch(objs, paramList, dep, m) == [] <==>
            forall j :: 0 <= j < |cs| ==> CheckRepeatingList(objs, paramList, cs[j], m).Invalid?
    ensures var cs := RepeatingCandidates(objs, paramList, dep, m);
            AutoSearch(objs, paramList, dep, m) != [] ==>
            exists k :: 0 <= k < |cs| && AutoSearch(objs, paramList, dep, m) == cs[k] &&
                        forall j :: 0 <= j < k ==> CheckRepeatingList(objs, paramList, cs[j], m).Invalid?
  {
    var cs := RepeatingCandidates(objs, paramList, dep, m);
    var k := SearchIndex(objs, paramList, dep, m);
    if k.Some? {
      assert AutoSearch(objs, paramList, dep, m) == cs[k.value];
    }
  }

  /**
   * Lexicographic minimality: every choice of `numOfRepeat` pool members
   * whose positions come before the chosen ones in lexicographic order
   * fails the check.
   */
  lemma AutoSearchFirstInLexOrder(objs: seq<Param>, paramList: seq<Ref>, dep: Option<Ref>, m: nat, c: seq<nat>)
    requires Universe(objs, paramList, m) && NumRepeat(objs, paramList, m) > 0
    requires SearchIndex(objs, paramList, dep, m).Some?
    requires |c| == NumRepeat(objs, paramList, m) && Increasing(c) && InRange(c, 0, |Pool(paramList, dep)|)
    requires LexLess(c, IndexCombinations(0, |Pool(paramList, dep)|, NumRepeat(objs, paramList, m))[SearchIndex(objs, paramList, dep, m).value])
    ensures AutoSearch(objs, paramList, dep, m) == Select<Ref>(Pool(paramList, dep), IndexCombinations(0, |Pool(paramList, dep)|, NumRepeat(objs, paramList, m))[SearchIndex(objs, paramList, dep, m).value])
    ensures Refs(objs, Select<Ref>(Pool(paramList, dep), c))
    ensures CheckRepeatingList(objs, paramList, Select<Ref>(Pool(paramList, dep), c), m).Invalid?
  {
    var pool := Pool(paramList, dep);
    var n := NumRepeat(objs, paramList, m);
    var k := SearchIndex(objs, paramList, dep, m).value;
    CandidatesAreCombinations(objs, paramList, dep, m);
    var j := EarlierChoice<Ref>(pool, n, k, c);
    SearchSkips(objs, paramList, dep, m, j);
    SearchChoice(objs, paramList, dep, m);
  }

  /** The candidates are the combinations of the pool. */
  lemma CandidatesAreCombinations(objs: seq<Param>, paramList: seq<Ref>, dep: Option<Ref>, m: nat)
    requires Universe(objs, paramList, m)
    ensures RepeatingCandidates(objs, paramList, dep, m) == Combinations<Ref>(Pool(paramList, dep), NumRepeat(objs, paramList, m))
  {
  }

  /** Every candidate before the chosen one fails the check. */
  lemma SearchSkips(objs: seq<Param>, paramList: seq<Ref>, dep: Option<Ref>, m: nat, j: nat)
    requires Universe(objs, paramList, m) && NumRepeat(objs, paramList, m) > 0
    requires SearchIndex(objs, paramList, dep, m).Some? && j < SearchIndex(objs, paramList, dep, m).value
    ensures j < |RepeatingCandidates(objs, paramList, dep, m)|
    ensures CheckRepeatingList(objs, paramList, RepeatingCandidates(objs, paramList, dep, m)[j], m).Invalid?
  {
  }

  /** The chosen list is the pool at the positions of the chosen combination. */
  lemma SearchChoice(objs: seq<Param>, paramList: seq<Ref>, dep: Option<Ref>, m: nat)
    requires Universe(objs, paramList, m) && NumRepeat(objs, paramList, m) > 0
    requires SearchIndex(objs, paramList, dep, m).Some?
    ensures SearchIndex(objs, paramList, dep, m).value < |IndexCombinations(0, |Pool(paramList, dep)|, NumRepeat(objs, paramList, m))|
    ensures AutoSearch(objs, paramList, dep, m) == Select<Ref>(Pool(paramList, dep), IndexCombinations(0, |Pool(paramList, dep)|, NumRepeat(objs, paramList, m))[SearchIndex(objs, paramList, dep, m).value])
  {
    CandidatesAreCombinations(objs, paramList, dep, m);
  }

  // ---------------------------------------------------------------------
  // The repeating list `run` uses

  /** The repeating list used and the warning issued for a supplied list. */
  datatype Resolved = Resolved(repeatingList: seq<Ref>, warning: Option<Reason>)

  /**
   * An empty `repeatingList` triggers the search; a supplied one is checked
   * and, if it fails, only warned about.
   */
  function ResolveRepeating(objs: seq<Param>, paramList: seq<Ref>, rep: seq<Ref>, dep: Option<Ref>, m: nat): (r: Resolved)
    requires CheckDefined(objs, paramList, rep, m)
    ensures Refs(objs, r.repeatingList)
    ensures rep != [] ==> r.repeatingList == rep
    ensures rep != [] ==> (r.warning.None? <==> CheckRepeatingList(objs, paramList, rep, m).Valid?)
    ensures rep != [] && r.warning.Some? ==> CheckRepeatingList(objs, paramList, rep, m) == Invalid(r.warning.value)
    ensures rep == [] ==> r == Resolved(AutoSearch(objs, paramList, dep, m), None)
  {
    if rep == [] then Resolved(AutoSearch(objs, paramList, dep, m), None)
    else
      match CheckRepeatingList(objs, paramList, rep, m)
      case Valid => Resolved(rep, None)
      case Invalid(reason) => Resolved(rep, Some(reason))
  }

  // ---------------------------------------------------------------------
  // The Pi groups

  /** `list(set(paramList) - set(repeatingList))`. */
  function NonRepeatList(paramList: seq<Ref>, rep: seq<Ref>): (r: seq<Ref>)
    ensures Distinct(r)
    ensures forall x :: x in r <==> x in paramList && x !in rep
  {
    Difference(paramList, SetOf(rep))
  }

  /**
   * The decomposition in `calcPiGroup` yields a null row: the columns are
   * dependent, and with more columns than base units (where only the first
   * rows of `vh` are matched against singular values) the rank is also
   * below the number of base units.
   */
  predicate SvdFindsNull(M: Matrix, n: nat): (b: bool)
    requires IsMatrix(M, n)
    ensures b <==> !Independent(M, n) && (n <= |M| || Rank(M, n) < |M|)
  {
    FullRankIffIndependent(M, n);
    Rank(M, n) < n && (n <= |M| || Rank(M, n) < |M|)
  }

  /** `calcPiGroup(obj, repeatingList)` can run. */
  predicate GroupDefined(objs: seq<Param>, m: nat, obj: Ref, rep: seq<Ref>)
  {
    WellFormed(objs, m) && Refs(objs, [obj] + rep) && |rep| > 0 &&
    SvdFindsNull(DimMatrix(objs, [obj] + rep, m), 1 + |rep|)
  }

  /** The Pi group of `obj`, built from the exact null vector of its columns. */
  function Group(objs: seq<Param>, m: nat, obj: Ref, rep: seq<Ref>): (g: PiGroup)
    requires GroupDefined(objs, m, obj, rep)
    ensures Members(g) == [obj] + rep
  {
    var M := DimMatrix(objs, [obj] + rep, m);
    NullVectorIffRankDeficient(M, 1 + |rep|);
    var v := NullVector(M, 1 + |rep|).value;
    CleanInteger(v);
    CalcPiGroup(obj, rep, ToReal(v))
  }

  /** The product of the parameters of a Pi group raised to its exponents is dimensionless. */
  lemma GroupDimensionless(objs: seq<Param>, m: nat, obj: Ref, rep: seq<Ref>)
    requires GroupDefined(objs, m, obj, rep)
    ensures IsNullR(DimMatrix(objs, [obj] + rep, m), Powers(Group(objs, m, obj, rep)))
  {
    var M := DimMatrix(objs, [obj] + rep, m);
    NullVectorIffRankDeficient(M, 1 + |rep|);
    var v := NullVector(M, 1 + |rep|).value;
    CleanInteger(v);
    forall u | 0 <= u < |M| ensures DotR(M[u], ToReal(v)) == 0.0 {
      DotRToReal(M[u], v);
    }
    CalcPiGroupDimensionless(M, obj, rep, ToReal(v));
  }

  /** Every Pi group can be built. */
  predicate GroupsDefined(objs: seq<Param>, paramList: seq<Ref>, rep: seq<Ref>, m: nat)
  {
    forall k :: 0 <= k < |NonRepeatList(paramList, rep)| ==> GroupDefined(objs, m, NonRepeatList(paramList, rep)[k], rep)
  }

  /** The loop of `run` over the non-repeating parameters. */
  function Groups(objs: seq<Param>, paramList: seq<Ref>, rep: seq<Ref>, m: nat): (gs: seq<PiGroup>)
    requires GroupsDefined(objs, paramList, rep, m)
    ensures |gs| == |NonRepeatList(paramList, rep)|
    ensures forall k :: 0 <= k < |gs| ==> Members(gs[k]) == [NonRepeatList(paramList, rep)[k]] + rep
  {
    var nr := NonRepeatList(paramList, rep);
    seq(|nr|, k requires 0 <= k < |nr| => Group(objs, m, nr[k], rep))
  }

  // ---------------------------------------------------------------------
  // run

  /** The Pi groups, and the warning a supplied invalid list draws. */
  datatype Outcome = Outcome(groups: seq<PiGroup>, warning: Option<Reason>)

  /** `run` gets through: the check can run and every Pi group can be built. */
  predicate RunDefined(objs: seq<Param>, paramList: seq<Ref>, rep: seq<Ref>, dep: Option<Ref>, m: nat)
  {
    CheckDefined(objs, paramList, rep, m) &&
    GroupsDefined(objs, paramList, ResolveRepeating(objs, paramList, rep, dep, m).repeatingList, m)
  }

  /** `run(paramList, repeatingList, depParam)`. */
  function Run(objs: seq<Param>, paramList: seq<Ref>, rep: seq<Ref>, dep: Option<Ref>, m: nat): (out: Outcome)
    requires RunDefined(objs, paramList, rep, dep, m)
    ensures |out.groups| == |NonRepeatList(paramList, ResolveRepeating(objs, paramList, rep, dep, m).repeatingList)|
  {
    var resolved := ResolveRepeating(objs, paramList, rep, dep, m);
    Outcome(Groups(objs, paramList, resolved.repeatingList, m), resolved.warning)
  }

  /** The parameter a Pi group is built for. */
  function Head(g: PiGroup): Ref
    requires |g| > 0
  {
    g[0].param
  }

  /**
   * One Pi group per parameter of `paramList` outside `rep`, compared by
   * identity: each such parameter heads exactly one group, followed by
   * `rep` in order.
   */
  lemma GroupsOnePerParam(objs: seq<Param>, paramList: seq<Ref>, rep: seq<Ref>, m: nat)
    requires GroupsDefined(objs, paramList, rep, m)
    ensures forall k :: 0 <= k < |Groups(objs, paramList, rep, m)| ==>
              |Groups(objs, paramList, rep, m)[k]| > 0 &&
              Members(Groups(objs, paramList, rep, m)[k]) == [Head(Groups(objs, paramList, rep, m)[k])] + rep
    ensures forall x :: (exists k :: 0 <= k < |Groups(objs, paramList, rep, m)| && Head(Groups(objs, paramList, rep, m)[k]) == x) <==>
              x in paramList && x !in rep
    ensures forall a, b :: 0 <= a < b < |Groups(objs, paramList, rep, m)| ==>
              Head(Groups(objs, paramList, rep, m)[a]) != Head(Groups(objs, paramList, rep, m)[b])
  {
    var gs := Groups(objs, paramList, rep, m);
    var nr := NonRepeatList(paramList, rep);
    forall k | 0 <= k < |gs| ensures |gs[k]| > 0 && Head(gs[k]) == nr[k] {
      assert Members(gs[k])[0] == nr[k];
    }
    forall x | x in paramList && x !in rep ensures exists k :: 0 <= k < |gs| && Head(gs[k]) == x {
      var k :| 0 <= k < |nr| && nr[k] == x;
      assert Head(gs[k]) == x;
    }
  }

  /**
   * `run` builds one Pi group per parameter of `paramList` outside the
   * repeating list it used, each followed by that list.
   */
  lemma RunOneGroupPerParam(objs: seq<Param>, paramList: seq<Ref>, rep: seq<Ref>, dep: Option<Ref>, m: nat)
    requires RunDefined(objs, paramList, rep, dep, m)
    ensures GroupsDefined(objs, paramList, ResolveRepeating(objs, paramList, rep, dep, m).repeatingList, m)
    ensures Run(objs, paramList, rep, dep, m).groups ==
            Groups(objs, paramList, ResolveRepeating(objs, paramList, rep, dep, m).repeatingList, m)
  {
  }

  /**
   * A supplied list is used as it is whether or not it passes the check;
   * the check only decides the warning.
   */
  lemma RunSuppliedList(objs: seq<Param>, paramList: seq<Ref>, rep: seq<Ref>, dep: Option<Ref>, m: nat)
    requires RunDefined(objs, paramList, rep, dep, m) && rep != []
    ensures GroupsDefined(objs, paramList, rep, m)
    ensures Run(objs, paramList, rep, dep, m).groups == Groups(objs, paramList, rep, m)
    ensures Run(objs, paramList, rep, dep, m).warning.None? <==> CheckRepeatingList(objs, paramList, rep, m).Valid?
    ensures Run(objs, paramList, rep, dep, m).warning.Some? ==>
            CheckRepeatingList(objs, paramList, rep, m) == Invalid(Run(objs, paramList, rep, dep, m).warning.value)
  {
  }

  /**
   * With a valid repeating list drawn from a duplicate-free `paramList`,
   * there are exactly `numOfPiTerms` Pi groups.
   */
  lemma RunGroupCount(objs: seq<Param>, paramList: seq<Ref>, rep: seq<Ref>, dep: Option<Ref>, m: nat)
    requires RunDefined(objs, paramList, rep, dep, m) && Distinct(paramList)
    requires var used := ResolveRepeating(objs, paramList, rep, dep, m).repeatingList;
             Distinct(used) && (forall x :: x in used ==> x in paramList) &&
             CheckRepeatingList(objs, paramList, used, m).Valid?
    ensures |Run(objs, paramList, rep, dep, m).groups| == NumOfTerms(objs, paramList, m).numOfPiTerms
  {
    var used := ResolveRepeating(objs, paramList, rep, dep, m).repeatingList;
    DifferenceCard(paramList, used);
  }

  /**
   * When the search finds a repeating list in a duplicate-free
   * `paramList`, there are exactly `numOfPiTerms` Pi groups.
   */
  lemma RunGroupCountSearched(objs: seq<Param>, paramList: seq<Ref>, dep: Option<Ref>, m: nat)
    requires RunDefined(objs, paramList, [], dep, m) && Distinct(paramList)
    requires SearchIndex(objs, paramList, dep, m).Some?
    ensures |Run(objs, paramList, [], dep, m).groups| == NumOfTerms(objs, paramList, m).numOfPiTerms
  {
    var used := AutoSearch(objs, paramList, dep, m);
    assert used != [];
    RunGroupCount(objs, paramList, [], dep, m);
  }

  /** Every Pi group of `run` is dimensionless. */
  lemma RunGroupsDimensionless(objs: seq<Param>, paramList: seq<Ref>, rep: seq<Ref>, dep: Option<Ref>, m: nat, k: nat)
    requires RunDefined(objs, paramList, rep, dep, m)
    requires k < |NonRepeatList(paramList, ResolveRepeating(objs, paramList, rep, dep, m).repeatingList)|
    ensures k < |Run(objs, paramList, rep, dep, m).groups|
    ensures var g := Run(objs, paramList, rep, dep, m).groups[k];
            Refs(objs, Members(g)) && IsNullR(DimMatrix(objs, Members(g), m), Powers(g))
  {
    var used := ResolveRepeating(objs, paramList, rep, dep, m).repeatingList;
    var nr := NonRepeatList(paramList, used);
    GroupDimensionless(objs, m, nr[k], used);
  }
}
