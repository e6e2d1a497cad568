/**
 * `Param`: a parameter's name and its exponent vector over the base units
 * [M L t T N I J] (mass, length, time, temperature, quantity, current,
 * luminous intensity).  Construction is pure here: the source pads the
 * caller's list (or the shared table entry, or the shared default list) in
 * place, which is harmless because padding is idempotent.
 */
module Params {
  import opened Basics
  import opened PredefinedParam

  /** The number of base units. */
  const NumBaseUnits: nat := 7

  /** The default `dim` argument: the dimensionless vector. */
  const DefaultDim: seq<int> := [0, 0, 0, 0, 0, 0, 0]

  datatype Param = Param(name: string, dim: seq<int>)

  /** Construction fails only when a named type is missing from the table. */
  datatype ParamError = UnknownType(ptype: string)

  function Max(a: int, b: int): int
  {
    if a < b then b else a
  }

  predicate IsZeroVector(v: seq<int>)
  {
    forall i :: 0 <= i < |v| ==> v[i] == 0
  }

  /**
   * `dim += [0]*(7-len(dim))`: zero-pad to seven components.  Python's list
   * repetition by a negative count is empty, so a longer vector is kept
   * whole.
   */
  function Pad(dim: seq<int>): (r: seq<int>)
    ensures |r| == Max(NumBaseUnits, |dim|)
    ensures r[..|dim|] == dim
    ensures forall i :: |dim| <= i < |r| ==> r[i] == 0
  {
    if |dim| >= NumBaseUnits then dim
    else dim + seq(NumBaseUnits - |dim|, _ => 0)
  }

  /**
   * `Param(name, ptype, dim)`.  A given `ptype` takes precedence and is
   * looked up in the table (an unknown name is the dictionary's key error);
   * otherwise `dim`, or the default dimensionless vector, is used.
   */
  function NewParam(name: string, ptype: Option<string>, dim: Option<seq<int>>): (r: Result<Param, ParamError>)
    ensures r.Err? <==> ptype.Some? && ptype.value !in KnownParamDict
    ensures r.Err? ==> r.error == UnknownType(ptype.value)
    ensures r.Ok? ==> r.value.name == name && |r.value.dim| >= NumBaseUnits
    ensures r.Ok? && ptype.Some? ==> r.value.dim == Pad(KnownParamDict[ptype.value])
    ensures ptype.None? && dim.Some? ==> r == Ok(Param(name, Pad(dim.value)))
  {
    match ptype
    case Some(t) =>
      if t in KnownParamDict then Ok(Param(name, Pad(KnownParamDict[t])))
      else Err(UnknownType(t))
    case None =>
      match dim
      case Some(d) => Ok(Param(name, Pad(d)))
      case None => Ok(Param(name, Pad(DefaultDim)))
  }

  /** Padding an already padded vector changes nothing. */
  lemma PadIdempotent(dim: seq<int>)
    ensures Pad(Pad(dim)) == Pad(dim)
  {
  }

  /** A vector of at most seven components pads to exactly seven. */
  lemma PadShort(dim: seq<int>)
    requires |dim| <= NumBaseUnits
    ensures |Pad(dim)| == NumBaseUnits
  {
  }

  /** With neither a type nor a vector the parameter is dimensionless. */
  lemma DefaultIsDimensionless(name: string)
    ensures NewParam(name, None, None) == Ok(Param(name, DefaultDim))
    ensures IsZeroVector(DefaultDim) && |DefaultDim| == NumBaseUnits
  {
  }

  /** A named type ignores any explicit vector. */
  lemma TypeOverridesDim(name: string, ptype: string, d1: Option<seq<int>>, d2: Option<seq<int>>)
    ensures NewParam(name, Some(ptype), d1) == NewParam(name, Some(ptype), d2)
  {
  }

  /** Every named type has exactly seven components once constructed. */
  lemma NamedTypesHaveSevenComponents(name: string, ptype: string)
    requires ptype in KnownParamDict
    ensures NewParam(name, Some(ptype), None).Ok?
    ensures |NewParam(name, Some(ptype), None).value.dim| == NumBaseUnits
  {
    EntryLengths();
  }

  /** The padded table entry of a name. */
  function Known(ptype: string): seq<int>
    requires ptype in KnownParamDict
  {
    Pad(KnownParamDict[ptype])
  }

  function Add(a: seq<int>, b: seq<int>): (r: seq<int>)
    requires |a| == |b|
    ensures |r| == |a| && forall i :: 0 <= i < |a| ==> r[i] == a[i] + b[i]
  {
    seq(|a|, i requires 0 <= i < |a| => a[i] + b[i])
  }

  function Sub(a: seq<int>, b: seq<int>): (r: seq<int>)
    requires |a| == |b|
    ensures |r| == |a| && forall i :: 0 <= i < |a| ==> r[i] == a[i] - b[i]
  {
    seq(|a|, i requires 0 <= i < |a| => a[i] - b[i])
  }

  /** The basic types are the first four unit vectors; an angle is dimensionless. */
  lemma BaseTypes()
    ensures Known("mass") == [1, 0, 0, 0, 0, 0, 0]
    ensures Known("length") == [0, 1, 0, 0, 0, 0, 0]
    ensures Known("time") == [0, 0, 1, 0, 0, 0, 0]
    ensures Known("temperature") == [0, 0, 0, 1, 0, 0, 0]
    ensures Known("angle") == DefaultDim
  {
    MechanicalBaseTypes();
    ThermalBaseTypes();
  }

  lemma MechanicalBaseTypes()
    ensures Known("mass") == [1, 0, 0, 0, 0, 0, 0]
    ensures Known("length") == [0, 1, 0, 0, 0, 0, 0]
    ensures Known("time") == [0, 0, 1, 0, 0, 0, 0]
  {
  }

  lemma ThermalBaseTypes()
    ensures Known("temperature") == [0, 0, 0, 1, 0, 0, 0]
    ensures Known("angle") == DefaultDim
  {
  }

  /** Names that denote the same physical dimension. */
  lemma SharedEntries()
    ensures Known("torque") == Known("moment") == Known("energy") == [1, 2, -2, 0, 0, 0, 0]
    ensures Known("pressure") == Known("stress") == [1, -1, -2, 0, 0, 0, 0]
  {
  }

  /** The dimension vectors of the table entries used below. */
  lemma KnownValues()
    ensures Known("mass") == [1, 0, 0, 0, 0, 0, 0]
    ensures Known("time") == [0, 0, 1, 0, 0, 0, 0]
    ensures Known("area") == [0, 2, 0, 0, 0, 0, 0]
    ensures Known("velocity") == [0, 1, -1, 0, 0, 0, 0]
    ensures Known("acceleration") == [0, 1, -2, 0, 0, 0, 0]
    ensures Known("force") == [1, 1, -2, 0, 0, 0, 0]
    ensures Known("energy") == [1, 2, -2, 0, 0, 0, 0]
    ensures Known("power") == [1, 2, -3, 0, 0, 0, 0]
    ensures Known("pressure") == [1, -1, -2, 0, 0, 0, 0]
  {
    KnownKinematics();
    KnownDynamics();
  }

  lemma KnownKinematics()
    ensures Known("mass") == [1, 0, 0, 0, 0, 0, 0]
    ensures Known("time") == [0, 0, 1, 0, 0, 0, 0]
    ensures Known("area") == [0, 2, 0, 0, 0, 0, 0]
    ensures Known("velocity") == [0, 1, -1, 0, 0, 0, 0]
    ensures Known("acceleration") == [0, 1, -2, 0, 0, 0, 0]
  {
    MechanicalBaseTypes();
    KnownMotion();
  }

  lemma KnownMotion()
    ensures Known("area") == [0, 2, 0, 0, 0, 0, 0]
    ensures Known("velocity") == [0, 1, -1, 0, 0, 0, 0]
    ensures Known("acceleration") == [0, 1, -2, 0, 0, 0, 0]
  {
  }

  lemma KnownDynamics()
    ensures Known("force") == [1, 1, -2, 0, 0, 0, 0]
    ensures Known("energy") == [1, 2, -2, 0, 0, 0, 0]
    ensures Known("power") == [1, 2, -3, 0, 0, 0, 0]
    ensures Known("pressure") == [1, -1, -2, 0, 0, 0, 0]
  {
  }

  /** The vector arithmetic behind the consistency lemmas, away from the table. */
  lemma VectorSums()
    ensures Add([1, 0, 0, 0, 0, 0, 0], [0, 1, -2, 0, 0, 0, 0]) == [1, 1, -2, 0, 0, 0, 0]
    ensures Sub([1, 1, -2, 0, 0, 0, 0], [0, 2, 0, 0, 0, 0, 0]) == [1, -1, -2, 0, 0, 0, 0]
    ensures Sub([1, 2, -2, 0, 0, 0, 0], [0, 0, 1, 0, 0, 0, 0]) == [1, 2, -3, 0, 0, 0, 0]
    ensures Sub([0, 1, -1, 0, 0, 0, 0], [0, 0, 1, 0, 0, 0, 0]) == [0, 1, -2, 0, 0, 0, 0]
  {
    var m, a, f := [1, 0, 0, 0, 0, 0, 0], [0, 1, -2, 0, 0, 0, 0], [1, 1, -2, 0, 0, 0, 0];
    assert forall i | 0 <= i < 7 :: Add(m, a)[i] == f[i];
    var ar, p := [0, 2, 0, 0, 0, 0, 0], [1, -1, -2, 0, 0, 0, 0];
    assert forall i | 0 <= i < 7 :: Sub(f, ar)[i] == p[i];
    var e, t, w := [1, 2, -2, 0, 0, 0, 0], [0, 0, 1, 0, 0, 0, 0], [1, 2, -3, 0, 0, 0, 0];
    assert forall i | 0 <= i < 7 :: Sub(e, t)[i] == w[i];
    var v := [0, 1, -1, 0, 0, 0, 0];
    assert forall i | 0 <= i < 7 :: Sub(v, t)[i] == a[i];
  }

  /**
   * The table agrees with the physics relating its entries: force is mass
   * times acceleration, pressure is force per area, power is energy per
   * time and acceleration is velocity per time.
   */
  lemma TableConsistent()
    ensures Known("force") == Add(Known("mass"), Known("acceleration"))
    ensures Known("pressure") == Sub(Known("force"), Known("area"))
    ensures Known("power") == Sub(Known("energy"), Known("time"))
    ensures Known("acceleration") == Sub(Known("velocity"), Known("time"))
  {
    KnownValues();
    VectorSums();
  }
}
