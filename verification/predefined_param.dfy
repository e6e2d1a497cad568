/**
 * The table of named physical-quantity types, `knownParamDict`.  Each entry
 * lists the leading exponents over [M L t T N I J]; the remaining ones are
 * implicitly zero and are filled in when a parameter is constructed.
 */
module PredefinedParam {

  const KnownParamDict: map<string, seq<int>> := map[
    "mass" := [1],
    "length" := [0, 1],
    "time" := [0, 0, 1],
    "temperature" := [0, 0, 0, 1],
    "area" := [0, 2],
    "volumne" := [0, 3],
    "secondMomentOfArea" := [0, 4],
    "velocity" := [0, 1, -1],
    "acceleration" := [0, 1, -2],
    "angle" := [0],
    "angularVelocity" := [0, 0, -1],
    "volumneFlowRate" := [0, 3, -1],
    "massFlowRate" := [1, 0, -1],
    "force" := [1, 1, -2],
    "torque" := [1, 2, -2],
    "moment" := [1, 2, -2],
    "energy" := [1, 2, -2],
    "power" := [1, 2, -3],
    "pressure" := [1, -1, -2],
    "stress" := [1, -1, -2],
    "density" := [1, -3],
    "viscosity" := [1, -1, -1],
    "kinematicViscosity" := [0, 2, -1],
    "conductivity" := [1, 1, -3, -1],
    "specificHeat" := [0, 2, -2, -1]
  ]

  /** Every entry is nonempty and lists at most the first four base units. */
  lemma EntryLengths()
    ensures forall name :: name in KnownParamDict ==> 1 <= |KnownParamDict[name]| <= 4
  {
  }
}
