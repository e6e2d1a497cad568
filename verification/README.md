# BuckinghamPy in Dafny

A model of the dimensional-analysis pipeline of BuckinghamPy. Each parameter
is a name and an exponent vector over the seven base units
[M L t T N I J]: mass, length, time, temperature, quantity, current and
luminous intensity.

- `run` counts the Pi groups and fixes a set of repeating variables. Those are
  either supplied and checked, or found by searching the combinations of the
  parameters.
- For every other parameter it builds a dimensionless Pi group. The exponents
  of a group are a null vector of the group's dimension matrix.
- The null vector is scaled so that its entries are whole and positive where
  possible.

The numpy singular value decompositions are replaced by exact integer linear
algebra (module `LinAlg`):

- the rank, by fraction-free Gaussian elimination;
- a null vector, which exists exactly when the rank is below the number of
  columns.

What is verified is the logic around that kernel: counting, validation, the
first-match search, set differences by identity, the 1e-8 cutoff, the
four-candidate scaling and its scores, the whole-number helpers, padding and
the type table.

## Modules

| file | module | models |
|---|---|---|
| basics.dfy | `Basics` | `Option`, `Result`, `Abs`, the count of true entries |
| helpers.dfy | `Helpers` | `tryInt` and `isWholeNum`, with numpy's half-to-even rounding defined exactly over `real` |
| predefined_param.dfy | `PredefinedParam` | the `knownParamDict` table |
| params.dfy | `Params` | `Param.__init__`: padding and table lookup, plus facts about the table |
| linalg.dfy | `LinAlg` | exact rank and null vector of an integer matrix |
| column_basis.dfy | `ColumnBasis` | the pivot columns of the elimination form a basis of the column space, so `Rank` is the rank |
| itertools.dfy | `Itertools` | `itertools.combinations` and its lexicographic order |
| columns.dfy | `Columns` | parameters by reference, the dimension matrix, `list(set(a) - set(b))` |
| normalizer.dfy | `Normalizer` | `bestFactor` and `scoreFactor` |
| calc_pi_group.dfy | `PiGroups` | `calcPiGroup` after its decomposition |
| main.dfy | `BuckinghamPi` | `numOfTerms`, `checkRepeatingList`, `run` |

### Representation

**Parameters by reference.** Parameters are compared by object identity in
the source, because they go into `set`s without an `__eq__`. The model keeps a
universe `objs: seq<Param>`, and every list of parameters (`paramList`,
`repeatingList`, `depParam`) holds indices into it. All dimension vectors share
one width `m >= 7`. A longer explicit vector is kept whole by the padding, so
`m` is a parameter rather than the constant 7.

**Set differences.** Python iterates `list(set(a) - set(b))` in hash order.
The model takes the first occurrence of each reference, in the order of `a`
(`Columns.Difference`). That is one admissible order, so this is a
refinement. The search then enumerates `combinations` of that pool in
lexicographic order of positions, as `itertools` does.

**Warnings and crashes.**

- The warning for an invalid supplied list is returned as a value
  (`Outcome.warning`).
- Where the source would raise, the model has a precondition:
  - `np.vstack` on an empty list;
  - a decomposition with no null row;
  - `bestFactor` on an all-zero vector.

**The decomposition in `calcPiGroup`.** The source uses
`np.compress(s <= eps, vh)`. When there are more columns than base units,
`s` has only as many singular values as there are rows, so only the first
`|M|` rows of `vh` can be picked. `SvdFindsNull` follows the code here: a null
row is found only if the columns are dependent and, when there are more
columns than rows, the rank is also below the number of rows. `Run`
feeds `calcPiGroup` the exact integer null vector of `LinAlg.NullVector` in
place of the decomposition's first null row. That vector has no nonzero entry
below the cutoff. `PiGroups.CalcPiGroup` itself takes any raw vector.

**Scaling.** Because the normaliser searches over scale, one might expect it
to be invariant under rescaling of its input. It is not under a change of
sign: `Normalizer.NormalizeNotNegationInvariant` proves it. `[1, -1]` and `[-1, 1]` both score 3 under all four candidates, so the
first candidate wins and each vector is kept as it is.

**The second copy.** `buckinghampy/buckinghampy.py` (version 0.4) repeats the
same logic in one file: the table, `param.__init__`, `numOfTerms`,
`checkRepeatingList`, `run`, `calcPiGroup`, `tryInt`, `bestFactor`,
`scoreFactor` and `isWholeNum`. The two copies agree line for line, so one
model covers both. The table under "## Model" cites the first copy; the
matching spans of the second copy are:

| first copy | second copy |
|---|---|
| buckinghampy/predefined_param.py:3-29 | buckinghampy/buckinghampy.py:9-35 |
| buckinghampy/param.py:23-30 | buckinghampy/buckinghampy.py:53-60 |
| buckinghampy/main.py:9-31 | buckinghampy/buckinghampy.py:69-82 |
| buckinghampy/main.py:34-64 | buckinghampy/buckinghampy.py:85-105 |
| buckinghampy/main.py:67-112 | buckinghampy/buckinghampy.py:108-139 |
| buckinghampy/main.py:115-135 | buckinghampy/buckinghampy.py:142-162 |
| buckinghampy/helpers.py:3-18 | buckinghampy/buckinghampy.py:165-171 |
| buckinghampy/main.py:138-170 | buckinghampy/buckinghampy.py:174-201 |
| buckinghampy/helpers.py:21-23 | buckinghampy/buckinghampy.py:204-206 |

## Model

| member | source | states |
|---|---|---|
| Helpers.RoundHalfEven | buckinghampy/helpers.py:15 | the rounded integer is a nearest integer to its argument, and at an exact tie it is the even one (numpy's rounding rule) |
| Helpers.Round | buckinghampy/helpers.py:15 | `np.round(x, crit)` is within half a unit of the last kept place of `x` |
| Helpers.RoundScaledIsNearestStep | buckinghampy/helpers.py:15 | rounding to steps of `1/scale` gives a whole number of steps, and no number of steps is nearer to `x` |
| Helpers.IsWhole | buckinghampy/helpers.py:23 | `np.round(x, crit) % 1 == 0` holds exactly when the rounded value is an integer |
| Helpers.Mod1 | buckinghampy/helpers.py:23 | Python's `x % 1` lies in [0, 1) and is zero exactly for integers |
| Helpers.TryInt | buckinghampy/helpers.py:3-18 | an int is returned exactly when the value rounded to `crit` places is whole, and it equals that rounded value; otherwise the input comes back unchanged |
| Helpers.IsWholeNum | buckinghampy/helpers.py:21-23 | the result has the input's length, and entry i is true exactly when entry i rounded to `crit` places is whole |
| Helpers.IsWholeNumOfIntegers | buckinghampy/helpers.py:21-23 | every integer-valued entry passes `isWholeNum` |
| Helpers.IntegerIsWhole | buckinghampy/helpers.py:23 | every integer passes the whole-number test at any precision |
| Helpers.TryIntOfInteger | buckinghampy/helpers.py:15-16 | `tryInt` of an integer is that same integer |
| Helpers.NearWhole | buckinghampy/helpers.py:4-6 | a value within half a unit of the last kept place of an integer n counts as whole, and `tryInt` returns n |
| Helpers.NearWholeExample | buckinghampy/helpers.py:15 | 2.0000000001 counts as whole at 6 places, and `tryInt` returns the integer 2 |
| PredefinedParam.EntryLengths | buckinghampy/predefined_param.py:3-29 | every table entry has between 1 and 4 components |
| Params.Pad | buckinghampy/param.py:29 | the padded vector has length max(7, len(input)), keeps the input as its prefix and has zeros after it |
| Params.NewParam | buckinghampy/param.py:23-30 | a given type is looked up in the table and overrides `dim`, and an unknown type is a lookup failure; otherwise the given or default vector is padded; a constructed parameter has at least 7 components |
| Params.PadIdempotent | buckinghampy/param.py:29 | padding a padded vector changes nothing, so the in-place padding of shared lists is harmless |
| Params.PadShort | buckinghampy/param.py:29 | a vector of at most 7 components pads to exactly 7 |
| Params.DefaultIsDimensionless | buckinghampy/param.py:23 | with neither a type nor a vector, the parameter has the all-zero 7-vector |
| Params.TypeOverridesDim | buckinghampy/param.py:26-27 | with a type given, the `dim` argument makes no difference |
| Params.NamedTypesHaveSevenComponents | buckinghampy/predefined_param.py:3-29 | every named type constructs, and has exactly 7 components |
| Params.BaseTypes | buckinghampy/predefined_param.py:4-13 | mass, length, time and temperature are the first four unit vectors, and angle is dimensionless |
| Params.SharedEntries | buckinghampy/predefined_param.py:18-23 | torque, moment and energy share [1,2,-2], and pressure and stress share [1,-1,-2] |
| Params.TableConsistent | buckinghampy/predefined_param.py:4-28 | after padding, force = mass + acceleration, pressure = force - area, power = energy - time and acceleration = velocity - time |
| LinAlg.Rank | buckinghampy/main.py:22-24 | the rank is at most the number of rows and the number of columns; `ColumnBasis` shows it is the size of a basis of the column space |
| ColumnBasis.PivotCount | buckinghampy/main.py:22-24 | the elimination picks exactly `Rank` pivot columns |
| ColumnBasis.PivotColumnsIndependent | buckinghampy/main.py:22-24 | the pivot columns are independent: a null vector that uses only pivot columns is zero |
| ColumnBasis.SpanningVector | buckinghampy/main.py:22-24 | the pivot columns span: every other column has a null vector that is nonzero at it and uses only it and the pivot columns |
| LinAlg.NullVector | buckinghampy/main.py:125-128 | a vector found has one entry per column, is nonzero and is a null vector |
| LinAlg.NullVectorComplete | buckinghampy/main.py:125-128 | when none is found, every null vector is zero |
| LinAlg.NullVectorIffRankDeficient | buckinghampy/main.py:125-128 | a null vector is found exactly when the rank is below the number of columns |
| LinAlg.FullRankIffIndependent | buckinghampy/main.py:22-24 | full column rank holds exactly when no nonzero combination of the columns vanishes |
| Itertools.Combinations | buckinghampy/main.py:89 | the combinations of a pool are the pool's entries at each increasing choice of k positions, in the enumeration's order |
| Itertools.IndexCombinationsComplete | buckinghampy/main.py:89 | every increasing choice of k positions is enumerated |
| Itertools.IndexCombinationsSorted | buckinghampy/main.py:89 | the choices come in strictly increasing lexicographic order |
| Itertools.IndexCombinationsCount | buckinghampy/main.py:89 | there are C(n, k) of them |
| Itertools.CombinationsFromPool | buckinghampy/main.py:89 | every combination has k members, each drawn from the pool |
| Itertools.CombinationsDistinct | buckinghampy/main.py:89 | a combination of a duplicate-free pool has no repeated member |
| Columns.DimMatrix | buckinghampy/main.py:119-123 | the stacked and transposed matrix (also built at main.py:22 and :55) has one row per base unit and one column per parameter, and entry (u, c) is unit u of parameter c |
| Columns.Difference | buckinghampy/main.py:105 | the result holds exactly the references of the list outside the excluded set, each once |
| Columns.DifferenceCard | buckinghampy/main.py:105 | taking a duplicate-free sublist from a duplicate-free list leaves len(a) - len(b) references |
| BuckinghamPi.NumOfTerms | buckinghampy/main.py:9-31 | the counts add up to the number of parameters; `numOfRepeat` is the rank, and at most the width and the parameter count |
| BuckinghamPi.NumOfTermsMeaning | buckinghampy/main.py:22-31 | there is no Pi group exactly when the parameters are dimensionally independent, and some exactly when a null vector exists |
| BuckinghamPi.CheckRepeatingList | buckinghampy/main.py:34-64 | a wrong length is reported with the expected length before any rank test; the list is accepted exactly when length and rank both equal `numOfRepeat`; otherwise it is rejected as not independent |
| BuckinghamPi.ValidIffIndependent | buckinghampy/main.py:54-64 | a list is accepted exactly when it has the right length and its exponent vectors are linearly independent |
| BuckinghamPi.Pool | buckinghampy/main.py:88 | the pool holds each parameter of `paramList` other than `depParam`, once |
| BuckinghamPi.RepeatingCandidates | buckinghampy/main.py:89 | every candidate has `numOfRepeat` members, all parameters of the universe |
| BuckinghamPi.FirstValid | buckinghampy/main.py:90-94 | the loop stops at the first candidate that passes, all before it fail, and none passes when it runs off the end |
| BuckinghamPi.AutoSearch | buckinghampy/main.py:86-94 | the chosen list is duplicate-free, avoids `depParam` and lies in `paramList`; when nonempty it has `numOfRepeat` members and passes the check; it is empty exactly when no candidate passes |
| BuckinghamPi.AutoSearchIsFirstValid | buckinghampy/main.py:86-94 | the search comes back empty exactly when every candidate fails, and otherwise returns a candidate before which all fail |
| BuckinghamPi.AutoSearchFirstInLexOrder | buckinghampy/main.py:89-94 | every choice of `numOfRepeat` pool positions lexicographically before the chosen one fails the check |
| BuckinghamPi.ResolveRepeating | buckinghampy/main.py:84-103 | a supplied list is used unchanged and draws a warning exactly when it fails the check, carrying the reason; an empty one is replaced by the search without a warning |
| BuckinghamPi.NonRepeatList | buckinghampy/main.py:105 | the non-repeating list holds each parameter of `paramList` outside the repeating list, once |
| BuckinghamPi.Group | buckinghampy/main.py:109 | the Pi group of a parameter lists it followed by the repeating list |
| BuckinghamPi.SvdFindsNull | buckinghampy/main.py:125-128 | the decomposition yields a null row exactly when the columns are dependent and, with more columns than rows, the rank is also below the number of rows |
| BuckinghamPi.GroupDimensionless | buckinghampy/main.py:115-135 | the product of the parameters of a Pi group raised to its exponents is dimensionless |
| BuckinghamPi.Groups | buckinghampy/main.py:107-112 | one group per non-repeating parameter, in order, each followed by the repeating list |
| BuckinghamPi.Run | buckinghampy/main.py:67-112 | there are as many groups as non-repeating parameters |
| BuckinghamPi.GroupsOnePerParam | buckinghampy/main.py:105-112 | each parameter of `paramList` outside the repeating list heads exactly one group, no other parameter heads one, and every group is its head followed by the repeating list |
| BuckinghamPi.RunOneGroupPerParam | buckinghampy/main.py:105-112 | the groups of `run` are those of the repeating list it settled on |
| BuckinghamPi.RunSuppliedList | buckinghampy/main.py:96-103 | a supplied list is used for the groups whether or not it passes, and the warning is absent exactly when it passes |
| BuckinghamPi.RunGroupCount | buckinghampy/main.py:105-112 | with a valid repeating list drawn from a duplicate-free `paramList`, the number of groups is `numOfPiTerms` |
| BuckinghamPi.RunGroupCountSearched | buckinghampy/main.py:86-112 | when the search succeeds on a duplicate-free `paramList`, the number of groups is `numOfPiTerms` |
| BuckinghamPi.RunGroupsDimensionless | buckinghampy/main.py:105-135 | every Pi group that `run` returns is dimensionless |
| PiGroups.Clean | buckinghampy/main.py:129 | an entry becomes zero exactly when its magnitude is below 1e-8, and the other entries are kept |
| PiGroups.Pair | buckinghampy/main.py:134-135 | `zip(params, powers)` pairs the parameters with the powers, position by position |
| PiGroups.CalcPiGroup | buckinghampy/main.py:115-135 | the group pairs `[nonRepeatVar] + repeatingList` in order with the exponents, and an exponent is zero exactly where the raw entry fell below the cutoff |
| PiGroups.CalcPiGroupPowers | buckinghampy/main.py:129-133 | the exponents are `bestFactor(p) * p` for the cleaned vector `p` |
| PiGroups.CalcPiGroupDimensionless | buckinghampy/main.py:119-135 | a null vector of the column matrix with no nonzero entry below the cutoff survives cleaning, and the scaled exponents are still a null vector |
| PiGroups.CleanInteger | buckinghampy/main.py:129 | a nonzero integer vector passes the cutoff unchanged |
| Normalizer.MaxAbs | buckinghampy/main.py:143 | `max(abs(powers))` bounds every magnitude |
| Normalizer.MinNonzeroAbs | buckinghampy/main.py:151 | `min(abs(powers[powers != 0]))` is positive and bounds every nonzero magnitude from below |
| Normalizer.Candidates | buckinghampy/main.py:141-157 | there are four candidate factors, all nonzero |
| Basics.CountTrue | buckinghampy/main.py:167-168 | `sum` of a boolean array is the number of true entries |
| Normalizer.ScoreFactor | buckinghampy/main.py:162-170 | a score lies in [0, 2·len(powers)] |
| Normalizer.FirstMax | buckinghampy/main.py:159 | `max` with a key returns the first position of a largest score |
| Normalizer.BestFactor | buckinghampy/main.py:138-159 | `bestFactor` is nonzero, one of the four candidates, and scores at least as much as each of them |
| Normalizer.BestCandidate | buckinghampy/main.py:138-159 | the chosen candidate scores at least as much as all four, and strictly more than each one before it |
| Normalizer.BestFactorIsFirstMax | buckinghampy/main.py:138-170 | `bestFactor` is the first of +1/max, -1/max, +1/min, -1/min with the largest `scoreFactor`, and every score is at most 2·len(powers) |
| Normalizer.Normalize | buckinghampy/main.py:131-133 | `factor * powers` keeps the length, is zero exactly where the powers are zero, and has an entry ±1 |
| Normalizer.NormalizeKeepsZeros | buckinghampy/main.py:131-133 | the scaled powers are `factor * powers`, with zeros exactly where the powers are zero |
| Normalizer.NormalizeHasUnitEntry | buckinghampy/main.py:138-159 | some scaled power is ±1, and either all scaled powers lie in [-1, 1] or all nonzero ones lie outside (-1, 1) |
| Normalizer.TieTakesFirst | buckinghampy/main.py:159 | when all four candidates tie, +1/max is taken |
| Normalizer.NormalizeNotNegationInvariant | buckinghampy/main.py:138-170 | [1, -1] and its negation normalise to different vectors |

## Left out

- Singular value decomposition and its tolerances (1e-10 for the rank, 1e-15
  for the null mask) are not modelled. The rank and the null vector are
  computed exactly over the integers instead, which is what the
  decomposition approximates for small integer exponents.
- Floating-point representation error is not modelled. Rounding, `% 1`,
  scaling and the 1e-8 cutoff are exact over `real`.
- `PiGroups.CalcPiGroup` is given the raw null vector as an argument. `Run`
  passes the exact integer null vector, not the decomposition's unit-length
  first null row. When the group matrix has a one-dimensional null space
  (for example when the repeating list passes the check), the two differ only
  by a scaling before cleaning.
- `BuckinghamPi.Run` with a supplied repeating list that fails the check can
  give a group matrix whose null space has dimension two or more: with `a`,
  `b`, `c` all lengths and `repeatingList = [a, b]`, the group of `c` has a
  plane of null vectors. The decomposition's first null row is then some
  vector of that plane that the model does not determine, and the model uses
  the elimination's null vector instead. Which member of the plane the source
  returns is not modelled.
- There is no scale-invariance lemma. `Normalizer.NormalizeNotNegationInvariant`
  shows that invariance under negation does not hold. Invariance under
  positive rescaling is not proved either.
- `BuckinghamPi.RunGroupCount` needs a duplicate-free `paramList` and a
  repeating list drawn from it. With a duplicated parameter or an outside
  repeating variable, the source's set differences give a different count.
  The model computes that count but states nothing about it.
- The process-wide `warnings.simplefilter` and `warnings.warn` calls are not
  modelled. The warning comes back as a `Reason` value, not a message
  string.
- Crashes are not modelled. Their conditions are preconditions instead:
  - `np.vstack` of an empty `paramList`, or of an empty repeating list when
    `numOfRepeat` is 0;
  - a decomposition with no null row, including an empty repeating list after
    a failed search;
  - `bestFactor` of an all-zero vector.
- The in-place mutation of the caller's list, the shared default list and the
  table entries by `dim += ...` is not modelled. Construction is pure, and
  `Params.PadIdempotent` shows why that is harmless.
- Explicit dimension vectors with non-integer entries are not modelled, so
  `Param.dim` is `seq<int>`.
- Python 3's single-use `zip` iterator is not modelled. A Pi group is a
  sequence of (parameter, power) terms.
- `__repr__` and `__str__` are not modelled.
- `pprint`, `pprintPiGroup` and `buckinghampy/pi_group.py` are not modelled;
  they only print to the console.
- `demo.py` and `setup.py` are not modelled: an example script and the
  packaging.
