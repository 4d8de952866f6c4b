# Devito sparse-point interpolation and C type lowering, in Dafny

This project models two parts of Devito, a Python finite-difference compiler.

**The interpolation engine** (`devito/operations/interpolators.py`). A sparse function
holds points that sit between the nodes of a `d`-dimensional grid. To read a field at
those points (`interpolate`) or to add into a field from them (`inject`), Devito builds a
list of symbolic equations:

- one integer offset range per axis: `-r+1 .. r` for the linear scheme, `(-r)//2+1 .. r//2`
  for the precomputed scheme;
- the neighbour tuples, which are the cartesian product of the ranges;
- one coefficient per neighbour, the product of one weight per axis. The linear weights
  are `1 - p/h` and `p/h`; the precomputed ones come from a table;
- temporaries that define the point's position and, for the linear scheme, its distance
  `p` to the node below;
- one guarded index symbol `ii_<sparse>_<dim>_<ri>` per axis and offset;
- one substitution map per neighbour, which moves every field the expression reads onto
  that neighbour's indices.

`interpolate` accumulates `expr * coefficient` over the neighbours into `sum`, then writes
`sum` into the sparse function. `inject` increments the field at every neighbour. Both are
returned as deferred operations: the equations are built only when the operation is
evaluated, and adding operations together builds a flat list.

**C type lowering** (`devito/tools/dtypes_lowering.py`):

- `ctypes_to_cstr` spells a ctypes type (structure, union, pointer, array or simple type)
  as a C type string;
- `ctypes_to_cgen` turns a structure, possibly behind pointers, into a struct declaration
  with one member per field;
- `dtype_to_mpitype` maps six numpy types to MPI datatype names.

## Layout

| file | module | contents |
|---|---|---|
| wrappers.dfy | Wrappers | `Option`, `Result` and the Python exceptions the code can raise |
| strings.dfy | Strings | `'%d'` rendering, `str.split(sep)`, `str.split()`, `sep.join`, `startswith`/`endswith` |
| reals.dfy | Reals | sums and products of reals, with small lemmas for the nonlinear steps |
| symbolic.dfy | Symbolic | terms, conditions, `Eq`/`Inc`, `xreplace`, `subs` of dimensions, `prod`, and an evaluation of terms under an environment |
| offsets.dfy | Offsets | `range`, the two schemes' offset ranges, Python list indexing, `itertools.product` |
| separable.dfy | Separable | sums of product weights over neighbour tuples (partition of unity) |
| sparse_operations.dfy | SparseOperations | deferred operations, `flatten`, `__add__`/`__radd__` |
| interpolators.dfy | Interpolators | the interpolators, their weights and temporaries, the two loop-built methods, the callbacks |
| interpolator_properties.dfy | InterpolatorProperties | when coefficients exist, and their values under an environment |
| interpolator_equations.dfy | InterpolatorEquations | index symbols and guards, the layout of the temporaries, the substitutions, the shape of the emitted equations |
| dtypes_lowering.dfy | DtypesLowering | `ctypes_to_cstr`, `ctypes_to_cgen`, `dtype_to_mpitype` |

## Where the model follows the code

- **Precomputed offset range.** The range is `range(-self.r//2 + 1, self.r//2 + 1)`. In
  Python, unary minus binds before `//`, so the range starts at `(-r)//2 + 1` and has
  exactly `r` entries for every `r >= 1`. Reading it as `-(r//2) + 1` would give `r - 1`
  entries for odd `r`; the model follows the expression as Python evaluates it.
- **Offsets used as list indices.** Both `self._weights[d][i]` and `c[pi]` index a Python
  list with the offset itself, not with its position. A negative offset therefore counts
  from the end of the list. The model uses Python's indexing rule (`Offsets.PyPos`). It
  proves that the weight and the index symbol that an offset selects always sit at the
  same position, so every neighbour's weight still goes with its own indices.
- **Linear scheme with `r >= 2`.** Each axis has only two linear weights, so an offset of
  `2` or more raises IndexError while the coefficients are built. The model returns
  `Failure(IndexError)` there.

## Model

| member | source | states |
|---|---|---|
| SparseOperations.Evaluate | devito/operations/interpolators.py:39-42 | definition: evaluating a deferred operation returns its callback's equations; properties in Interpolators.Interpolate and Interpolators.Inject |
| SparseOperations.Flatten | devito/operations/interpolators.py:44-48 | definition of `flatten` on nested lists; properties in SparseOperations.FlattenConcat, FlattenLeaves and FlattenIdempotent |
| SparseOperations.Add | devito/operations/interpolators.py:44-45 | `op + other` is the operation followed by every leaf of `other`, nesting removed, in order |
| SparseOperations.RAdd | devito/operations/interpolators.py:47-48 | `other + op` is every leaf of `other`, in order, followed by the operation |
| SparseOperations.FlattenSingleton | devito/operations/interpolators.py:44-48 | flattening a one-element list gives that element's leaves |
| SparseOperations.FlattenConcat | devito/operations/interpolators.py:44-48 | flattening a concatenation gives the concatenation of the flattened parts |
| SparseOperations.FlattenLeaves | devito/operations/interpolators.py:44-48 | a list that is already flat flattens to itself |
| SparseOperations.FlattenNested | devito/operations/interpolators.py:44-48 | nesting a list once more does not change its flattening |
| SparseOperations.FlattenIdempotent | devito/operations/interpolators.py:44-48 | flattening is idempotent: the flattened list, taken as leaves, flattens to itself |
| SparseOperations.AddAssociative | devito/operations/interpolators.py:44-48 | `(a + b) + c` and `a + (b + c)` are both the list `[a, b, c]` |
| Offsets.LinearPoints | devito/operations/interpolators.py:145-146 | definition of `range(-r+1, r+1)`; properties in Offsets.LinearPointsShape |
| Offsets.PrecomputedPoints | devito/operations/interpolators.py:348-350 | definition of `range(-r//2 + 1, r//2 + 1)` with Python's precedence and floor division; properties in Offsets.PrecomputedPointsShape |
| Offsets.Product | devito/operations/interpolators.py:149-150 | definition of `itertools.product(s, repeat=n)`; properties in Offsets.ProductShape, ProductMembership, ProductDistinct and ProductOrder |
| Offsets.Range | devito/operations/interpolators.py:146 | `range(lo, hi)` has `hi - lo` elements (none if `hi < lo`), and the i-th is `lo + i` |
| Offsets.RangeMembership | devito/operations/interpolators.py:146 | `x` is in `range(lo, hi)` exactly when `lo <= x < hi` |
| Offsets.RangeDistinct | devito/operations/interpolators.py:146 | a range has no repeated element |
| Offsets.LinearPointsShape | devito/operations/interpolators.py:145-146 | the linear range has the `2r` consecutive offsets `-r+1 .. r`, and contains nothing else |
| Offsets.PrecomputedPointsShape | devito/operations/interpolators.py:348-350 | the precomputed range has exactly `r` consecutive offsets, from `(-r)//2 + 1` to `r//2` |
| Offsets.PointsStart | devito/operations/interpolators.py:145-150 | for `r >= 1`, both ranges start in `(-len, 0]`, so every offset is a valid Python index into a list as long as the range |
| Offsets.PyPos | devito/operations/interpolators.py:156 | a Python index that does not raise designates a position inside the list |
| Offsets.PyPosPermutes | devito/operations/interpolators.py:210 | a range of consecutive offsets starting in `(-n, 0]`, used as indices into a list of length `n`, raises for none of them and hits each position exactly once |
| Offsets.ProductShape | devito/operations/interpolators.py:149-150 | `product(s, repeat=n)` has `len(s)^n` tuples, each of length `n` with entries from `s` |
| Offsets.ProductMembership | devito/operations/interpolators.py:149-150 | a tuple is a neighbour exactly when it has `n` entries, each from `s` |
| Offsets.ProductDistinct | devito/operations/interpolators.py:149-150 | over distinct offsets, no neighbour tuple is repeated |
| Offsets.ProductOrder | devito/operations/interpolators.py:149-150 | lexicographic order with the last axis fastest: tuple `k*len(s) + i` is tuple `k` of one axis fewer, followed by `s[i]` |
| Separable.UnitPartition | devito/operations/interpolators.py:153-157 | when every axis has two weights that sum to 1, the product weights of all `2^n` tuples over offsets 0 and 1 sum to 1 |
| Separable.TupleWeightDelta | devito/operations/interpolators.py:153-157 | when every axis puts weight 1 on offset 0 and 0 elsewhere, a tuple weighs 1 if it is all zeros and 0 otherwise |
| Separable.TupleWeightUnit | devito/operations/interpolators.py:153-157 | when every selected weight lies in [0, 1], so does the tuple's product weight |
| Symbolic.Xreplace | devito/operations/interpolators.py:166-173 | definition of structural `xreplace` on terms; properties in InterpolatorEquations.InterpolateContribution and InjectContribution |
| Symbolic.SubsDims | devito/operations/interpolators.py:210-212 | definition of `v.subs({dim: index})` on a function access; properties in InterpolatorEquations.SubstitutedIndex and InjectTarget |
| Symbolic.ProdTerm | devito/operations/interpolators.py:156 | definition of `prod` as a left fold from 1; properties in Symbolic.EvalProdTerm |
| Symbolic.EvalProdTerm | devito/operations/interpolators.py:156 | `prod(ts)` evaluates to the product of the values of `ts` |
| Reals.FloorRemainder | devito/operations/interpolators.py:334 | for a positive spacing `h`, `x - h*floor(x/h)` lies in `[0, h)` |
| Strings.NatToStringInjective | devito/operations/interpolators.py:196 | distinct numbers render as distinct `%d` strings |
| Strings.DigitSuffix | devito/operations/interpolators.py:196 | a name ending in `_` and digits determines both the prefix and the digits |
| Strings.WordsJoin | devito/tools/dtypes_lowering.py:135 | joining non-empty, space-free words with single spaces and calling `split()` gives the words back |
| Interpolators.InterpPoints | devito/operations/interpolators.py:145-146 | definition: the linear range, or the precomputed override of lines 348-350; properties in Offsets.LinearPointsShape, PrecomputedPointsShape and Interpolators.InterpPointsDistinct |
| Interpolators.NdPoints | devito/operations/interpolators.py:149-150 | definition: the product of the range over the grid dimensions; properties in Interpolators.NdPointsLength and the Offsets product lemmas |
| Interpolators.Coefficient | devito/operations/interpolators.py:156 | definition: `prod` of one weight per axis, selected by Python indexing; properties in InterpolatorProperties.EvalCoefficient |
| Interpolators.CoefficientsOf | devito/operations/interpolators.py:153-157 | definition: the coefficients of a list of tuples, or IndexError; properties in InterpolatorProperties.CoefficientsOfSuccess and Interpolators.CoefficientsFail |
| Interpolators.Coefficients | devito/operations/interpolators.py:153-157 | definition: the coefficients of all neighbours; properties in Interpolators.InterpolationCoeffs, InterpolatorProperties.CoefficientsOfSuccess, LinearCoefficients and PrecomputedCoefficients |
| Interpolators.Positions | devito/operations/interpolators.py:162-164 | definition: the position temporaries, none for the precomputed scheme with grid points (lines 341-346); properties in InterpolatorEquations.IndexTempsLayout |
| Interpolators.CoeffTemps | devito/operations/interpolators.py:332-336 | definition: the linear scheme's `p = pos - h*floor(pos/h)` per axis, none otherwise (lines 159-160); properties in InterpolatorProperties.EvalCoeffTemp and CoeffTempBounds |
| Interpolators.IndexName | devito/operations/interpolators.py:196 | definition of the name `ii_<sparse>_<dim>_<ri>`; properties in InterpolatorEquations.IndexNameInjective |
| Interpolators.Guard | devito/operations/interpolators.py:199-201 | definition of the bounds condition; properties in InterpolatorEquations.GuardHolds |
| Interpolators.IndexDim | devito/operations/interpolators.py:202-203 | definition of the guarded indirect dimension; properties in InterpolatorEquations.SubstitutedIndex |
| Interpolators.IndexEquation | devito/operations/interpolators.py:204 | definition of `Eq(ii, pos + offset)`; properties in InterpolatorEquations.IndexEquationsAt |
| Interpolators.IndexEquations | devito/operations/interpolators.py:194-204 | definition: the index equations of the first axes; properties in InterpolatorEquations.IndexEquationsLength and IndexEquationsAt |
| Interpolators.IndexTemps | devito/operations/interpolators.py:184-204 | definition: positions, coefficient temporaries, then index equations; properties in InterpolatorEquations.IndexTempsLayout and Interpolators.InterpolationIndices |
| Interpolators.OriginOf | devito/operations/interpolators.py:210 | definition of `v.origin.get(k, 0)`; properties in InterpolatorEquations.DimSubsAt |
| Interpolators.DimSubs | devito/operations/interpolators.py:210-211 | definition of one neighbour's map from dimensions to indices; properties in InterpolatorEquations.DimSubsAt |
| Interpolators.OperandSubs | devito/operations/interpolators.py:210-212 | definition of the dictionary comprehension over the variables; properties in InterpolatorEquations.OperandSubsKeys and OperandSubsLast |
| Interpolators.Evaluated | devito/operations/interpolators.py:239-243 | definition: `expr.evaluate` when present, else the expression itself (also lines 292-296); used by Interpolators.Interpolate and Inject |
| Interpolators.InterpolateEquations | devito/operations/interpolators.py:237-267 | definition of the interpolation callback; properties in InterpolatorEquations.InterpolateFailure, InterpolateLayout and InterpolateContribution |
| Interpolators.InjectEquations | devito/operations/interpolators.py:290-311 | definition of the injection callback; properties in InterpolatorEquations.InjectFailure, InjectLayout, InjectContribution and InjectTarget |
| Interpolators.ImplicitDims | devito/operations/interpolators.py:137-138 | `implicit_dims` is the given dimensions followed by the sparse function's dimensions |
| Interpolators.AxisWeights | devito/operations/interpolators.py:327-330 | each axis has two linear weights, or one precomputed weight per offset of the range |
| Interpolators.Factors | devito/operations/interpolators.py:156 | a neighbour contributes one weight factor per axis |
| Interpolators.DictValues | devito/operations/interpolators.py:157 | `list(coeffs.values())` has one value per inserted key |
| Interpolators.DictValuesUpdate | devito/operations/interpolators.py:156-157 | inserting a new key appends its value to the values, in insertion order |
| Interpolators.DictValuesFrame | devito/operations/interpolators.py:156-157 | inserting a new key leaves the values of earlier keys unchanged |
| Interpolators.FreshNeighbour | devito/operations/interpolators.py:155-156 | no neighbour tuple occurs before its own position, so each assignment to `coeffs` inserts a new key |
| Interpolators.InterpPointsDistinct | devito/operations/interpolators.py:145-150 | the offset range has no repeated offset |
| Interpolators.NdPointsLength | devito/operations/interpolators.py:149-150 | every neighbour tuple has one offset per grid dimension |
| Interpolators.CoefficientsFail | devito/operations/interpolators.py:155-156 | once a tuple raises IndexError, building all the coefficients raises IndexError |
| Interpolators.CoefficientsFailure | devito/operations/interpolators.py:155-156 | building the coefficients can fail only with IndexError |
| Interpolators.InterpolationCoeffs | devito/operations/interpolators.py:153-157 | the loop that fills the `coeffs` dictionary returns the coefficients of all neighbours, in neighbour order, or IndexError |
| Interpolators.EmptyLists | devito/operations/interpolators.py:181-182 | the initial `mapper` has an empty list for every grid dimension |
| Interpolators.EmptyListsKeys | devito/operations/interpolators.py:181-182 | the initial `mapper` has no keys besides the grid dimensions |
| Interpolators.AxisMapper | devito/operations/interpolators.py:195-203 | `mapper[d]` gets one guarded dimension per offset |
| Interpolators.Columns | devito/operations/interpolators.py:181-203 | the filled `mapper` has one column per grid dimension |
| Interpolators.AxisIndexTemps | devito/operations/interpolators.py:195-204 | each axis gets one index equation per offset |
| Interpolators.NdPointsIndexable | devito/operations/interpolators.py:207-211 | every neighbour's offsets are valid Python indices into every `mapper` column |
| Interpolators.OffsetIndexable | devito/operations/interpolators.py:210 | every offset of the range is a valid Python index into a list as long as the range |
| Interpolators.IdxSubs | devito/operations/interpolators.py:207-213 | `idx_subs` has one substitution map per neighbour tuple |
| Interpolators.IdxSubsAt | devito/operations/interpolators.py:207-213 | the k-th substitution map is built from the k-th neighbour tuple |
| Interpolators.InterpolationIndices | devito/operations/interpolators.py:175-215 | the nested loops return the temporaries (positions, coefficient temporaries, then one index equation per axis and offset) and one substitution map per neighbour |
| Interpolators.SubsCoords | devito/operations/interpolators.py:166-168 | `zip` stops at the shorter of the coefficients and the substitutions |
| Interpolators.SubsCoordsEq | devito/operations/interpolators.py:170-173 | `zip` stops at the shorter of the coefficients and the substitutions |
| Interpolators.Summands | devito/operations/interpolators.py:258-260 | the accumulation has one equation more than there are contributions |
| Interpolators.Interpolate | devito/operations/interpolators.py:217-269 | `interpolate` returns an Interpolation whose evaluation is the callback's equation list, built over the extended implicit dimensions |
| Interpolators.Inject | devito/operations/interpolators.py:271-313 | `inject` returns an Injection whose evaluation is the callback's equation list, built over the extended implicit dimensions |
| InterpolatorProperties.CoefficientsOfSuccess | devito/operations/interpolators.py:153-157 | the coefficients exist exactly when every tuple's offsets index its weight lists; then there is one per tuple, in order, each the product of its factors |
| InterpolatorProperties.PrecomputedCoefficients | devito/operations/interpolators.py:364-368 | the precomputed scheme never raises, and has one coefficient per neighbour |
| InterpolatorProperties.LinearCoefficients | devito/operations/interpolators.py:327-330 | the linear coefficients exist exactly when the grid has no dimension or `r <= 1`; otherwise the error is IndexError |
| InterpolatorProperties.EvalCoefficient | devito/operations/interpolators.py:156 | a coefficient evaluates to the product of the weight values its offsets select, axis by axis |
| InterpolatorProperties.LinearUnitPoints | devito/operations/interpolators.py:145-150 | with `r = 1` the linear offsets are `[0, 1]` and the neighbours are all tuples over them |
| InterpolatorProperties.EvalLinearWeights | devito/operations/interpolators.py:327-330 | axis `j`'s two linear weights evaluate to `1 - p/h` and `p/h` |
| InterpolatorProperties.LinearTableNormalised | devito/operations/interpolators.py:327-330 | every axis' two linear weights sum to 1 |
| InterpolatorProperties.LinearSelected | devito/operations/interpolators.py:156 | offsets 0 and 1 index the two linear weights directly, without wrapping |
| InterpolatorProperties.LinearCoefficientValue | devito/operations/interpolators.py:153-157 | the k-th radius-1 linear coefficient evaluates to the product weight of the k-th neighbour |
| InterpolatorProperties.LinearPartitionOfUnity | devito/operations/interpolators.py:153-157 | the radius-1 linear coefficients sum to 1, whatever values the point symbols and spacings take |
| InterpolatorProperties.LinearNodeDelta | devito/operations/interpolators.py:153-157 | at a grid node (every `p` is 0) the coefficient is 1 for the all-zero neighbour and 0 for every other |
| InterpolatorProperties.EvalCoeffTemp | devito/operations/interpolators.py:332-336 | axis `j`'s coefficient temporary assigns `p` the value `pos - h*floor(pos/h)` |
| InterpolatorProperties.RemainderWeights | devito/operations/interpolators.py:332-336 | that remainder lies in `[0, h)`, so `1 - p/h` lies in `(0, 1]` and `p/h` in `[0, 1)` |
| InterpolatorProperties.CoeffTempBounds | devito/operations/interpolators.py:327-336 | once `p` holds its temporary's value and `h > 0`, `p` and both linear weights of the axis lie within those bounds |
| InterpolatorProperties.LinearCoefficientBounds | devito/operations/interpolators.py:153-157 | between the nodes every radius-1 linear coefficient lies in [0, 1], so interpolation takes a convex combination |
| InterpolatorEquations.IndexNameInjective | devito/operations/interpolators.py:196 | two index symbol names coincide exactly when their axes and offset positions do |
| InterpolatorEquations.GuardHolds | devito/operations/interpolators.py:199-201 | an index symbol's guard holds exactly when the symbol lies in `[min - r, max + r]` |
| InterpolatorEquations.IndexEquationsLength | devito/operations/interpolators.py:194-204 | there are `d * len(range)` index equations |
| InterpolatorEquations.IndexEquationsAt | devito/operations/interpolators.py:194-204 | the index equations come axis by axis, each axis' in range order |
| InterpolatorEquations.IndexTempsLayout | devito/operations/interpolators.py:184-204 | the temporaries are the positions (none when precomputed grid points are given), then the coefficient temporaries (linear only), then the index equations `ii = pos + offset`, each at its computed position |
| InterpolatorEquations.DimSubsAt | devito/operations/interpolators.py:210-211 | a neighbour's dimension map sends each axis to the guarded index its offset selects, less the origin (0 when missing) |
| InterpolatorEquations.OperandSubsKeys | devito/operations/interpolators.py:210-212 | the keys of a substitution map are exactly the operands |
| InterpolatorEquations.OperandSubsLast | devito/operations/interpolators.py:210-212 | an operand's substitution comes from its last occurrence among the operands |
| InterpolatorEquations.SubstitutedIndex | devito/operations/interpolators.py:194-212 | the k-th substitution replaces axis `j` by the guarded index symbol its offset designates, and a temporary defines that symbol |
| InterpolatorEquations.AxisPositions | devito/operations/interpolators.py:210 | every position of an axis' list is designated by exactly one offset of the range |
| InterpolatorEquations.PrecomputedAlignment | devito/operations/interpolators.py:364-368 | a precomputed neighbour's weight and index symbol sit at the same position `q` of the range: the table entry for offset `pts[q]`, and the point's node plus `pts[q]` |
| InterpolatorEquations.LinearAlignment | devito/operations/interpolators.py:327-330 | with `r = 1`, offset 0 pairs `1 - p/h` with the node below the point, and offset 1 pairs `p/h` with the node above it |
| InterpolatorEquations.InterpolateFailure | devito/operations/interpolators.py:237-267 | an interpolation fails exactly when the expression reads no function or a coefficient cannot be formed, and then with IndexError |
| InterpolatorEquations.InterpolateLayout | devito/operations/interpolators.py:237-267 | a successful interpolation emits the temporaries, `sum = 0`, one increment per neighbour and the final write, which is an Inc exactly when `increment` is set |
| InterpolatorEquations.InterpolateContribution | devito/operations/interpolators.py:255-260 | the k-th increment adds the expression times the k-th coefficient, both under the k-th substitution |
| InterpolatorEquations.CoefficientsLength | devito/operations/interpolators.py:153-157 | there is one coefficient per neighbour |
| InterpolatorEquations.InjectFailure | devito/operations/interpolators.py:290-311 | an injection fails exactly when a coefficient cannot be formed, and then with IndexError |
| InterpolatorEquations.InjectLayout | devito/operations/interpolators.py:290-311 | a successful injection emits the temporaries, then one increment per neighbour |
| InterpolatorEquations.InjectContribution | devito/operations/interpolators.py:298-311 | the k-th increment adds the expression times the k-th coefficient into the field at the k-th neighbour's guarded indices |
| InterpolatorEquations.InjectTarget | devito/operations/interpolators.py:298 | the field, appended last to the operands, is substituted by its own dimension map |
| DtypesLowering.CtypesToCstr | devito/tools/dtypes_lowering.py:49-106 | definition of `ctypes_to_cstr`; properties in DtypesLowering.PointerChain, ArrayPassthrough, ScalarDeclarator, PointerToArray, DeclaratorIgnored, PrimitivePointer and QualifiersOutermost |
| DtypesLowering.Primitive | devito/tools/dtypes_lowering.py:67-97 | definition of the simple-type branch; properties in DtypesLowering.PrimitivePointer, QualifiedPrimitivePointer and ScalarExamples |
| DtypesLowering.CName | devito/tools/dtypes_lowering.py:83-93 | definition of the `u` prefix and `byte` rules; properties in DtypesLowering.ScalarExamples |
| DtypesLowering.Cgen | devito/tools/dtypes_lowering.py:109-145 | definition of `ctypes_to_cgen`'s result; properties in DtypesLowering.CgenUnwrap, CgenOutcome, CgenMembers and CgenTypename |
| DtypesLowering.MemberTypename | devito/tools/dtypes_lowering.py:130-141 | definition of one member's type string; properties in DtypesLowering.CgenTypename, ConstSymbolMember and RestrictMember |
| DtypesLowering.StripConst | devito/tools/dtypes_lowering.py:133-135 | definition of removing `const` from the words; properties in DtypesLowering.StripConstWords |
| DtypesLowering.PointerChain | devito/tools/dtypes_lowering.py:55-64 | `k >= 1` pointers to a non-pointer type render as the type, a space and `k` stars |
| DtypesLowering.PointerPointerExample | devito/tools/dtypes_lowering.py:55-64 | a pointer to a pointer to `c_int` is `int **` |
| DtypesLowering.ArrayPassthrough | devito/tools/dtypes_lowering.py:65-66 | nested arrays pass the declarator to the innermost element, followed by one `[n]` per array |
| DtypesLowering.ScalarDeclarator | devito/tools/dtypes_lowering.py:67-97 | a declarator given to a simple type follows its C name after a space |
| DtypesLowering.PointerToArray | devito/tools/dtypes_lowering.py:55-66 | a pointer to an array with declarator `d` renders as `T (* d)[n]...` |
| DtypesLowering.DeclaratorIgnored | devito/tools/dtypes_lowering.py:49-54 | structures, unions and custom types ignore the declarator and render as `struct N`, `union N` or the bare name |
| DtypesLowering.PrimitivePointer | devito/tools/dtypes_lowering.py:75-77 | `c_X_p` renders as the C name of `X` followed by ` *` |
| DtypesLowering.QualifiedPrimitivePointer | devito/tools/dtypes_lowering.py:75-77 | for `c_Q_X_p` only the piece `X` before `_p` names the type |
| DtypesLowering.ScalarExamples | devito/tools/dtypes_lowering.py:67-97 | `c_int`, `c_uint` and `c_ubyte` are `int`, `unsigned int` and `unsigned char` |
| DtypesLowering.VoidPointerExamples | devito/tools/dtypes_lowering.py:67-97 | `c_void_p` and `c_restrict_void_p` are both `void *` |
| DtypesLowering.QualifiersOutermost | devito/tools/dtypes_lowering.py:102-104 | with qualifiers, the string is the space-joined qualifiers, a space, and the unqualified string |
| DtypesLowering.QualifiedWords | devito/tools/dtypes_lowering.py:102-104 | single-word qualifiers come first among the words of the type string, in order |
| DtypesLowering.Unwrap | devito/tools/dtypes_lowering.py:114-115 | unwrapping pointers ends in a type that is not a pointer |
| DtypesLowering.FieldSymbols | devito/tools/dtypes_lowering.py:123-126 | without `fields`, every field gets None; otherwise the given list is used |
| DtypesLowering.CtypesToCgen | devito/tools/dtypes_lowering.py:109-145 | the method (pointer unwrap, count check, entries loop) computes the declaration `Cgen` specifies |
| DtypesLowering.BuildMembers | devito/tools/dtypes_lowering.py:128-143 | the entries loop appends one member per field and symbol, in order |
| DtypesLowering.CgenUnwrap | devito/tools/dtypes_lowering.py:114-115 | pointers are looked through: the result is that of the type they end in |
| DtypesLowering.CgenOutcome | devito/tools/dtypes_lowering.py:114-126 | None exactly when the pointers do not end in a structure; AssertionError exactly when `fields` is given with the wrong length |
| DtypesLowering.CgenMembers | devito/tools/dtypes_lowering.py:128-145 | the declaration is named after the structure and has one member per field, in order, each named as its field |
| DtypesLowering.CgenTypename | devito/tools/dtypes_lowering.py:129-143 | a member's typename is its symbol's words without `const`, or else the field type's string, with `restrict` appended exactly for `c_restrict_void_p` |
| DtypesLowering.StripConstWords | devito/tools/dtypes_lowering.py:133-135 | removing `const` keeps every other word, in order, and leaves no `const` |
| DtypesLowering.ConstSymbolMember | devito/tools/dtypes_lowering.py:130-137 | a `const`-qualified symbol of type `ct` gives the member the words of `ct`'s own type string, without `const` |
| DtypesLowering.RestrictMember | devito/tools/dtypes_lowering.py:139-141 | a `c_restrict_void_p` field without a symbol is declared `void *restrict` |
| DtypesLowering.DtypeToMpitype | devito/tools/dtypes_lowering.py:32-39 | definition of the six-entry table; properties in DtypesLowering.MpitypeDomain and MpitypeRoundTrip |
| DtypesLowering.MpitypeDomain | devito/tools/dtypes_lowering.py:32-39 | exactly six numpy types have an MPI datatype; every other one raises KeyError |
| DtypesLowering.MpitypeRoundTrip | devito/tools/dtypes_lowering.py:32-39 | the table is invertible: each MPI name stands for exactly one numpy type |

## Left out

- Sympy itself. Expressions are the `Term` datatype, and `xreplace` and `subs` are
  recursive functions over it. Terms are never simplified. `Eval` gives terms numbers
  only for the lemmas about coefficient values, and takes `x / 0` to be 0.
- `retrieve_function_carriers` is a parameter (`carriers`) giving the functions an
  expression reads, each with its staggering origin.
- `expr.evaluate` appears as an optional evaluated form of the expression.
- The equations are never executed: the model states the equation list and its
  coefficients' values, not the number that the generated loop computes.
- What an indirect `ConditionalDimension` does in the compiled loop, and how colliding
  `Inc`s are made atomic or reduced. These are compiler and concurrency behaviour, so
  the guard is modelled as data only.
- The `points` dictionary of `_interpolation_indices` is filled but never read.
- The `offset` and `field_offset` arguments are unused by the code. Taking
  `variables[0].origin` matters only through the IndexError it raises when there are no
  variables.
- `cached_property` memoisation: caching does not change results. `__repr__`, and the
  stored `expr`/`offset` fields, are never read.
- The dtype of the `sum` symbol is not modelled.
- Interpolators.InterpolateEquations: `self.sfunction.subs(self_subs)` is applied by
  structural replacement (`Xreplace`), not by sympy's sequential, algebraic `subs`. The two
  agree when the keys are dimensions or other atoms, which is how `self_subs` is used.
- Floating point: weights and coordinates are exact reals.
- `dtype_to_cstr` and `dtype_to_ctype` are thin wrappers over cgen and numpy. cgen's
  `Struct`/`Value` are plain records.
- ctypes classes are constructors of one datatype, so a structure that refers to itself
  through a pointer cannot be built. `ctypes_to_cgen` renders a field's type through
  `ctypes_to_cstr`, which descends into pointers and arrays, but no code reads the
  `_fields_` of a structure reached through a field's type, so no result depends on such
  cycles. Bit-field entries (3-tuples in `_fields_`) are not modelled.
- `ct is c_restrict_void_p` is modelled as equality with the type named
  `c_restrict_void_p`.
- Python truthiness: the empty string stands for a `toarray` of None, which the code
  treats alike; an empty qualifier list stands for None.
- Strings.Words: words are separated by the ASCII white space of `str.split()`: space,
  tab, line feed, carriage return, vertical tab, form feed, and the characters 28 to 31.
  Non-ASCII white space, such as U+0085, U+00A0 or U+2028, does not separate words in the
  model, whereas Python's `str.split()` splits on it too.
- DtypesLowering.Dtype: a fixed list of numpy scalar types. Platform aliases (such as
  `np.intc` being `np.int32`) are not modelled.
- `examples/tti_operators.py` is not part of this model: it is legacy operator glue built
  on sympy matrix inversion, float approximations and the external operator API.
