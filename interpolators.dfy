/**
 * Weighted interpolation between a sparse point set and a d-dimensional grid.
 *
 * Around each sparse point lies a box of neighbouring grid nodes, one offset range
 * per axis and the box their cartesian product. Every neighbour gets a coefficient
 * that is the product of one weight per axis, and one substitution that turns
 * every grid dimension of the interpolated fields into a guarded index symbol.
 * Interpolation sums the weighted field values into a temporary and writes it into
 * the sparse function; injection adds the weighted expression into a field at
 * every neighbour.
 *
 * Two schemes: the linear one (weights `1 - p/h` and `p/h` from the point's
 * distance `p` to the node below it) and the precomputed one (weights read
 * from a table that the sparse function carries).
 */
module Interpolators {
  import opened Wrappers
  import opened Strings
  import opened Symbolic
  import opened Offsets
  import opened SparseOperations

  // ---------------------------------------------------------------- entities

  /** A grid dimension: its name, its symbolic bounds and its spacing. */
  datatype GridDim = GridDim(name: string, symbolicMin: Term, symbolicMax: Term, spacing: Term)

  /**
   * The precomputed coefficient table of a sparse function: its access term, the
   * name of its dimension 1 (the axis) and of its last dimension (the offset).
   */
  datatype CoeffTable = CoeffTable(access: Term, axisDim: string, offsetDim: string)

  /**
   * The parts of a sparse function the interpolators read: its name and access term,
   * its dimensions, its sparse dimension, the support radius `r`, per grid axis the
   * index of the node below the point (`coordinateIndices`), the symbol for the
   * point's position (`positionMap`, pairs of defining expression and symbol), the
   * point's distance to the node below (`pointSymbols`), whether it came with
   * explicit grid points, and the precomputed coefficient table.
   */
  datatype SparseFunction = SparseFunction(
    name: string,
    access: Term,
    dimensions: seq<string>,
    sparseDim: string,
    r: nat,
    coordinateIndices: seq<Term>,
    positionMap: seq<(Term, Term)>,
    pointSymbols: seq<Term>,
    hasGridpoints: bool,
    coeffs: CoeffTable)

  datatype Scheme = Linear | Precomputed

  /** A `LinearInterpolator` or a `PrecomputedInterpolator` of a sparse function on a grid. */
  datatype Interpolator = Interpolator(scheme: Scheme, sf: SparseFunction, grid: seq<GridDim>)

  /** A function the interpolated expression reads: its access term and its staggering origin per dimension. */
  datatype Operand = Operand(access: Term, origin: map<string, Term>)

  /** An expression to interpolate or inject, with its `evaluate` form when it has one. */
  datatype Expr = Expr(term: Term, evaluate: Option<Term>)

  predicate DistinctNames(grid: seq<GridDim>) {
    forall i, j :: 0 <= i < j < |grid| ==> grid[i].name != grid[j].name
  }

  /**
   * A sparse function carries one coordinate index, one position symbol and one
   * point symbol per grid dimension, and grid dimensions have distinct names.
   */
  predicate WellFormed(ip: Interpolator) {
    |ip.sf.coordinateIndices| == |ip.grid| &&
    |ip.sf.positionMap| == |ip.grid| &&
    |ip.sf.pointSymbols| == |ip.grid| &&
    DistinctNames(ip.grid)
  }

  /** The names of the grid dimensions, in order. */
  function GridNames(ip: Interpolator): (ns: seq<string>)
    ensures |ns| == |ip.grid|
  {
    seq(|ip.grid|, j requires 0 <= j < |ip.grid| => ip.grid[j].name)
  }

  // ------------------------------------------------------- offsets and weights

  /** `_interp_points`: the offsets along each axis. */
  function InterpPoints(ip: Interpolator): seq<int> {
    match ip.scheme
    case Linear => LinearPoints(ip.sf.r)
    case Precomputed => PrecomputedPoints(ip.sf.r)
  }

  /** `_nd_points`: the neighbour tuples, the offset range repeated once per grid dimension. */
  function NdPoints(ip: Interpolator): seq<seq<int>> {
    Product(InterpPoints(ip), |ip.grid|)
  }

  /** A neighbour tuple: one offset from the range per grid dimension. */
  predicate IsNeighbour(ip: Interpolator, p: seq<int>) {
    |p| == |ip.grid| && forall j :: 0 <= j < |p| ==> p[j] in InterpPoints(ip)
  }

  /**
   * `_weights[d]` for grid axis `j`: for the linear scheme `[1 - p/h, p/h]`; for the
   * precomputed scheme the table at axis `j` and at every offset of the range.
   */
  function AxisWeights(ip: Interpolator, j: nat): (ws: seq<Term>)
    requires WellFormed(ip) && j < |ip.grid|
    ensures |ws| == WeightCount(ip)
  {
    match ip.scheme
    case Linear =>
      var q := Div(ip.sf.pointSymbols[j], ip.grid[j].spacing);
      [Sub(Int(1), q), q]
    case Precomputed =>
      var pts, t := InterpPoints(ip), ip.sf.coeffs;
      seq(|pts|, k requires 0 <= k < |pts| =>
        SubsDims(t.access, map[t.axisDim := Int(j)][t.offsetDim := Int(pts[k])]))
  }

  /** The length of every axis' weight list. */
  function WeightCount(ip: Interpolator): nat {
    match ip.scheme
    case Linear => 2
    case Precomputed => |InterpPoints(ip)|
  }

  /** Every offset of `p` is a valid Python index into its axis' weight list. */
  predicate FactorsDefined(ip: Interpolator, p: seq<int>)
    requires WellFormed(ip) && |p| <= |ip.grid|
  {
    forall j :: 0 <= j < |p| ==> PyIndexable(WeightCount(ip), p[j])
  }

  /** `[_weights[d][i] for (d, i) in zip(gdim, p)]`: the weight list of each axis, indexed by the offset. */
  function Factors(ip: Interpolator, p: seq<int>): (fs: seq<Term>)
    requires WellFormed(ip) && |p| <= |ip.grid| && FactorsDefined(ip, p)
    ensures |fs| == |p|
  {
    seq(|p|, j requires 0 <= j < |p| => AxisWeights(ip, j)[PyPos(WeightCount(ip), p[j])])
  }

  /** The coefficient of neighbour `p`: the product of its factors. */
  function Coefficient(ip: Interpolator, p: seq<int>): Term
    requires WellFormed(ip) && |p| <= |ip.grid| && FactorsDefined(ip, p)
  {
    ProdTerm(Factors(ip, p))
  }

  /** Every tuple of `ps` has at most one offset per grid dimension. */
  predicate Tuples(ip: Interpolator, ps: seq<seq<int>>) {
    forall k :: 0 <= k < |ps| ==> |ps[k]| <= |ip.grid|
  }

  /**
   * The coefficients of the tuples `ps`, in order, or IndexError when an offset of one
   * of them falls outside its axis' weight list.
   */
  function CoefficientsOf(ip: Interpolator, ps: seq<seq<int>>): Result<seq<Term>, PyError>
    requires WellFormed(ip) && Tuples(ip, ps)
  {
    if |ps| == 0 then Success([])
    else
      var p := ps[|ps| - 1];
      match CoefficientsOf(ip, ps[..|ps| - 1])
      case Failure(err) => Failure(err)
      case Success(cs) => if FactorsDefined(ip, p) then Success(cs + [Coefficient(ip, p)]) else Failure(IndexError)
  }

  /** `_interpolation_coeffs`: the coefficients of all neighbour tuples. */
  function Coefficients(ip: Interpolator): Result<seq<Term>, PyError>
    requires WellFormed(ip)
  {
    NdPointsLength(ip);
    CoefficientsOf(ip, NdPoints(ip))
  }

  // --------------------------------------------------------------- temporaries

  /** `_positions`: each position symbol defined by its expression; none for precomputed grid points. */
  function Positions(ip: Interpolator, idims: seq<string>): seq<Equation> {
    var pm := ip.sf.positionMap;
    var all := seq(|pm|, k requires 0 <= k < |pm| => Eq(pm[k].1, pm[k].0, idims));
    match ip.scheme
    case Linear => all
    case Precomputed => if ip.sf.hasGridpoints then [] else all
  }

  /**
   * `_coeff_temps`: for the linear scheme, per axis `p = pos - h*floor(pos/h)`, the
   * distance of the point to the node below it; none for the precomputed scheme.
   */
  function CoeffTemps(ip: Interpolator, idims: seq<string>): seq<Equation>
    requires WellFormed(ip)
  {
    match ip.scheme
    case Linear =>
      seq(|ip.grid|, j requires 0 <= j < |ip.grid| =>
        var pos, h := ip.sf.positionMap[j].1, ip.grid[j].spacing;
        Eq(ip.sf.pointSymbols[j], Sub(pos, Mul(h, Floor(Div(pos, h)))), idims))
    case Precomputed => []
  }

  /** The name of the index symbol for axis `j` and offset position `ri`: `ii_<sparse>_<dim>_<ri>`. */
  function IndexName(ip: Interpolator, j: nat, ri: nat): string
    requires j < |ip.grid|
  {
    "ii_" + ip.sf.name + "_" + ip.grid[j].name + "_" + NatToString(ri)
  }

  /** The out-of-bounds guard of an index symbol on axis `j`: `min - r <= ii` and `ii <= max + r`. */
  function Guard(ip: Interpolator, j: nat, name: string): Cond
    requires j < |ip.grid|
  {
    var ii, g, r := Sym(name), ip.grid[j], Int(ip.sf.r);
    And([And([Ge(ii, Sub(g.symbolicMin, r))]), And([Le(ii, Add(g.symbolicMax, r))])])
  }

  /** `mapper[d]` once filled: the guarded indirect dimension of every offset of axis `j`. */
  function AxisMapper(ip: Interpolator, j: nat): (cs: seq<Term>)
    requires j < |ip.grid|
    ensures |cs| == |InterpPoints(ip)|
  {
    seq(|InterpPoints(ip)|, ri requires 0 <= ri < |InterpPoints(ip)| => IndexDim(ip, j, ri))
  }

  /** The guarded indirect dimension of axis `j` at offset position `ri`. */
  function IndexDim(ip: Interpolator, j: nat, ri: nat): Term
    requires j < |ip.grid|
  {
    var name := IndexName(ip, j, ri);
    CondDim(name, ip.sf.sparseDim, Guard(ip, j, name), true)
  }

  /** `{d: [] for d in names}`. */
  function EmptyLists(names: seq<string>): (m: map<string, seq<Term>>)
    ensures forall i :: 0 <= i < |names| ==> names[i] in m && m[names[i]] == []
  {
    if |names| == 0 then map[] else EmptyLists(names[..|names| - 1])[names[|names| - 1] := []]
  }

  /** The keys of `{d: [] for d in names}` are exactly the names. */
  lemma {:induction false} EmptyListsKeys(names: seq<string>)
    ensures EmptyLists(names).Keys == set i | 0 <= i < |names| :: names[i]
  {
    if |names| > 0 {
      var init := names[..|names| - 1];
      EmptyListsKeys(init);
      assert forall i :: 0 <= i < |init| ==> init[i] == names[i];
      assert (set i | 0 <= i < |names| :: names[i]) == (set i | 0 <= i < |init| :: init[i]) + {names[|names| - 1]};
    }
  }

  /** The filled `mapper`, as its values in grid order. */
  function Columns(ip: Interpolator): (cs: seq<seq<Term>>)
    ensures |cs| == |ip.grid|
  {
    seq(|ip.grid|, j requires 0 <= j < |ip.grid| => AxisMapper(ip, j))
  }

  /** The index equations of axis `j`: `ii = pos + offset` for every offset, in range order. */
  function AxisIndexTemps(ip: Interpolator, j: nat, idims: seq<string>): (es: seq<Equation>)
    requires WellFormed(ip) && j < |ip.grid|
    ensures |es| == |InterpPoints(ip)|
  {
    var pts := InterpPoints(ip);
    seq(|pts|, ri requires 0 <= ri < |pts| => IndexEquation(ip, j, ri, idims))
  }

  /** The equation defining the index symbol of axis `j` at offset position `ri`: `ii = pos + offset`. */
  function IndexEquation(ip: Interpolator, j: nat, ri: nat, idims: seq<string>): Equation
    requires WellFormed(ip) && j < |ip.grid| && ri < |InterpPoints(ip)|
  {
    Eq(Sym(IndexName(ip, j, ri)), Add(ip.sf.coordinateIndices[j], Int(InterpPoints(ip)[ri])), idims)
  }

  /** The index equations of the first `n` axes, axis by axis. */
  function IndexEquations(ip: Interpolator, idims: seq<string>, n: nat): seq<Equation>
    requires WellFormed(ip) && n <= |ip.grid|
  {
    if n == 0 then [] else IndexEquations(ip, idims, n - 1) + AxisIndexTemps(ip, n - 1, idims)
  }

  /** The temporaries `_interpolation_indices` returns. */
  function IndexTemps(ip: Interpolator, idims: seq<string>): seq<Equation>
    requires WellFormed(ip)
  {
    Positions(ip, idims) + CoeffTemps(ip, idims) + IndexEquations(ip, idims, |ip.grid|)
  }

  // ------------------------------------------------------------- substitutions

  /** `v.origin.get(k, 0)`. */
  function OriginOf(origin: map<string, Term>, k: string): Term {
    if k in origin then origin[k] else Int(0)
  }

  /** Every offset of `p` is a valid Python index into the column of its axis. */
  predicate IndexableBy(columns: seq<seq<Term>>, p: seq<int>) {
    |p| <= |columns| && forall j :: 0 <= j < |p| ==> PyIndexable(|columns[j]|, p[j])
  }

  /**
   * `{k: c[pi] - v.origin.get(k, 0) for ((k, c), pi) in zip(mapper.items(), p)}`: every
   * dimension `k` becomes the guarded index its offset selects, minus the origin.
   */
  function DimSubs(names: seq<string>, columns: seq<seq<Term>>, p: seq<int>, origin: map<string, Term>)
    : map<string, Term>
    requires |names| == |columns| && IndexableBy(columns, p)
    requires forall i, j :: 0 <= i < j < |names| ==> names[i] != names[j]
  {
    map j | 0 <= j < |p| :: names[j] := Sub(columns[j][PyPos(|columns[j]|, p[j])], OriginOf(origin, names[j]))
  }

  /**
   * `{v: v.subs(...) for v in variables}` for the neighbour `p`: every operand mapped to
   * itself with its dimensions substituted; of two equal operands the later one wins.
   */
  function OperandSubs(names: seq<string>, columns: seq<seq<Term>>, p: seq<int>, ops: seq<Operand>)
    : map<Term, Term>
    requires |names| == |columns| && IndexableBy(columns, p)
    requires forall i, j :: 0 <= i < j < |names| ==> names[i] != names[j]
  {
    if |ops| == 0 then map[]
    else
      var v := ops[|ops| - 1];
      OperandSubs(names, columns, p, ops[..|ops| - 1])[v.access := SubsDims(v.access, DimSubs(names, columns, p, v.origin))]
  }

  /** Every neighbour tuple indexes every axis' column without raising. */
  lemma NdPointsIndexable(ip: Interpolator)
    ensures forall k :: 0 <= k < |NdPoints(ip)| ==> IsNeighbour(ip, NdPoints(ip)[k])
    ensures forall p :: IsNeighbour(ip, p) ==> IndexableBy(Columns(ip), p)
  {
    var pts := InterpPoints(ip);
    ProductShape(pts, |ip.grid|);
    forall p | IsNeighbour(ip, p) ensures IndexableBy(Columns(ip), p) {
      forall j | 0 <= j < |p| ensures PyIndexable(|Columns(ip)[j]|, p[j]) {
        OffsetIndexable(ip, p[j]);
      }
    }
  }

  /** Every offset of the range is a valid Python index into a list as long as the range. */
  lemma OffsetIndexable(ip: Interpolator, x: int)
    requires x in InterpPoints(ip)
    ensures PyIndexable(|InterpPoints(ip)|, x)
  {
    var pts := InterpPoints(ip);
    var r := ip.sf.r;
    LinearPointsShape(r);
    PrecomputedPointsShape(r);
    assert r >= 1;
    PointsStart(r);
    PyPosPermutes(pts[0], |pts|);
  }

  /** `idx_subs`: one substitution map per neighbour tuple, in neighbour order. */
  function IdxSubs(ip: Interpolator, ops: seq<Operand>): (subs: seq<map<Term, Term>>)
    requires WellFormed(ip)
    ensures |subs| == |NdPoints(ip)|
  {
    var nd := NdPoints(ip);
    NdPointsIndexable(ip);
    assert forall i, j :: 0 <= i < j < |GridNames(ip)| ==> GridNames(ip)[i] != GridNames(ip)[j];
    seq(|nd|, k requires 0 <= k < |nd| => OperandSubs(GridNames(ip), Columns(ip), nd[k], ops))
  }

  // ----------------------------------------------------------- the equations

  /** `subs_coords`: per neighbour, the expression times the coefficient, both substituted. */
  function SubsCoords(e: Term, coeffs: seq<Term>, subs: seq<map<Term, Term>>): (ts: seq<Term>)
    ensures |ts| == if |coeffs| <= |subs| then |coeffs| else |subs|
  {
    var n := if |coeffs| <= |subs| then |coeffs| else |subs|;
    seq(n, k requires 0 <= k < n => Mul(Xreplace(e, subs[k]), Xreplace(coeffs[k], subs[k])))
  }

  /** `subs_coords_eq`: per neighbour, an increment of the substituted field by the substituted expression times the coefficient. */
  function SubsCoordsEq(field: Term, e: Term, coeffs: seq<Term>, subs: seq<map<Term, Term>>, idims: seq<string>)
    : (es: seq<Equation>)
    ensures |es| == if |coeffs| <= |subs| then |coeffs| else |subs|
  {
    var n := if |coeffs| <= |subs| then |coeffs| else |subs|;
    seq(n, k requires 0 <= k < n => Inc(Xreplace(field, subs[k]), Mul(Xreplace(e, subs[k]), coeffs[k]), idims))
  }

  /** `implicit_dims`: the given dimensions followed by the sparse function's. */
  function ImplicitDims(ip: Interpolator, given: seq<string>): (ds: seq<string>)
    ensures |ds| == |given| + |ip.sf.dimensions|
    ensures ds[..|given|] == given && ds[|given|..] == ip.sf.dimensions
  {
    given + ip.sf.dimensions
  }

  /** `expr.evaluate` when the expression has it, the expression itself otherwise. */
  function Evaluated(e: Expr): Term {
    match e.evaluate
    case Some(t) => t
    case None => e.term
  }

  /** The accumulator of an interpolation. */
  const SumSymbol: Term := Sym("sum")

  /** The accumulation of an interpolation: `sum = 0`, then `sum += a` for every contribution `a`. */
  function Summands(args: seq<Term>, idims: seq<string>): (es: seq<Equation>)
    ensures |es| == |args| + 1
  {
    [Eq(SumSymbol, Num(0.0), idims)] + seq(|args|, k requires 0 <= k < |args| => Inc(SumSymbol, args[k], idims))
  }

  /**
   * The equations of an interpolation, as its callback builds them: the temporaries,
   * `sum = 0`, one `sum += expr * coefficient` per neighbour, and the write (or, with
   * `increment`, the increment) of the sparse function. `carriers` gives the functions
   * an expression reads; with none, taking the first one's origin raises IndexError.
   */
  function InterpolateEquations(ip: Interpolator, e: Expr, increment: bool, selfSubs: map<Term, Term>,
                                idims: seq<string>, carriers: Term -> seq<Operand>): Result<seq<Equation>, PyError>
    requires WellFormed(ip)
  {
    var x := Evaluated(e);
    var variables := carriers(x);
    if |variables| == 0 then Failure(IndexError)
    else
      var temps, subs := IndexTemps(ip, idims), IdxSubs(ip, variables);
      match Coefficients(ip)
      case Failure(err) => Failure(err)
      case Success(cs) =>
        var summands := Summands(SubsCoords(x, cs, subs), idims);
        var lhs := Xreplace(ip.sf.access, selfSubs);
        var last := if increment then Inc(lhs, SumSymbol, idims) else Eq(lhs, SumSymbol, idims);
        Success(temps + summands + [last])
  }

  /**
   * The equations of an injection, as its callback builds them: the temporaries, then
   * one increment of the field per neighbour. The field itself is one of the operands.
   */
  function InjectEquations(ip: Interpolator, field: Operand, e: Expr, idims: seq<string>,
                           carriers: Term -> seq<Operand>): Result<seq<Equation>, PyError>
    requires WellFormed(ip)
  {
    var x := Evaluated(e);
    var variables := carriers(x) + [field];
    var temps, subs := IndexTemps(ip, idims), IdxSubs(ip, variables);
    match Coefficients(ip)
    case Failure(err) => Failure(err)
    case Success(cs) => Success(temps + SubsCoordsEq(field.access, x, cs, subs, idims))
  }

  /** `interpolate`: a deferred interpolation whose callback builds InterpolateEquations. */
  function Interpolate(ip: Interpolator, e: Expr, increment: bool, selfSubs: map<Term, Term>,
                       given: seq<string>, carriers: Term -> seq<Operand>): (op: DeferredOp)
    requires WellFormed(ip)
    ensures op.Interpolation?
    ensures Evaluate(op) == InterpolateEquations(ip, e, increment, selfSubs, ImplicitDims(ip, given), carriers)
  {
    var idims := ImplicitDims(ip, given);
    Interpolation(() => InterpolateEquations(ip, e, increment, selfSubs, idims, carriers))
  }

  /** `inject`: a deferred injection whose callback builds InjectEquations. */
  function Inject(ip: Interpolator, field: Operand, e: Expr, given: seq<string>,
                  carriers: Term -> seq<Operand>): (op: DeferredOp)
    requires WellFormed(ip)
    ensures op.Injection?
    ensures Evaluate(op) == InjectEquations(ip, field, e, ImplicitDims(ip, given), carriers)
  {
    var idims := ImplicitDims(ip, given);
    Injection(() => InjectEquations(ip, field, e, idims, carriers))
  }

  // ------------------------------------------------------------------ methods

  /**
   * `_interpolation_coeffs`: fills a dictionary keyed by neighbour tuple, then returns
   * its values in insertion order.
   */
  method InterpolationCoeffs(ip: Interpolator) returns (r: Result<seq<Term>, PyError>)
    requires WellFormed(ip)
    ensures r == Coefficients(ip)
  {
    var nd := NdPoints(ip);
    NdPointsLength(ip);
    var keys: seq<seq<int>> := [];
    var coeffs: map<seq<int>, Term> := map[];
    var i := 0;
    while i < |nd|
      invariant 0 <= i <= |nd|
      invariant keys == nd[..i]
      invariant forall q :: q in coeffs <==> q in keys
      invariant CoefficientsOf(ip, keys) == Success(DictValues(coeffs, keys))
    {
      var p := nd[i];
      if !FactorsDefined(ip, p) {
        TakeSnoc(nd, i);
        CoefficientsFail(ip, nd[..i + 1], nd);
        return Failure(IndexError);
      }
      var c := Coefficient(ip, p);
      FreshNeighbour(ip, i);
      assert p !in coeffs;
      DictValuesUpdate(coeffs, keys, p, c);
      TakeSnoc(nd, i);
      keys := keys + [p];
      coeffs := coeffs[p := c];
      i := i + 1;
    }
    TakeAll(nd);
    return Success(DictValues(coeffs, keys));
  }

  lemma TakeSnoc<T>(s: seq<T>, i: nat)
    requires i < |s|
    ensures s[..i + 1] == s[..i] + [s[i]] && s[..i + 1][..i] == s[..i]
  {
  }

  lemma TakeAll<T>(s: seq<T>)
    ensures s[..|s|] == s
  {
  }

  lemma ConcatAssoc<T>(a: seq<T>, b: seq<T>, c: seq<T>)
    ensures a + b + c == a + (b + c)
  {
  }

  /** `list(m.values())` for a dictionary whose keys were inserted in the order `ks`. */
  function DictValues<K, V>(m: map<K, V>, ks: seq<K>): (vs: seq<V>)
    requires forall k :: k in ks ==> k in m
    ensures |vs| == |ks|
  {
    if |ks| == 0 then [] else DictValues(m, ks[..|ks| - 1]) + [m[ks[|ks| - 1]]]
  }

  /** Inserting a new key appends its value and leaves the others in place. */
  lemma {:induction false} DictValuesUpdate<K, V>(m: map<K, V>, ks: seq<K>, k: K, v: V)
    requires forall q :: q in ks ==> q in m
    requires k !in ks
    ensures DictValues(m[k := v], ks + [k]) == DictValues(m, ks) + [v]
  {
    assert (ks + [k])[..|ks|] == ks;
    DictValuesFrame(m, ks, k, v);
  }

  lemma {:induction false} DictValuesFrame<K, V>(m: map<K, V>, ks: seq<K>, k: K, v: V)
    requires forall q :: q in ks ==> q in m
    requires k !in ks
    ensures DictValues(m[k := v], ks) == DictValues(m, ks)
  {
    if |ks| > 0 {
      DictValuesFrame(m, ks[..|ks| - 1], k, v);
    }
  }

  /** An IndexError on a prefix of the tuples is an IndexError on them all. */
  lemma {:induction false} CoefficientsFail(ip: Interpolator, ps: seq<seq<int>>, qs: seq<seq<int>>)
    requires WellFormed(ip) && Tuples(ip, qs) && |ps| <= |qs| && ps == qs[..|ps|]
    requires CoefficientsOf(ip, ps).Failure?
    ensures CoefficientsOf(ip, qs) == Failure(IndexError)
  {
    if |qs| > |ps| {
      assert qs[..|qs| - 1][..|ps|] == ps;
      CoefficientsFail(ip, ps, qs[..|qs| - 1]);
    } else {
      assert ps == qs;
      CoefficientsFailure(ip, ps);
    }
  }

  /** The only error an IndexError. */
  lemma {:induction false} CoefficientsFailure(ip: Interpolator, ps: seq<seq<int>>)
    requires WellFormed(ip) && Tuples(ip, ps)
    ensures CoefficientsOf(ip, ps).Failure? ==> CoefficientsOf(ip, ps) == Failure(IndexError)
  {
    if |ps| > 0 {
      CoefficientsFailure(ip, ps[..|ps| - 1]);
    }
  }

  /** Every neighbour tuple has one offset per grid dimension. */
  lemma NdPointsLength(ip: Interpolator)
    ensures forall k :: 0 <= k < |NdPoints(ip)| ==> |NdPoints(ip)[k]| == |ip.grid|
    ensures Tuples(ip, NdPoints(ip))
  {
    ProductShape(InterpPoints(ip), |ip.grid|);
  }

  /** No neighbour tuple occurs before its own position. */
  lemma FreshNeighbour(ip: Interpolator, i: nat)
    requires i < |NdPoints(ip)|
    ensures NdPoints(ip)[i] !in NdPoints(ip)[..i]
  {
    InterpPointsDistinct(ip);
    ProductDistinct(InterpPoints(ip), |ip.grid|);
  }

  /** The offset range has no repeated offset. */
  lemma InterpPointsDistinct(ip: Interpolator)
    ensures Distinct(InterpPoints(ip))
  {
    var r := ip.sf.r;
    RangeDistinct(-(r as int) + 1, r + 1);
    RangeDistinct((-(r as int)) / 2 + 1, r / 2 + 1);
  }

  /**
   * `_interpolation_indices`: the position and coefficient temporaries, then for every
   * axis and offset a guarded index symbol (recorded in `mapper`) with its defining
   * equation; then one substitution map per neighbour tuple, read off `mapper`.
   */
  method InterpolationIndices(ip: Interpolator, variables: seq<Operand>, idims: seq<string>)
    returns (idxSubs: seq<map<Term, Term>>, temps: seq<Equation>)
    requires WellFormed(ip)
    ensures temps == IndexTemps(ip, idims)
    ensures idxSubs == IdxSubs(ip, variables)
  {
    var g, pts := ip.grid, InterpPoints(ip);
    var mapper := EmptyLists(GridNames(ip));
    assert forall j :: 0 <= j < |g| ==> GridNames(ip)[j] == g[j].name;
    temps := Positions(ip, idims);
    temps := temps + CoeffTemps(ip, idims);
    var base := temps;
    var di := 0;
    while di < |g|
      invariant 0 <= di <= |g|
      invariant temps == base + IndexEquations(ip, idims, di)
      invariant forall j :: 0 <= j < |g| ==>
        g[j].name in mapper && mapper[g[j].name] == if j < di then AxisMapper(ip, j) else []
    {
      var d, pos := g[di], ip.sf.coordinateIndices[di];
      var column := mapper[d.name];
      var ri := 0;
      while ri < |pts|
        invariant 0 <= ri <= |pts|
        invariant temps == base + IndexEquations(ip, idims, di) + AxisIndexTemps(ip, di, idims)[..ri]
        invariant column == AxisMapper(ip, di)[..ri]
      {
        var name := IndexName(ip, di, ri);
        var condition := Guard(ip, di, name);
        var cd := CondDim(name, ip.sf.sparseDim, condition, true);
        var eqn := Eq(Sym(name), Add(pos, Int(pts[ri])), idims);
        assert cd == AxisMapper(ip, di)[ri] && eqn == AxisIndexTemps(ip, di, idims)[ri];
        TakeSnoc(AxisMapper(ip, di), ri);
        TakeSnoc(AxisIndexTemps(ip, di, idims), ri);
        ConcatAssoc(base + IndexEquations(ip, idims, di), AxisIndexTemps(ip, di, idims)[..ri], [eqn]);
        column := column + [cd];
        temps := temps + [eqn];
        ri := ri + 1;
      }
      TakeAll(AxisMapper(ip, di));
      TakeAll(AxisIndexTemps(ip, di, idims));
      ConcatAssoc(base, IndexEquations(ip, idims, di), AxisIndexTemps(ip, di, idims));
      OtherNames(ip, di);
      mapper := mapper[d.name := column];
      di := di + 1;
    }
    var columns := seq(|g|, j requires 0 <= j < |g| => mapper[g[j].name]);
    assert columns == Columns(ip);
    var nd, names := NdPoints(ip), GridNames(ip);
    idxSubs := [];
    var k := 0;
    while k < |nd|
      invariant 0 <= k <= |nd|
      invariant idxSubs == IdxSubs(ip, variables)[..k]
    {
      IdxSubsAt(ip, variables, k);
      TakeSnoc(IdxSubs(ip, variables), k);
      idxSubs := idxSubs + [OperandSubs(names, columns, nd[k], variables)];
      k := k + 1;
    }
    TakeAll(IdxSubs(ip, variables));
  }

  /** Every grid dimension other than the `di`-th has another name. */
  lemma OtherNames(ip: Interpolator, di: nat)
    requires WellFormed(ip) && di < |ip.grid|
    ensures forall j :: 0 <= j < |ip.grid| && j != di ==> ip.grid[j].name != ip.grid[di].name
  {
  }

  /** The substitution of the k-th neighbour, and that it is defined. */
  lemma IdxSubsAt(ip: Interpolator, ops: seq<Operand>, k: nat)
    requires WellFormed(ip) && k < |NdPoints(ip)|
    ensures forall i, j :: 0 <= i < j < |GridNames(ip)| ==> GridNames(ip)[i] != GridNames(ip)[j]
    ensures IndexableBy(Columns(ip), NdPoints(ip)[k])
    ensures IdxSubs(ip, ops)[k] == OperandSubs(GridNames(ip), Columns(ip), NdPoints(ip)[k], ops)
  {
    NdPointsIndexable(ip);
  }
}
