/**
 * What the interpolators promise about the equations they build: the index symbols
 * are named apart, guarded by the axis bounds widened by r, and defined among the
 * temporaries before any equation reads them; each neighbour's substitution sends
 * every grid dimension to the index symbol its offset selects, on the same position of
 * the offset range as its weight; and interpolation and injection emit one
 * contribution per neighbour.
 */
module InterpolatorEquations {
  import opened Wrappers
  import opened Strings
  import opened Symbolic
  import opened Offsets
  import opened Separable
  import opened Interpolators
  import opened InterpolatorProperties

  // ----------------------------------------------------------- index symbols

  /** Index symbols are named apart: two names coincide exactly when axis and offset position do. */
  lemma IndexNameInjective(ip: Interpolator, j: nat, a: nat, j': nat, b: nat)
    requires DistinctNames(ip.grid) && j < |ip.grid| && j' < |ip.grid|
    ensures IndexName(ip, j, a) == IndexName(ip, j', b) <==> j == j' && a == b
  {
    var pre := "ii_" + ip.sf.name + "_";
    DigitSuffix(pre + ip.grid[j].name, NatToString(a), pre + ip.grid[j'].name, NatToString(b));
    NatToStringInjective(a, b);
    if pre + ip.grid[j].name == pre + ip.grid[j'].name {
      assert ip.grid[j].name == (pre + ip.grid[j].name)[|pre|..];
      assert ip.grid[j'].name == (pre + ip.grid[j'].name)[|pre|..];
    }
  }

  /** An index symbol's guard holds exactly when the symbol lies within r of the axis' bounds. */
  lemma GuardHolds(ip: Interpolator, j: nat, name: string, env: Term -> real)
    requires j < |ip.grid|
    ensures Holds(Guard(ip, j, name), env) <==>
      Eval(ip.grid[j].symbolicMin, env) - ip.sf.r as real <= env(Sym(name)) &&
      env(Sym(name)) <= Eval(ip.grid[j].symbolicMax, env) + ip.sf.r as real
  {
    var ii, g, r := Sym(name), ip.grid[j], Int(ip.sf.r);
    var ge, le := Ge(ii, Sub(g.symbolicMin, r)), Le(ii, Add(g.symbolicMax, r));
    HoldsSingle(ge, env);
    HoldsSingle(le, env);
    HoldsPair(And([ge]), And([le]), env);
    assert Guard(ip, j, name) == And([And([ge]), And([le])]);
    assert Eval(r, env) == ip.sf.r as real;
    assert Holds(ge, env) <==> env(ii) >= Eval(g.symbolicMin, env) - Eval(r, env);
    assert Holds(le, env) <==> env(ii) <= Eval(g.symbolicMax, env) + Eval(r, env);
  }

  lemma HoldsSingle(c: Cond, env: Term -> real)
    ensures Holds(And([c]), env) <==> Holds(c, env)
  {
    assert [c][0] == c;
  }

  lemma HoldsPair(c: Cond, d: Cond, env: Term -> real)
    ensures Holds(And([c, d]), env) <==> Holds(c, env) && Holds(d, env)
  {
    assert [c, d][0] == c && [c, d][1] == d;
  }

  // -------------------------------------------------------------- temporaries

  lemma {:induction false} IndexEquationsLength(ip: Interpolator, idims: seq<string>, n: nat)
    requires WellFormed(ip) && n <= |ip.grid|
    ensures |IndexEquations(ip, idims, n)| == n * |InterpPoints(ip)|
  {
    if n > 0 {
      IndexEquationsLength(ip, idims, n - 1);
      assert (n - 1) * |InterpPoints(ip)| + |InterpPoints(ip)| == n * |InterpPoints(ip)|;
    }
  }

  /** The index equations come axis by axis, each axis' in range order. */
  lemma {:induction false} IndexEquationsAt(ip: Interpolator, idims: seq<string>, n: nat, j: nat, ri: nat)
    requires WellFormed(ip) && j < n <= |ip.grid| && ri < |InterpPoints(ip)|
    ensures j * |InterpPoints(ip)| + ri < |IndexEquations(ip, idims, n)|
    ensures IndexEquations(ip, idims, n)[j * |InterpPoints(ip)| + ri] == IndexEquation(ip, j, ri, idims)
  {
    IndexEquationsLength(ip, idims, n - 1);
    IndexEquationsLength(ip, idims, n);
    if j < n - 1 {
      IndexEquationsAt(ip, idims, n - 1, j, ri);
    }
  }

  /** Where the index equation of axis `j` at offset position `ri` stands among the temporaries. */
  function TempIndex(ip: Interpolator, idims: seq<string>, j: nat, ri: nat): nat
    requires WellFormed(ip)
  {
    |Positions(ip, idims)| + |CoeffTemps(ip, idims)| + j * |InterpPoints(ip)| + ri
  }

  /**
   * The temporaries come in three blocks: one position per axis (none when the
   * precomputed scheme has its grid points), one coefficient temporary per axis (the
   * linear scheme only), then one index equation per axis and offset; the index
   * symbol of axis `j` at offset position `ri` is defined as the point's node plus
   * that offset.
   */
  lemma IndexTempsLayout(ip: Interpolator, idims: seq<string>, j: nat, ri: nat)
    requires WellFormed(ip) && j < |ip.grid| && ri < |InterpPoints(ip)|
    ensures |Positions(ip, idims)| == if ip.scheme.Precomputed? && ip.sf.hasGridpoints then 0 else |ip.grid|
    ensures |CoeffTemps(ip, idims)| == if ip.scheme.Linear? then |ip.grid| else 0
    ensures |IndexTemps(ip, idims)| ==
      |Positions(ip, idims)| + |CoeffTemps(ip, idims)| + |ip.grid| * |InterpPoints(ip)|
    ensures TempIndex(ip, idims, j, ri) < |IndexTemps(ip, idims)|
    ensures IndexTemps(ip, idims)[TempIndex(ip, idims, j, ri)] == IndexEquation(ip, j, ri, idims)
    ensures IndexEquation(ip, j, ri, idims) ==
      Eq(Sym(IndexName(ip, j, ri)), Add(ip.sf.coordinateIndices[j], Int(InterpPoints(ip)[ri])), idims)
  {
    TempsLengths(ip, idims);
    IndexTempAt(ip, idims, j, ri);
  }

  lemma TempsLengths(ip: Interpolator, idims: seq<string>)
    requires WellFormed(ip)
    ensures |Positions(ip, idims)| == if ip.scheme.Precomputed? && ip.sf.hasGridpoints then 0 else |ip.grid|
    ensures |CoeffTemps(ip, idims)| == if ip.scheme.Linear? then |ip.grid| else 0
    ensures |IndexTemps(ip, idims)| ==
      |Positions(ip, idims)| + |CoeffTemps(ip, idims)| + |ip.grid| * |InterpPoints(ip)|
  {
    IndexEquationsLength(ip, idims, |ip.grid|);
  }

  lemma IndexTempAt(ip: Interpolator, idims: seq<string>, j: nat, ri: nat)
    requires WellFormed(ip) && j < |ip.grid| && ri < |InterpPoints(ip)|
    ensures TempIndex(ip, idims, j, ri) < |IndexTemps(ip, idims)|
    ensures IndexTemps(ip, idims)[TempIndex(ip, idims, j, ri)] == IndexEquation(ip, j, ri, idims)
  {
    var n := |ip.grid|;
    var a, b, c := Positions(ip, idims), CoeffTemps(ip, idims), IndexEquations(ip, idims, n);
    IndexEquationsAt(ip, idims, n, j, ri);
    ConcatIndex3(a, b, c, j * |InterpPoints(ip)| + ri);
  }

  lemma ConcatIndex3<T>(a: seq<T>, b: seq<T>, c: seq<T>, x: nat)
    requires x < |c|
    ensures |a| + |b| + x < |a + b + c| && (a + b + c)[|a| + |b| + x] == c[x]
  {
  }

  // ------------------------------------------------------------- substitutions

  /** The dimension map of a neighbour sends the `j`-th name to the `j`-th column's selected entry, less the origin. */
  lemma DimSubsAt(names: seq<string>, columns: seq<seq<Term>>, p: seq<int>, origin: map<string, Term>, j: nat)
    requires |names| == |columns| && IndexableBy(columns, p)
    requires forall i, i' :: 0 <= i < i' < |names| ==> names[i] != names[i']
    requires j < |p|
    ensures names[j] in DimSubs(names, columns, p, origin)
    ensures DimSubs(names, columns, p, origin)[names[j]] ==
      Sub(columns[j][PyPos(|columns[j]|, p[j])], OriginOf(origin, names[j]))
  {
    var m := DimSubs(names, columns, p, origin);
    assert names[j] in m;
  }

  /** Every operand is a key of a neighbour's substitution, and nothing else is. */
  lemma {:induction false} OperandSubsKeys(names: seq<string>, columns: seq<seq<Term>>, p: seq<int>, ops: seq<Operand>)
    requires |names| == |columns| && IndexableBy(columns, p)
    requires forall i, i' :: 0 <= i < i' < |names| ==> names[i] != names[i']
    ensures forall i :: 0 <= i < |ops| ==> ops[i].access in OperandSubs(names, columns, p, ops)
    ensures forall t :: t in OperandSubs(names, columns, p, ops) ==> exists i :: 0 <= i < |ops| && ops[i].access == t
  {
    if |ops| > 0 {
      var init := ops[..|ops| - 1];
      OperandSubsKeys(names, columns, p, init);
      assert forall i :: 0 <= i < |init| ==> init[i] == ops[i];
    }
  }

  /**
   * The substitution of an operand is its access with every grid dimension replaced,
   * taken from its last occurrence among the operands.
   */
  lemma {:induction false} OperandSubsLast(names: seq<string>, columns: seq<seq<Term>>, p: seq<int>,
                                           ops: seq<Operand>, i: nat)
    requires |names| == |columns| && IndexableBy(columns, p)
    requires forall i, i' :: 0 <= i < i' < |names| ==> names[i] != names[i']
    requires i < |ops| && forall i' :: i < i' < |ops| ==> ops[i'].access != ops[i].access
    ensures ops[i].access in OperandSubs(names, columns, p, ops)
    ensures OperandSubs(names, columns, p, ops)[ops[i].access] ==
      SubsDims(ops[i].access, DimSubs(names, columns, p, ops[i].origin))
  {
    if i < |ops| - 1 {
      var init := ops[..|ops| - 1];
      assert forall i' :: 0 <= i' < |init| ==> init[i'] == ops[i'];
      OperandSubsLast(names, columns, p, init, i);
    }
  }

  /**
   * For the k-th neighbour and axis `j`: the substitution replaces the axis' dimension by
   * the guarded index symbol at the position its offset designates (less the
   * origin), and that symbol is defined among the temporaries.
   */
  lemma SubstitutedIndex(ip: Interpolator, idims: seq<string>, k: nat, j: nat, origin: map<string, Term>)
    requires WellFormed(ip) && k < |NdPoints(ip)| && j < |ip.grid|
    ensures |NdPoints(ip)[k]| == |ip.grid| && PyIndexable(|InterpPoints(ip)|, NdPoints(ip)[k][j])
    ensures IndexableBy(Columns(ip), NdPoints(ip)[k])
    ensures forall i, i' :: 0 <= i < i' < |GridNames(ip)| ==> GridNames(ip)[i] != GridNames(ip)[i']
    ensures var q := PyPos(|InterpPoints(ip)|, NdPoints(ip)[k][j]);
      var m := DimSubs(GridNames(ip), Columns(ip), NdPoints(ip)[k], origin);
      ip.grid[j].name in m &&
      m[ip.grid[j].name] == Sub(IndexDim(ip, j, q), OriginOf(origin, ip.grid[j].name)) &&
      IndexDim(ip, j, q).name == IndexName(ip, j, q) &&
      TempIndex(ip, idims, j, q) < |IndexTemps(ip, idims)| &&
      IndexTemps(ip, idims)[TempIndex(ip, idims, j, q)].lhs == Sym(IndexName(ip, j, q))
  {
    var nd, pts := NdPoints(ip), InterpPoints(ip);
    NdPointsLength(ip);
    NdPointsIndexable(ip);
    IdxSubsAt(ip, [], k);
    var q := PyPos(|pts|, nd[k][j]);
    assert |Columns(ip)[j]| == |pts|;
    DimSubsAt(GridNames(ip), Columns(ip), nd[k], origin, j);
    IndexTempsLayout(ip, idims, j, q);
  }

  // ---------------------------------------------------------------- alignment

  /**
   * Offsets are used as Python list indices, so a negative offset counts from the end
   * of its axis' lists. Still, every position of the offset range is designated by
   * exactly one offset of the range.
   */
  lemma AxisPositions(ip: Interpolator, q: nat)
    requires q < |InterpPoints(ip)|
    ensures exists x :: x in InterpPoints(ip) && PyIndexable(|InterpPoints(ip)|, x) && PyPos(|InterpPoints(ip)|, x) == q
    ensures forall x, y :: x in InterpPoints(ip) && y in InterpPoints(ip) ==>
      PyIndexable(|InterpPoints(ip)|, x) && PyIndexable(|InterpPoints(ip)|, y) &&
      (PyPos(|InterpPoints(ip)|, x) == PyPos(|InterpPoints(ip)|, y) ==> x == y)
  {
    var pts, r := InterpPoints(ip), ip.sf.r;
    LinearPointsShape(r);
    PrecomputedPointsShape(r);
    PointsStart(r);
    var lo, n := pts[0], |pts|;
    assert forall x :: x in pts <==> lo <= x < lo + n;
    PyPosPermutes(lo, n);
    assert OffsetAt(lo, n, q) in pts;
  }

  /**
   * On every axis, a precomputed neighbour's weight and its index symbol sit at the same
   * position q of the offset range: the weight is the table entry for the offset
   * `pts[q]`, and the index symbol is the point's node plus `pts[q]`.
   */
  lemma PrecomputedAlignment(ip: Interpolator, idims: seq<string>, k: nat, j: nat)
    requires WellFormed(ip) && ip.scheme.Precomputed? && k < |NdPoints(ip)| && j < |ip.grid|
    ensures |NdPoints(ip)[k]| == |ip.grid| && FactorsDefined(ip, NdPoints(ip)[k])
    ensures var pts, t, q := InterpPoints(ip), ip.sf.coeffs, Selected(ip, NdPoints(ip)[k])[j];
      q < |pts| && q == PyPos(|pts|, NdPoints(ip)[k][j]) &&
      Factors(ip, NdPoints(ip)[k])[j] == SubsDims(t.access, map[t.axisDim := Int(j)][t.offsetDim := Int(pts[q])]) &&
      IndexEquation(ip, j, q, idims).rhs == Add(ip.sf.coordinateIndices[j], Int(pts[q]))
  {
    var nd := NdPoints(ip);
    NdPointsLength(ip);
    NdPointsIndexable(ip);
    forall i | 0 <= i < |nd[k]| ensures PyIndexable(WeightCount(ip), nd[k][i]) {
      OffsetIndexable(ip, nd[k][i]);
    }
  }

  /**
   * For the radius-1 linear scheme, on every axis the neighbour with offset 0 takes the
   * weight `1 - p/h` and the index symbol of the node below the point, and the
   * neighbour with offset 1 takes `p/h` and the node above.
   */
  lemma LinearAlignment(ip: Interpolator, idims: seq<string>, k: nat, j: nat)
    requires WellFormed(ip) && ip.scheme.Linear? && ip.sf.r == 1 && k < |NdPoints(ip)| && j < |ip.grid|
    ensures |NdPoints(ip)[k]| == |ip.grid| && FactorsDefined(ip, NdPoints(ip)[k])
    ensures var x, q := NdPoints(ip)[k][j], Div(ip.sf.pointSymbols[j], ip.grid[j].spacing);
      (x == 0 || x == 1) && |InterpPoints(ip)| == 2 && PyPos(2, x) == x &&
      Factors(ip, NdPoints(ip)[k])[j] == (if x == 0 then Sub(Int(1), q) else q) &&
      IndexEquation(ip, j, x, idims).rhs == Add(ip.sf.coordinateIndices[j], Int(x))
  {
    var nd := NdPoints(ip);
    LinearUnitPoints(ip);
    NdPointsLength(ip);
    ProductShape(Pair, |ip.grid|);
    LinearSelected(ip, nd[k]);
  }

  // -------------------------------------------------------------- equations

  /**
   * An interpolation fails exactly when the expression reads no function (taking the
   * first one's origin raises) or a coefficient cannot be formed, and the error is
   * then IndexError.
   */
  lemma InterpolateFailure(ip: Interpolator, e: Expr, increment: bool, selfSubs: map<Term, Term>,
                           idims: seq<string>, carriers: Term -> seq<Operand>)
    requires WellFormed(ip)
    ensures InterpolateEquations(ip, e, increment, selfSubs, idims, carriers).Failure? <==>
      |carriers(Evaluated(e))| == 0 || Coefficients(ip).Failure?
    ensures InterpolateEquations(ip, e, increment, selfSubs, idims, carriers).Failure? ==>
      InterpolateEquations(ip, e, increment, selfSubs, idims, carriers).error == IndexError
  {
    NdPointsLength(ip);
    CoefficientsFailure(ip, NdPoints(ip));
  }

  /**
   * A successful interpolation emits the temporaries, then `sum = 0`, then one
   * increment of `sum` per neighbour, none lost to `zip`, and last the write of the
   * sparse function, an increment exactly when `increment` is set.
   */
  lemma InterpolateLayout(ip: Interpolator, e: Expr, increment: bool, selfSubs: map<Term, Term>,
                          idims: seq<string>, carriers: Term -> seq<Operand>, cs: seq<Term>)
    requires WellFormed(ip) && Coefficients(ip) == Success(cs) && |carriers(Evaluated(e))| > 0
    ensures InterpolateEquations(ip, e, increment, selfSubs, idims, carriers).Success?
    ensures var eqs, temps, n := InterpolateEquations(ip, e, increment, selfSubs, idims, carriers).value,
                                 IndexTemps(ip, idims), |NdPoints(ip)|;
      |cs| == n && |eqs| == |temps| + n + 2 && eqs[..|temps|] == temps &&
      eqs[|temps|] == Eq(SumSymbol, Num(0.0), idims) &&
      eqs[|temps| + n + 1].lhs == Xreplace(ip.sf.access, selfSubs) && eqs[|temps| + n + 1].rhs == SumSymbol &&
      (eqs[|temps| + n + 1].Inc? <==> increment)
  {
    CoefficientsLength(ip, cs);
    var x := Evaluated(e);
    var lhs := Xreplace(ip.sf.access, selfSubs);
    var last := if increment then Inc(lhs, SumSymbol, idims) else Eq(lhs, SumSymbol, idims);
    InterpolateValue(ip, e, increment, selfSubs, idims, carriers, cs);
    Blocks(IndexTemps(ip, idims), SubsCoords(x, cs, IdxSubs(ip, carriers(x))), idims, last);
  }

  /**
   * The increment of `sum` for the k-th neighbour adds the expression times the k-th
   * coefficient, both under the k-th neighbour's substitution.
   */
  lemma InterpolateContribution(ip: Interpolator, e: Expr, increment: bool, selfSubs: map<Term, Term>,
                                idims: seq<string>, carriers: Term -> seq<Operand>, cs: seq<Term>, k: nat)
    requires WellFormed(ip) && Coefficients(ip) == Success(cs) && |carriers(Evaluated(e))| > 0
    requires k < |NdPoints(ip)|
    ensures InterpolateEquations(ip, e, increment, selfSubs, idims, carriers).Success?
    ensures var eqs, temps := InterpolateEquations(ip, e, increment, selfSubs, idims, carriers).value,
                              IndexTemps(ip, idims);
      var x, subs := Evaluated(e), IdxSubs(ip, carriers(Evaluated(e)));
      |cs| == |NdPoints(ip)| && |temps| + 1 + k < |eqs| &&
      eqs[|temps| + 1 + k] == Inc(SumSymbol, Mul(Xreplace(x, subs[k]), Xreplace(cs[k], subs[k])), idims)
  {
    CoefficientsLength(ip, cs);
    var x := Evaluated(e);
    var subs := IdxSubs(ip, carriers(x));
    var lhs := Xreplace(ip.sf.access, selfSubs);
    var last := if increment then Inc(lhs, SumSymbol, idims) else Eq(lhs, SumSymbol, idims);
    InterpolateValue(ip, e, increment, selfSubs, idims, carriers, cs);
    Blocks(IndexTemps(ip, idims), SubsCoords(x, cs, subs), idims, last);
    SubsCoordsAt(x, cs, subs);
  }

  /** There is one coefficient per neighbour. */
  lemma CoefficientsLength(ip: Interpolator, cs: seq<Term>)
    requires WellFormed(ip) && Coefficients(ip) == Success(cs)
    ensures |cs| == |NdPoints(ip)|
  {
    NdPointsLength(ip);
    CoefficientsOfSuccess(ip, NdPoints(ip));
  }

  lemma InterpolateValue(ip: Interpolator, e: Expr, increment: bool, selfSubs: map<Term, Term>,
                         idims: seq<string>, carriers: Term -> seq<Operand>, cs: seq<Term>)
    requires WellFormed(ip) && Coefficients(ip) == Success(cs) && |carriers(Evaluated(e))| > 0
    ensures var x, lhs := Evaluated(e), Xreplace(ip.sf.access, selfSubs);
      InterpolateEquations(ip, e, increment, selfSubs, idims, carriers) ==
        Success(IndexTemps(ip, idims) + Summands(SubsCoords(x, cs, IdxSubs(ip, carriers(x))), idims) +
                [if increment then Inc(lhs, SumSymbol, idims) else Eq(lhs, SumSymbol, idims)])
  {
  }

  /** The contributions of the neighbours, one per coefficient and substitution. */
  lemma SubsCoordsAt(x: Term, cs: seq<Term>, subs: seq<map<Term, Term>>)
    requires |cs| == |subs|
    ensures |SubsCoords(x, cs, subs)| == |cs|
    ensures forall k :: 0 <= k < |cs| ==> SubsCoords(x, cs, subs)[k] == Mul(Xreplace(x, subs[k]), Xreplace(cs[k], subs[k]))
  {
  }

  /** Indexing into the temporaries, the accumulation and the final write. */
  lemma Blocks(temps: seq<Equation>, args: seq<Term>, idims: seq<string>, last: Equation)
    ensures |temps + Summands(args, idims) + [last]| == |temps| + |args| + 2
    ensures (temps + Summands(args, idims) + [last])[..|temps|] == temps
    ensures (temps + Summands(args, idims) + [last])[|temps|] == Eq(SumSymbol, Num(0.0), idims)
    ensures forall k :: 0 <= k < |args| ==>
      (temps + Summands(args, idims) + [last])[|temps| + 1 + k] == Inc(SumSymbol, args[k], idims)
    ensures (temps + Summands(args, idims) + [last])[|temps| + |args| + 1] == last
  {
  }

  /** An injection fails exactly when a coefficient cannot be formed, and then with IndexError. */
  lemma InjectFailure(ip: Interpolator, field: Operand, e: Expr, idims: seq<string>,
                      carriers: Term -> seq<Operand>)
    requires WellFormed(ip)
    ensures InjectEquations(ip, field, e, idims, carriers).Failure? <==> Coefficients(ip).Failure?
    ensures InjectEquations(ip, field, e, idims, carriers).Failure? ==>
      InjectEquations(ip, field, e, idims, carriers).error == IndexError
  {
    NdPointsLength(ip);
    CoefficientsFailure(ip, NdPoints(ip));
  }

  lemma InjectValue(ip: Interpolator, field: Operand, e: Expr, idims: seq<string>,
                    carriers: Term -> seq<Operand>, cs: seq<Term>)
    requires WellFormed(ip) && Coefficients(ip) == Success(cs)
    ensures var x := Evaluated(e);
      InjectEquations(ip, field, e, idims, carriers) ==
        Success(IndexTemps(ip, idims) + SubsCoordsEq(field.access, x, cs, IdxSubs(ip, carriers(x) + [field]), idims))
  {
  }

  /** A successful injection emits the temporaries and then one increment per neighbour, none lost to `zip`. */
  lemma InjectLayout(ip: Interpolator, field: Operand, e: Expr, idims: seq<string>,
                     carriers: Term -> seq<Operand>, cs: seq<Term>)
    requires WellFormed(ip) && Coefficients(ip) == Success(cs)
    ensures InjectEquations(ip, field, e, idims, carriers).Success?
    ensures var eqs, temps := InjectEquations(ip, field, e, idims, carriers).value, IndexTemps(ip, idims);
      |cs| == |NdPoints(ip)| && |eqs| == |temps| + |NdPoints(ip)| && eqs[..|temps|] == temps
  {
    var x := Evaluated(e);
    var temps := IndexTemps(ip, idims);
    CoefficientsLength(ip, cs);
    InjectValue(ip, field, e, idims, carriers, cs);
    var incs := SubsCoordsEq(field.access, x, cs, IdxSubs(ip, carriers(x) + [field]), idims);
    assert (temps + incs)[..|temps|] == temps;
  }

  /**
   * The increment for the k-th neighbour adds the expression times the k-th coefficient
   * to the field at the neighbour's guarded indices. The field is the last operand, so
   * its own substitution wins over any other occurrence in the expression.
   */
  lemma InjectContribution(ip: Interpolator, field: Operand, e: Expr, idims: seq<string>,
                           carriers: Term -> seq<Operand>, cs: seq<Term>, k: nat)
    requires WellFormed(ip) && Coefficients(ip) == Success(cs) && k < |NdPoints(ip)|
    ensures InjectEquations(ip, field, e, idims, carriers).Success?
    ensures var eqs, temps := InjectEquations(ip, field, e, idims, carriers).value, IndexTemps(ip, idims);
      var x, subs := Evaluated(e), IdxSubs(ip, carriers(Evaluated(e)) + [field]);
      |cs| == |NdPoints(ip)| && |temps| + k < |eqs| && IndexableBy(Columns(ip), NdPoints(ip)[k]) &&
      eqs[|temps| + k] ==
        Inc(SubsDims(field.access, DimSubs(GridNames(ip), Columns(ip), NdPoints(ip)[k], field.origin)),
            Mul(Xreplace(x, subs[k]), cs[k]), idims)
  {
    var x := Evaluated(e);
    var ops := carriers(x) + [field];
    var subs := IdxSubs(ip, ops);
    var temps := IndexTemps(ip, idims);
    CoefficientsLength(ip, cs);
    InjectValue(ip, field, e, idims, carriers, cs);
    InjectTarget(ip, ops, k);
    SubsCoordsEqAt(temps, field.access, x, cs, subs, idims, k);
  }

  /** For the k-th neighbour, the last operand is replaced by itself at the neighbour's indices. */
  lemma InjectTarget(ip: Interpolator, ops: seq<Operand>, k: nat)
    requires WellFormed(ip) && k < |NdPoints(ip)| && |ops| > 0
    ensures IndexableBy(Columns(ip), NdPoints(ip)[k])
    ensures forall i, i' :: 0 <= i < i' < |GridNames(ip)| ==> GridNames(ip)[i] != GridNames(ip)[i']
    ensures var v := ops[|ops| - 1];
      Xreplace(v.access, IdxSubs(ip, ops)[k]) ==
        SubsDims(v.access, DimSubs(GridNames(ip), Columns(ip), NdPoints(ip)[k], v.origin))
  {
    IdxSubsAt(ip, ops, k);
    OperandSubsLast(GridNames(ip), Columns(ip), NdPoints(ip)[k], ops, |ops| - 1);
  }

  /** The k-th increment of `subs_coords_eq`, placed after the temporaries. */
  lemma SubsCoordsEqAt(temps: seq<Equation>, field: Term, x: Term, cs: seq<Term>, subs: seq<map<Term, Term>>,
                       idims: seq<string>, k: nat)
    requires k < |cs| == |subs|
    ensures |temps + SubsCoordsEq(field, x, cs, subs, idims)| == |temps| + |cs|
    ensures (temps + SubsCoordsEq(field, x, cs, subs, idims))[|temps| + k] ==
      Inc(Xreplace(field, subs[k]), Mul(Xreplace(x, subs[k]), cs[k]), idims)
  {
  }
}
