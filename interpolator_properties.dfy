/**
 * What the interpolators promise: when the coefficients exist, what they evaluate to
 * (a partition of unity for the linear scheme, a delta at a grid node), where the
 * coefficient temporaries lie, how the index symbols are named, guarded and defined,
 * and that the weight, the index symbol and the substitution chosen for a neighbour
 * belong to the same offset.
 */
module InterpolatorProperties {
  import opened Wrappers
  import opened Strings
  import opened Reals
  import opened Symbolic
  import opened Offsets
  import opened Separable
  import opened Interpolators

  // ------------------------------------------------------------ definedness

  /**
   * The coefficients of `ps` exist exactly when every tuple's offsets index its axes'
   * weight lists; then there is one per tuple, in order.
   */
  lemma CoefficientsOfSuccess(ip: Interpolator, ps: seq<seq<int>>)
    requires WellFormed(ip) && Tuples(ip, ps)
    ensures CoefficientsOf(ip, ps).Success? <==> forall k :: 0 <= k < |ps| ==> FactorsDefined(ip, ps[k])
    ensures CoefficientsOf(ip, ps).Success? ==>
      |CoefficientsOf(ip, ps).value| == |ps| &&
      forall k :: 0 <= k < |ps| ==>
        FactorsDefined(ip, ps[k]) && CoefficientsOf(ip, ps).value[k] == Coefficient(ip, ps[k])
  {
    CoefficientsOfDefined(ip, ps);
    if CoefficientsOf(ip, ps).Success? {
      CoefficientsOfValues(ip, ps);
    }
  }

  lemma {:induction false} CoefficientsOfDefined(ip: Interpolator, ps: seq<seq<int>>)
    requires WellFormed(ip) && Tuples(ip, ps)
    ensures CoefficientsOf(ip, ps).Success? <==> forall k :: 0 <= k < |ps| ==> FactorsDefined(ip, ps[k])
  {
    if |ps| > 0 {
      var init, p := ps[..|ps| - 1], ps[|ps| - 1];
      InitTuples(ip, ps);
      CoefficientsOfDefined(ip, init);
      var ok := CoefficientsOf(ip, init).Success? && FactorsDefined(ip, p);
      assert CoefficientsOf(ip, ps).Success? == ok;
      if ok {
        forall k | 0 <= k < |ps| ensures FactorsDefined(ip, ps[k]) {
          if k < |init| {
            assert FactorsDefined(ip, init[k]);
          }
        }
      } else if FactorsDefined(ip, p) {
        var k :| 0 <= k < |init| && !FactorsDefined(ip, init[k]);
        assert !FactorsDefined(ip, ps[k]);
      }
    }
  }

  /** The tuples before the last are tuples too, each where it was. */
  lemma InitTuples(ip: Interpolator, ps: seq<seq<int>>)
    requires Tuples(ip, ps) && |ps| > 0
    ensures Tuples(ip, ps[..|ps| - 1])
    ensures forall k :: 0 <= k < |ps| - 1 ==> ps[..|ps| - 1][k] == ps[k]
  {
  }

  lemma {:induction false} CoefficientsOfValues(ip: Interpolator, ps: seq<seq<int>>)
    requires WellFormed(ip) && Tuples(ip, ps) && CoefficientsOf(ip, ps).Success?
    ensures |CoefficientsOf(ip, ps).value| == |ps|
    ensures forall k :: 0 <= k < |ps| ==>
      FactorsDefined(ip, ps[k]) && CoefficientsOf(ip, ps).value[k] == Coefficient(ip, ps[k])
  {
    if |ps| > 0 {
      var init, p := ps[..|ps| - 1], ps[|ps| - 1];
      InitTuples(ip, ps);
      var prev := CoefficientsOf(ip, init);
      assert prev.Success? && FactorsDefined(ip, p);
      CoefficientsOfValues(ip, init);
      var c := Coefficient(ip, p);
      var cs := prev.value + [c];
      assert CoefficientsOf(ip, ps).value == cs;
      forall k | 0 <= k < |ps| ensures FactorsDefined(ip, ps[k]) && cs[k] == Coefficient(ip, ps[k]) {
        if k < |init| {
          assert cs[k] == prev.value[k];
        }
      }
    }
  }

  /** The precomputed scheme never raises: there is one coefficient per neighbour. */
  lemma PrecomputedCoefficients(ip: Interpolator)
    requires WellFormed(ip) && ip.scheme.Precomputed?
    ensures Coefficients(ip).Success?
    ensures |Coefficients(ip).value| == |NdPoints(ip)|
  {
    var nd := NdPoints(ip);
    NdPointsLength(ip);
    NdPointsIndexable(ip);
    forall k | 0 <= k < |nd| ensures FactorsDefined(ip, nd[k]) {
      forall j | 0 <= j < |nd[k]| ensures PyIndexable(WeightCount(ip), nd[k][j]) {
        OffsetIndexable(ip, nd[k][j]);
      }
    }
    CoefficientsOfSuccess(ip, nd);
  }

  /**
   * The linear scheme has two weights per axis, so on a grid with at least one
   * dimension its coefficients exist exactly when the radius is at most 1: with
   * r >= 2 the offset r indexes past them and raises IndexError.
   */
  lemma LinearCoefficients(ip: Interpolator)
    requires WellFormed(ip) && ip.scheme.Linear?
    ensures Coefficients(ip).Success? <==> |ip.grid| == 0 || ip.sf.r <= 1
    ensures Coefficients(ip).Failure? ==> Coefficients(ip).error == IndexError
  {
    var nd, r, n := NdPoints(ip), ip.sf.r, |ip.grid|;
    NdPointsLength(ip);
    CoefficientsOfSuccess(ip, nd);
    CoefficientsFailure(ip, nd);
    LinearPointsShape(r);
    if n > 0 && r >= 2 {
      var t := seq(n, j requires 0 <= j < n => r as int);
      ProductMembership(InterpPoints(ip), n, t);
      var k :| 0 <= k < |nd| && nd[k] == t;
      assert !PyIndexable(WeightCount(ip), nd[k][0]);
    } else {
      NdPointsIndexable(ip);
      forall k | 0 <= k < |nd| ensures FactorsDefined(ip, nd[k]) {
        assert forall j :: 0 <= j < |nd[k]| ==> nd[k][j] in LinearPoints(r);
      }
    }
  }

  // ------------------------------------------------------------ numeric values

  /** Per axis, the values the weights take under `env`. */
  function WeightTable(ip: Interpolator, env: Term -> real): (w: seq<seq<real>>)
    requires WellFormed(ip)
    ensures |w| == |ip.grid|
    ensures forall j :: 0 <= j < |ip.grid| ==> |w[j]| == WeightCount(ip)
  {
    seq(|ip.grid|, j requires 0 <= j < |ip.grid| => Values(AxisWeights(ip, j), env))
  }

  /** The position in its axis' weight list that each offset of `p` selects. */
  function Selected(ip: Interpolator, p: seq<int>): (q: seq<int>)
    requires WellFormed(ip) && |p| <= |ip.grid| && FactorsDefined(ip, p)
    ensures |q| == |p|
  {
    seq(|p|, j requires 0 <= j < |p| => PyPos(WeightCount(ip), p[j]))
  }

  lemma {:induction false} ValuesAt(ts: seq<Term>, env: Term -> real, j: nat)
    requires j < |ts|
    ensures Values(ts, env)[j] == Eval(ts[j], env)
  {
    if j < |ts| - 1 {
      ValuesAt(ts[..|ts| - 1], env, j);
    }
  }

  /** A coefficient evaluates to the product of the weight values its offsets select, axis by axis. */
  lemma EvalCoefficient(ip: Interpolator, env: Term -> real, p: seq<int>)
    requires WellFormed(ip) && |p| <= |ip.grid| && FactorsDefined(ip, p)
    ensures Covers(WeightTable(ip, env), Selected(ip, p))
    ensures Eval(Coefficient(ip, p), env) == TupleWeight(WeightTable(ip, env), Selected(ip, p))
  {
    var fs, w, q := Factors(ip, p), WeightTable(ip, env), Selected(ip, p);
    var vs := Values(fs, env);
    forall j | 0 <= j < |p| ensures vs[j] == w[j][q[j]] {
      ValuesAt(fs, env, j);
      ValuesAt(AxisWeights(ip, j), env, q[j]);
    }
    EvalProdTerm(fs, env);
    SelectedProduct(vs, w, q);
  }

  // ------------------------------------------------------ the linear scheme

  /** With radius 1 the linear scheme's offsets are 0 and 1. */
  lemma LinearUnitPoints(ip: Interpolator)
    requires ip.scheme.Linear? && ip.sf.r == 1
    ensures InterpPoints(ip) == Pair
    ensures NdPoints(ip) == Product(Pair, |ip.grid|)
  {
    LinearPointsShape(1);
  }

  /** The values of axis `j`'s two linear weights: `1 - q` and `q`, for `q` the point symbol's value over the spacing's. */
  lemma EvalLinearWeights(ip: Interpolator, env: Term -> real, j: nat)
    requires WellFormed(ip) && ip.scheme.Linear? && j < |ip.grid|
    ensures WeightTable(ip, env)[j][0] == 1.0 - LinearFraction(ip, env, j)
    ensures WeightTable(ip, env)[j][1] == LinearFraction(ip, env, j)
  {
    var ws := AxisWeights(ip, j);
    ValuesAt(ws, env, 0);
    ValuesAt(ws, env, 1);
  }

  /** The value of `p/h` on axis `j`. */
  function LinearFraction(ip: Interpolator, env: Term -> real, j: nat): real
    requires WellFormed(ip) && j < |ip.grid|
  {
    Quotient(Eval(ip.sf.pointSymbols[j], env), Eval(ip.grid[j].spacing, env))
  }

  /** The two linear weights of every axis, `1 - p/h` and `p/h`, sum to 1. */
  lemma LinearTableNormalised(ip: Interpolator, env: Term -> real)
    requires WellFormed(ip) && ip.scheme.Linear?
    ensures Normalised(WeightTable(ip, env), |ip.grid|)
  {
    forall j | 0 <= j < |ip.grid| ensures WeightTable(ip, env)[j][0] + WeightTable(ip, env)[j][1] == 1.0 {
      EvalLinearWeights(ip, env, j);
    }
  }

  /** Offsets 0 and 1 index the two linear weights directly. */
  lemma LinearSelected(ip: Interpolator, p: seq<int>)
    requires WellFormed(ip) && ip.scheme.Linear? && |p| <= |ip.grid|
    requires forall j :: 0 <= j < |p| ==> p[j] in Pair
    ensures FactorsDefined(ip, p) && Selected(ip, p) == p
  {
  }

  /**
   * The k-th radius-1 linear coefficient evaluates to the weight of the k-th
   * neighbour in the evaluated weight table.
   */
  lemma LinearCoefficientValue(ip: Interpolator, env: Term -> real, k: nat)
    requires WellFormed(ip) && ip.scheme.Linear? && ip.sf.r == 1 && k < |NdPoints(ip)|
    ensures |NdPoints(ip)[k]| == |ip.grid| && forall j :: 0 <= j < |ip.grid| ==> NdPoints(ip)[k][j] in Pair
    ensures Coefficients(ip).Success? && |Coefficients(ip).value| == |NdPoints(ip)|
    ensures Covers(WeightTable(ip, env), NdPoints(ip)[k])
    ensures Eval(Coefficients(ip).value[k], env) == TupleWeight(WeightTable(ip, env), NdPoints(ip)[k])
  {
    var nd := NdPoints(ip);
    LinearCoefficients(ip);
    LinearUnitPoints(ip);
    NdPointsLength(ip);
    CoefficientsOfSuccess(ip, nd);
    ProductShape(Pair, |ip.grid|);
    LinearSelected(ip, nd[k]);
    EvalCoefficient(ip, env, nd[k]);
  }

  /**
   * Partition of unity: the coefficients of the radius-1 linear scheme sum to 1,
   * whatever values the point symbols and spacings take.
   */
  lemma LinearPartitionOfUnity(ip: Interpolator, env: Term -> real)
    requires WellFormed(ip) && ip.scheme.Linear? && ip.sf.r == 1
    ensures Coefficients(ip).Success?
    ensures Sum(Values(Coefficients(ip).value, env)) == 1.0
  {
    var n, w, nd := |ip.grid|, WeightTable(ip, env), NdPoints(ip);
    LinearCoefficients(ip);
    LinearUnitPoints(ip);
    NdPointsLength(ip);
    CoefficientsOfSuccess(ip, nd);
    var cs := Coefficients(ip).value;
    var xs := Values(cs, env);
    LinearTableNormalised(ip, env);
    ProductCovered(w, n);
    forall k | 0 <= k < |xs| ensures xs[k] == TupleWeight(w, nd[k]) {
      ValuesAt(cs, env, k);
      LinearCoefficientValue(ip, env, k);
    }
    SumListed(xs, w, nd);
    UnitPartition(w, n);
  }

  /** Every offset of `p` is 0. */
  predicate AllZero(p: seq<int>) {
    forall j :: 0 <= j < |p| ==> p[j] == 0
  }

  /**
   * At a grid node, where every point symbol is 0, the radius-1 linear coefficients
   * are a delta: 1 for the neighbour with every offset 0, the node itself, and 0 for
   * every other neighbour.
   */
  lemma LinearNodeDelta(ip: Interpolator, env: Term -> real, k: nat)
    requires WellFormed(ip) && ip.scheme.Linear? && ip.sf.r == 1
    requires forall j :: 0 <= j < |ip.grid| ==> Eval(ip.sf.pointSymbols[j], env) == 0.0
    requires k < |NdPoints(ip)|
    ensures Coefficients(ip).Success? && |Coefficients(ip).value| == |NdPoints(ip)|
    ensures Eval(Coefficients(ip).value[k], env) == if AllZero(NdPoints(ip)[k]) then 1.0 else 0.0
  {
    var w, p := WeightTable(ip, env), NdPoints(ip)[k];
    LinearCoefficientValue(ip, env, k);
    forall j | 0 <= j < |p| ensures w[j][p[j]] == if p[j] == 0 then 1.0 else 0.0 {
      EvalLinearWeights(ip, env, j);
    }
    TupleWeightDelta(w, p);
  }

  /** The coefficient temporary of axis `j` assigns the point symbol `pos - h*floor(pos/h)`. */
  lemma EvalCoeffTemp(ip: Interpolator, idims: seq<string>, env: Term -> real, j: nat)
    requires WellFormed(ip) && ip.scheme.Linear? && j < |ip.grid|
    ensures CoeffTemps(ip, idims)[j].Eq? && CoeffTemps(ip, idims)[j].lhs == ip.sf.pointSymbols[j]
    ensures Eval(CoeffTemps(ip, idims)[j].rhs, env) ==
      var pos, h := Eval(ip.sf.positionMap[j].1, env), Eval(ip.grid[j].spacing, env);
      pos - h * (Quotient(pos, h).Floor as real)
  {
    var posT, hT := ip.sf.positionMap[j].1, ip.grid[j].spacing;
    var fl := Floor(Div(posT, hT));
    assert CoeffTemps(ip, idims)[j] == Eq(ip.sf.pointSymbols[j], Sub(posT, Mul(hT, fl)), idims);
    assert Eval(fl, env) == Quotient(Eval(posT, env), Eval(hT, env)).Floor as real;
    assert Eval(Mul(hT, fl), env) == Eval(hT, env) * Eval(fl, env);
  }

  /** The remainder of a position by a positive spacing, and the two weights it gives, lie in range. */
  lemma RemainderWeights(ps: real, pos: real, h: real)
    requires h > 0.0 && ps == pos - h * (Quotient(pos, h).Floor as real)
    ensures 0.0 <= ps < h
    ensures 0.0 < 1.0 - Quotient(ps, h) <= 1.0 && 0.0 <= Quotient(ps, h) < 1.0
  {
    FloorRemainder(pos, h);
    UnitQuotient(ps, h);
  }

  /**
   * Once a point symbol holds the value its coefficient temporary assigns, it lies in
   * [0, h) for a positive spacing h, and both linear weights of that axis lie in [0, 1].
   */
  lemma CoeffTempBounds(ip: Interpolator, idims: seq<string>, env: Term -> real, j: nat)
    requires WellFormed(ip) && ip.scheme.Linear? && j < |ip.grid|
    requires ip.sf.pointSymbols[j].Sym? && Eval(ip.grid[j].spacing, env) > 0.0
    requires Satisfies(env, CoeffTemps(ip, idims)[j])
    ensures 0.0 <= Eval(ip.sf.pointSymbols[j], env) < Eval(ip.grid[j].spacing, env)
    ensures 0.0 < WeightTable(ip, env)[j][0] <= 1.0 && 0.0 <= WeightTable(ip, env)[j][1] < 1.0
  {
    EvalCoeffTemp(ip, idims, env, j);
    EvalLinearWeights(ip, env, j);
    RemainderWeights(Eval(ip.sf.pointSymbols[j], env), Eval(ip.sf.positionMap[j].1, env),
                     Eval(ip.grid[j].spacing, env));
  }

  /**
   * Between the nodes: once every coefficient temporary holds and the spacings are
   * positive, every radius-1 linear coefficient lies in [0, 1], so an interpolated
   * value is a convex combination of the neighbouring field values.
   */
  lemma LinearCoefficientBounds(ip: Interpolator, idims: seq<string>, env: Term -> real, k: nat)
    requires WellFormed(ip) && ip.scheme.Linear? && ip.sf.r == 1
    requires forall j :: 0 <= j < |ip.grid| ==>
      ip.sf.pointSymbols[j].Sym? && Eval(ip.grid[j].spacing, env) > 0.0 &&
      Satisfies(env, CoeffTemps(ip, idims)[j])
    requires k < |NdPoints(ip)|
    ensures Coefficients(ip).Success? && |Coefficients(ip).value| == |NdPoints(ip)|
    ensures 0.0 <= Eval(Coefficients(ip).value[k], env) <= 1.0
  {
    var w, p := WeightTable(ip, env), NdPoints(ip)[k];
    LinearCoefficientValue(ip, env, k);
    forall j | 0 <= j < |p| ensures 0.0 <= w[j][p[j]] <= 1.0 {
      CoeffTempBounds(ip, idims, env, j);
    }
    TupleWeightUnit(w, p);
  }
}
