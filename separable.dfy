/**
 * Numeric facts about product weights. A weight table gives, per axis, the list of
 * that axis' weight values; a neighbour tuple's weight is the product of one entry
 * per axis, the one its offset selects. When every axis has the two offsets 0 and 1
 * and its two weights sum to 1, the weights of all 2^n tuples sum to 1.
 */
module Separable {
  import opened Offsets
  import opened Reals

  /** The table has an entry for every offset of `p`, on the axis it belongs to. */
  predicate Covers(w: seq<seq<real>>, p: seq<int>) {
    |p| <= |w| && forall j :: 0 <= j < |p| ==> 0 <= p[j] < |w[j]|
  }

  predicate CoversAll(w: seq<seq<real>>, ps: seq<seq<int>>) {
    forall k :: 0 <= k < |ps| ==> Covers(w, ps[k])
  }

  /** The weight of tuple `p`: the product, folded from the left, of the entries its offsets select. */
  function TupleWeight(w: seq<seq<real>>, p: seq<int>): real
    requires Covers(w, p)
  {
    if |p| == 0 then 1.0 else TupleWeight(w, p[..|p| - 1]) * w[|p| - 1][p[|p| - 1]]
  }

  /** The sum of the weights of all tuples in `ps`. */
  function SumWeights(w: seq<seq<real>>, ps: seq<seq<int>>): real
    requires CoversAll(w, ps)
  {
    if |ps| == 0 then 0.0 else TupleWeight(w, ps[0]) + SumWeights(w, ps[1..])
  }

  /** The two offsets of every axis in the one-cell neighbourhood. */
  const Pair: seq<int> := [0, 1]

  /** Every axis below `n` has exactly two entries, and they sum to 1. */
  predicate Normalised(w: seq<seq<real>>, n: nat) {
    n <= |w| && forall j :: 0 <= j < n ==> |w[j]| == 2 && w[j][0] + w[j][1] == 1.0
  }

  lemma {:induction false} SumConcat(w: seq<seq<real>>, a: seq<seq<int>>, b: seq<seq<int>>)
    requires CoversAll(w, a) && CoversAll(w, b)
    ensures CoversAll(w, a + b)
    ensures SumWeights(w, a + b) == SumWeights(w, a) + SumWeights(w, b)
  {
    if |a| == 0 {
      assert a + b == b;
    } else {
      assert (a + b)[1..] == a[1..] + b;
      SumConcat(w, a[1..], b);
    }
  }

  lemma AppendsPair(t: seq<int>)
    ensures Appends(t, Pair) == [t + [0], t + [1]]
  {
    var a := Appends(t, Pair);
    assert a[0] == t + [0] && a[1] == t + [1];
  }

  lemma SumTwo(w: seq<seq<real>>, x: seq<int>, y: seq<int>)
    requires Covers(w, x) && Covers(w, y)
    ensures CoversAll(w, [x, y])
    ensures SumWeights(w, [x, y]) == TupleWeight(w, x) + TupleWeight(w, y)
  {
    assert [x, y][1..] == [y] && [y][1..] == [];
    assert SumWeights(w, [y]) == TupleWeight(w, y) + SumWeights(w, []);
  }

  /** The weight of `p`, which is `t` extended by `x`, is `t`'s weight times the entry `x` selects. */
  lemma TupleWeightSnoc(w: seq<seq<real>>, p: seq<int>, t: seq<int>, x: int)
    requires p == t + [x] && Covers(w, p)
    ensures |t| < |w| && 0 <= x < |w[|t|]| && Covers(w, t)
    ensures IsProduct(TupleWeight(w, p), TupleWeight(w, t), w[|t|][x])
  {
    CoversPrefix(w, p, t, x);
  }

  lemma CoversPrefix(w: seq<seq<real>>, p: seq<int>, t: seq<int>, x: int)
    requires p == t + [x] && Covers(w, p)
    ensures |t| < |w| && 0 <= x < |w[|t|]| && Covers(w, t)
    ensures |p| - 1 == |t| && p[..|p| - 1] == t && p[|p| - 1] == x
  {
    assert forall j :: 0 <= j < |t| ==> t[j] == p[j];
    assert p[|t|] == x;
    assert p[..|t|] == t;
  }

  /** When the next axis' two entries sum to 1, the two extensions of `t` together weigh what `t` weighs. */
  lemma PairAppends(w: seq<seq<real>>, t: seq<int>)
    requires Covers(w, t) && |t| < |w| && |w[|t|]| == 2 && w[|t|][0] + w[|t|][1] == 1.0
    ensures CoversAll(w, Appends(t, Pair))
    ensures SumWeights(w, Appends(t, Pair)) == TupleWeight(w, t)
  {
    var a0, a1 := t + [0], t + [1];
    AppendsPair(t);
    assert Covers(w, a0) && Covers(w, a1);
    SumTwo(w, a0, a1);
    PairWeights(w, t, a0, a1);
  }

  lemma PairWeights(w: seq<seq<real>>, t: seq<int>, a0: seq<int>, a1: seq<int>)
    requires a0 == t + [0] && a1 == t + [1] && Covers(w, a0) && Covers(w, a1)
    requires w[|t|][0] + w[|t|][1] == 1.0
    ensures Covers(w, t)
    ensures TupleWeight(w, a0) + TupleWeight(w, a1) == TupleWeight(w, t)
  {
    TupleWeightSnoc(w, a0, t, 0);
    TupleWeightSnoc(w, a1, t, 1);
    Split(TupleWeight(w, a0), TupleWeight(w, a1), TupleWeight(w, t), w[|t|][0], w[|t|][1]);
  }

  /** Extending every tuple by both offsets keeps the total weight when the new axis' entries sum to 1. */
  lemma {:induction false} SumExtendUnit(w: seq<seq<real>>, ts: seq<seq<int>>, m: nat)
    requires forall i :: 0 <= i < |ts| ==> |ts[i]| == m
    requires CoversAll(w, ts) && m < |w| && |w[m]| == 2 && w[m][0] + w[m][1] == 1.0
    ensures CoversAll(w, Extend(ts, Pair))
    ensures SumWeights(w, Extend(ts, Pair)) == SumWeights(w, ts)
  {
    if |ts| > 0 {
      var head, tail := Appends(ts[0], Pair), Extend(ts[1..], Pair);
      SumExtendUnit(w, ts[1..], m);
      PairAppends(w, ts[0]);
      SumConcat(w, head, tail);
    }
  }

  /** Every tuple over the offsets 0 and 1 has an entry in a table normalised up to its length. */
  lemma ProductCovered(w: seq<seq<real>>, n: nat)
    requires Normalised(w, n)
    ensures forall k :: 0 <= k < |Product(Pair, n)| ==> |Product(Pair, n)[k]| == n
    ensures CoversAll(w, Product(Pair, n))
  {
    ProductShape(Pair, n);
  }

  /**
   * Partition of unity: when every axis' two entries sum to 1, the weights of all
   * 2^n tuples over the offsets 0 and 1 sum to 1.
   */
  lemma {:induction false} UnitPartition(w: seq<seq<real>>, n: nat)
    requires Normalised(w, n)
    ensures CoversAll(w, Product(Pair, n))
    ensures SumWeights(w, Product(Pair, n)) == 1.0
  {
    ProductCovered(w, n);
    if n == 0 {
      assert SumWeights(w, [[]]) == TupleWeight(w, []) + SumWeights(w, [[]][1..]);
    } else {
      UnitPartition(w, n - 1);
      ProductCovered(w, n - 1);
      SumExtendUnit(w, Product(Pair, n - 1), n - 1);
    }
  }

  /** A sequence of reals that lists the weights of `ps` sums to their total weight. */
  lemma {:induction false} SumListed(xs: seq<real>, w: seq<seq<real>>, ps: seq<seq<int>>)
    requires |xs| == |ps| && CoversAll(w, ps)
    requires forall k :: 0 <= k < |xs| ==> xs[k] == TupleWeight(w, ps[k])
    ensures Sum(xs) == SumWeights(w, ps)
  {
    if |xs| > 0 {
      SumListed(xs[1..], w, ps[1..]);
    }
  }

  /**
   * When every axis puts weight 1 on offset 0 and weight 0 on every other offset, a
   * tuple's weight is 1 exactly for the all-zero tuple and 0 for every other.
   */
  lemma {:induction false} TupleWeightDelta(w: seq<seq<real>>, p: seq<int>)
    requires Covers(w, p)
    requires forall j :: 0 <= j < |p| ==> w[j][p[j]] == if p[j] == 0 then 1.0 else 0.0
    ensures TupleWeight(w, p) == if forall j :: 0 <= j < |p| ==> p[j] == 0 then 1.0 else 0.0
  {
    if |p| > 0 {
      var init := p[..|p| - 1];
      assert forall j :: 0 <= j < |init| ==> init[j] == p[j];
      TupleWeightDelta(w, init);
    }
  }

  /** When every entry a tuple selects lies in [0, 1], so does its weight. */
  lemma {:induction false} TupleWeightUnit(w: seq<seq<real>>, p: seq<int>)
    requires Covers(w, p)
    requires forall j :: 0 <= j < |p| ==> 0.0 <= w[j][p[j]] <= 1.0
    ensures 0.0 <= TupleWeight(w, p) <= 1.0
  {
    if |p| > 0 {
      var t, x := p[..|p| - 1], p[|p| - 1];
      assert p == t + [x];
      TupleWeightSnoc(w, p, t, x);
      assert forall j :: 0 <= j < |t| ==> t[j] == p[j];
      TupleWeightUnit(w, t);
      UnitProduct(TupleWeight(w, p), TupleWeight(w, t), w[|t|][x]);
    }
  }

  /** The product of the values a tuple selects, listed in axis order, is the tuple's weight. */
  lemma {:induction false} SelectedProduct(vs: seq<real>, w: seq<seq<real>>, p: seq<int>)
    requires Covers(w, p) && |vs| == |p|
    requires forall j :: 0 <= j < |p| ==> vs[j] == w[j][p[j]]
    ensures RealProduct(vs) == TupleWeight(w, p)
  {
    if |p| > 0 {
      var t, x := p[..|p| - 1], p[|p| - 1];
      assert p == t + [x];
      TupleWeightSnoc(w, p, t, x);
      SelectedProduct(vs[..|vs| - 1], w, t);
      RealProductLast(vs);
      SameProduct(RealProduct(vs), TupleWeight(w, p), RealProduct(vs[..|vs| - 1]), TupleWeight(w, t),
                  vs[|vs| - 1], w[|t|][x]);
    }
  }
}
