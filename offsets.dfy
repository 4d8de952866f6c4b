/**
 * Integer offset ranges, Python list indexing, and the cartesian product that
 * enumerates the neighbours of a sparse point (`itertools.product(range, repeat=d)`).
 */
module Offsets {

  predicate Distinct<T(==)>(xs: seq<T>) {
    forall i, j :: 0 <= i < j < |xs| ==> xs[i] != xs[j]
  }

  function Power(b: nat, e: nat): nat {
    if e == 0 then 1 else Power(b, e - 1) * b
  }

  // ------------------------------------------------------------------ ranges

  /** Python's `range(lo, hi)`: the consecutive integers from `lo` up to, not including, `hi`. */
  function Range(lo: int, hi: int): (s: seq<int>)
    ensures |s| == if lo <= hi then hi - lo else 0
    ensures forall i :: 0 <= i < |s| ==> s[i] == lo + i
    decreases hi - lo
  {
    if lo >= hi then [] else [lo] + Range(lo + 1, hi)
  }

  lemma RangeMembership(lo: int, hi: int, x: int)
    ensures x in Range(lo, hi) <==> lo <= x < hi
  {
    if lo <= x < hi {
      assert Range(lo, hi)[x - lo] == x;
    }
  }

  lemma RangeDistinct(lo: int, hi: int)
    ensures Distinct(Range(lo, hi))
  {
  }

  /** The offsets of the linear scheme along one axis: `range(-r + 1, r + 1)`. */
  function LinearPoints(r: nat): seq<int> {
    Range(-(r as int) + 1, r + 1)
  }

  /**
   * The offsets of the precomputed scheme along one axis: `range(-r//2 + 1, r//2 + 1)`,
   * where Python's unary minus binds before `//`. With a positive divisor Dafny's
   * `/` on `int` rounds down exactly as Python's `//` does.
   */
  function PrecomputedPoints(r: nat): seq<int> {
    Range((-(r as int)) / 2 + 1, r / 2 + 1)
  }

  /** The linear scheme has the 2r consecutive offsets -r+1 .. r. */
  lemma LinearPointsShape(r: nat)
    ensures |LinearPoints(r)| == 2 * r
    ensures forall i :: 0 <= i < 2 * r ==> LinearPoints(r)[i] == -(r as int) + 1 + i
    ensures forall x :: x in LinearPoints(r) <==> -(r as int) < x <= r
  {
    forall x ensures x in LinearPoints(r) <==> -(r as int) < x <= r {
      RangeMembership(-(r as int) + 1, r + 1, x);
    }
  }

  /** The precomputed scheme has exactly r consecutive offsets, the 0th being (-r)//2 + 1. */
  lemma PrecomputedPointsShape(r: nat)
    ensures |PrecomputedPoints(r)| == r
    ensures forall i :: 0 <= i < r ==> PrecomputedPoints(r)[i] == (-(r as int)) / 2 + 1 + i
    ensures forall x :: x in PrecomputedPoints(r) <==> (-(r as int)) / 2 < x <= r / 2
  {
    if r % 2 == 0 {
      assert (-(r as int)) / 2 == -(r / 2);
    } else {
      assert (-(r as int)) / 2 == -(r / 2) - 1;
    }
    forall x ensures x in PrecomputedPoints(r) <==> (-(r as int)) / 2 < x <= r / 2 {
      RangeMembership((-(r as int)) / 2 + 1, r / 2 + 1, x);
    }
  }

  // --------------------------------------------------------- Python indexing

  /** A Python index into a list of length `n` that does not raise IndexError. */
  predicate PyIndexable(n: nat, i: int) {
    -(n as int) <= i < n
  }

  /** The position Python index `i` designates in a list of length `n` (negative ones count from the end). */
  function PyPos(n: nat, i: int): (p: nat)
    requires PyIndexable(n, i)
    ensures p < n
  {
    if i < 0 then i + n else i
  }

  /**
   * When consecutive offsets `lo .. lo + n - 1` with `-n < lo <= 0` are used as Python
   * indices into a list of length n, none raises, and distinct offsets land on
   * distinct positions: the offsets are permuted, not lost or repeated.
   */
  lemma {:induction false} PyPosPermutes(lo: int, n: nat)
    requires -(n as int) < lo <= 0
    ensures forall x :: lo <= x < lo + n ==> PyIndexable(n, x)
    ensures forall x, y :: lo <= x < lo + n && lo <= y < lo + n && PyPos(n, x) == PyPos(n, y) ==> x == y
    ensures forall p :: 0 <= p < n ==>
      lo <= OffsetAt(lo, n, p) < lo + n && PyPos(n, OffsetAt(lo, n, p)) == p
  {
  }

  /** The offset in `lo .. lo + n - 1` whose Python index designates position `p`. */
  function OffsetAt(lo: int, n: nat, p: nat): int {
    if p < lo + n then p else p - n
  }

  /** Both schemes' offset ranges, for r >= 1, start in (-|range|, 0]. */
  lemma PointsStart(r: nat)
    requires r >= 1
    ensures -|LinearPoints(r)| < LinearPoints(r)[0] <= 0
    ensures -|PrecomputedPoints(r)| < PrecomputedPoints(r)[0] <= 0
  {
    LinearPointsShape(r);
    PrecomputedPointsShape(r);
  }

  // ------------------------------------------------------ cartesian product

  /** `t` extended by each element of `s` in turn. */
  function Appends(t: seq<int>, s: seq<int>): (r: seq<seq<int>>)
    ensures |r| == |s|
  {
    seq(|s|, i requires 0 <= i < |s| => t + [s[i]])
  }

  /** Every tuple of `ts`, in order, extended by every element of `s`, in order. */
  function Extend(ts: seq<seq<int>>, s: seq<int>): seq<seq<int>> {
    if |ts| == 0 then [] else Appends(ts[0], s) + Extend(ts[1..], s)
  }

  /**
   * `itertools.product(s, repeat=n)`: all n-tuples over `s` in lexicographic order, the
   * last position varying fastest.
   */
  function Product(s: seq<int>, n: nat): seq<seq<int>> {
    if n == 0 then [[]] else Extend(Product(s, n - 1), s)
  }

  lemma {:induction false} ExtendLength(ts: seq<seq<int>>, s: seq<int>)
    ensures |Extend(ts, s)| == |ts| * |s|
  {
    if |ts| > 0 {
      ExtendLength(ts[1..], s);
      assert |ts| * |s| == |s| + (|ts| - 1) * |s|;
    }
  }

  lemma {:induction false} ExtendIndex(ts: seq<seq<int>>, s: seq<int>, k: nat, i: nat)
    requires k < |ts| && i < |s|
    ensures k * |s| + i < |Extend(ts, s)|
    ensures Extend(ts, s)[k * |s| + i] == ts[k] + [s[i]]
  {
    ExtendLength(ts, s);
    if k > 0 {
      ExtendIndex(ts[1..], s, k - 1, i);
      assert k * |s| + i == |s| + ((k - 1) * |s| + i);
    }
  }

  lemma {:induction false} ExtendMembership(ts: seq<seq<int>>, s: seq<int>, x: seq<int>)
    ensures x in Extend(ts, s) <==> |x| > 0 && x[..|x| - 1] in ts && x[|x| - 1] in s
  {
    if |ts| > 0 {
      ExtendMembership(ts[1..], s, x);
      if x in Appends(ts[0], s) {
        var i :| 0 <= i < |s| && Appends(ts[0], s)[i] == x;
        assert x[..|x| - 1] == ts[0];
      }
      if |x| > 0 && x[..|x| - 1] == ts[0] && x[|x| - 1] in s {
        var i :| 0 <= i < |s| && s[i] == x[|x| - 1];
        assert x == ts[0] + [s[i]];
        assert Appends(ts[0], s)[i] == x;
      }
      assert ts == [ts[0]] + ts[1..];
    }
  }

  lemma DistinctConcat<T>(a: seq<T>, b: seq<T>)
    requires Distinct(a) && Distinct(b)
    requires forall x :: x in a ==> x !in b
    ensures Distinct(a + b)
  {
    forall i, j | 0 <= i < j < |a + b| ensures (a + b)[i] != (a + b)[j] {
      if j >= |a| && i < |a| {
        assert (a + b)[i] in a && (a + b)[j] in b;
      }
    }
  }

  lemma {:induction false} ExtendDistinct(ts: seq<seq<int>>, s: seq<int>)
    requires Distinct(ts) && Distinct(s)
    ensures Distinct(Extend(ts, s))
  {
    if |ts| > 0 {
      var head := Appends(ts[0], s);
      ExtendDistinct(ts[1..], s);
      forall i, j | 0 <= i < j < |head| ensures head[i] != head[j] {
        assert head[i][|ts[0]|] == s[i] && head[j][|ts[0]|] == s[j];
      }
      forall x | x in head ensures x !in Extend(ts[1..], s) {
        var i :| 0 <= i < |s| && head[i] == x;
        assert x[..|x| - 1] == ts[0];
        ExtendMembership(ts[1..], s, x);
        assert ts[0] !in ts[1..];
      }
      DistinctConcat(head, Extend(ts[1..], s));
    }
  }

  /** There are |s|^n tuples, each of length n with every entry drawn from `s`. */
  lemma {:induction false} ProductShape(s: seq<int>, n: nat)
    ensures |Product(s, n)| == Power(|s|, n)
    ensures forall k :: 0 <= k < |Product(s, n)| ==>
      |Product(s, n)[k]| == n && forall j :: 0 <= j < n ==> Product(s, n)[k][j] in s
  {
    if n > 0 {
      var prev := Product(s, n - 1);
      ProductShape(s, n - 1);
      ExtendLength(prev, s);
      forall k | 0 <= k < |Product(s, n)|
        ensures |Product(s, n)[k]| == n && forall j :: 0 <= j < n ==> Product(s, n)[k][j] in s
      {
        var x := Product(s, n)[k];
        ExtendMembership(prev, s, x);
        var k' :| 0 <= k' < |prev| && prev[k'] == x[..|x| - 1];
        assert forall j :: 0 <= j < n - 1 ==> x[j] == prev[k'][j];
      }
    }
  }

  /** A tuple is a neighbour exactly when it has n entries, each drawn from `s`. */
  lemma {:induction false} ProductMembership(s: seq<int>, n: nat, t: seq<int>)
    ensures t in Product(s, n) <==> |t| == n && forall j :: 0 <= j < n ==> t[j] in s
  {
    if n == 0 {
    } else {
      ExtendMembership(Product(s, n - 1), s, t);
      if |t| > 0 {
        ProductMembership(s, n - 1, t[..|t| - 1]);
        if |t| == n && forall j :: 0 <= j < n ==> t[j] in s {
          assert forall j :: 0 <= j < n - 1 ==> t[..|t| - 1][j] == t[j];
        }
        if t in Product(s, n) {
          assert forall j :: 0 <= j < n - 1 ==> t[..|t| - 1][j] == t[j];
        }
      }
    }
  }

  /** Over distinct offsets, every neighbour tuple appears exactly once. */
  lemma {:induction false} ProductDistinct(s: seq<int>, n: nat)
    requires Distinct(s)
    ensures Distinct(Product(s, n))
  {
    if n > 0 {
      ProductDistinct(s, n - 1);
      ExtendDistinct(Product(s, n - 1), s);
    }
  }

  /**
   * Lexicographic order, last axis fastest: the tuple at position k*|s| + i is the
   * k-th tuple of one axis fewer, followed by the i-th offset.
   */
  lemma ProductOrder(s: seq<int>, n: nat, k: nat, i: nat)
    requires n > 0 && k < |Product(s, n - 1)| && i < |s|
    ensures k * |s| + i < |Product(s, n)|
    ensures Product(s, n)[k * |s| + i] == Product(s, n - 1)[k] + [s[i]]
  {
    ExtendIndex(Product(s, n - 1), s, k, i);
  }
}
