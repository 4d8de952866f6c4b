/**
 * Deferred sparse operations: an interpolation or an injection is not expanded into
 * equations when it is created but carries a callback that produces them when the
 * operation is evaluated. Adding an operation to anything else builds a flat list,
 * nested lists being spliced in place.
 */
module SparseOperations {
  import opened Wrappers
  import opened Symbolic

  /** What a callback produces: the equations, or the Python exception it raises. */
  type Equations = Result<seq<Equation>, PyError>

  /** An `Interpolation` or an `Injection`, reduced to the callback that expands it. */
  datatype DeferredOp =
    | Interpolation(callback: () -> Equations)
    | Injection(callback: () -> Equations)

  /**
   * `_evaluate`: the operation's equations are whatever its callback returns. The
   * source asserts that every element is an `Eq` (an `Inc` is a kind of `Eq`); the
   * type of the callback guarantees it, so that assertion has no counterpart here.
   */
  function Evaluate(op: DeferredOp): Equations
  {
    op.callback()
  }

  // ---------------------------------------------------------------- flatten

  /** Anything that may end up in the flat list: an operation, an equation or an expression. */
  datatype Element = OpElem(op: DeferredOp) | EqElem(eqn: Equation) | TermElem(term: Term)

  /** An operand of `+`: a single element or a (possibly nested) list of them. */
  datatype Item = Leaf(elem: Element) | Nested(items: seq<Item>)

  /** `devito.tools.flatten`: the leaves of `items` from left to right, all nesting removed. */
  function Flatten(items: seq<Item>): seq<Element>
    decreases items
  {
    if |items| == 0 then []
    else
      var head := match items[0]
        case Leaf(e) => [e]
        case Nested(xs) => Flatten(xs);
      head + Flatten(items[1..])
  }

  /** The leaves an item contributes: itself, or the flattened items of a nested list. */
  function Leaves(x: Item): seq<Element> {
    match x
    case Leaf(e) => [e]
    case Nested(xs) => Flatten(xs)
  }

  lemma FlattenSingleton(x: Item)
    ensures Flatten([x]) == Leaves(x)
  {
    assert [x][1..] == [];
    assert Leaves(x) + [] == Leaves(x);
  }

  /** `op + other`: the operation, followed by the leaves of `other`. */
  function Add(op: DeferredOp, other: Item): (r: seq<Element>)
    ensures r == [OpElem(op)] + Leaves(other)
  {
    assert [Leaf(OpElem(op)), other][1..] == [other];
    FlattenSingleton(other);
    Flatten([Leaf(OpElem(op)), other])
  }

  /** `other + op` when `other` does not know how to add an operation: the leaves of `other`, then the operation. */
  function RAdd(op: DeferredOp, other: Item): (r: seq<Element>)
    ensures r == Leaves(other) + [OpElem(op)]
  {
    assert [other, Leaf(OpElem(op))] == [other] + [Leaf(OpElem(op))];
    FlattenConcat([other], [Leaf(OpElem(op))]);
    FlattenSingleton(other);
    FlattenSingleton(Leaf(OpElem(op)));
    Flatten([other, Leaf(OpElem(op))])
  }

  lemma {:induction false} FlattenConcat(a: seq<Item>, b: seq<Item>)
    ensures Flatten(a + b) == Flatten(a) + Flatten(b)
  {
    if |a| == 0 {
      assert a + b == b;
    } else {
      assert (a + b)[0] == a[0];
      assert (a + b)[1..] == a[1..] + b;
      FlattenConcat(a[1..], b);
    }
  }

  /** A flat list of leaves flattens to its own elements. */
  lemma {:induction false} FlattenLeaves(es: seq<Element>)
    ensures Flatten(LeafList(es)) == es
  {
    if |es| > 0 {
      FlattenLeaves(es[1..]);
      assert LeafList(es)[1..] == LeafList(es[1..]);
    }
  }

  /** Nesting a list once more does not change its flattening. */
  lemma FlattenNested(items: seq<Item>)
    ensures Flatten([Nested(items)]) == Flatten(items)
  {
  }

  /** Flattening is idempotent: the flattened list, taken as a list of leaves, flattens to itself. */
  lemma FlattenIdempotent(items: seq<Item>)
    ensures Flatten(LeafList(Flatten(items))) == Flatten(items)
  {
    FlattenLeaves(Flatten(items));
  }

  /**
   * Adding is order-preserving and associative on operations: `(a + b) + c` (the list
   * `a + b` defers to `c`'s reflected add) and `a + (b + c)` are the same list `[a, b, c]`.
   */
  lemma AddAssociative(a: DeferredOp, b: DeferredOp, c: DeferredOp)
    ensures RAdd(c, Nested(LeafList(Add(a, Leaf(OpElem(b)))))) == [OpElem(a), OpElem(b), OpElem(c)]
    ensures Add(a, Nested(LeafList(Add(b, Leaf(OpElem(c)))))) == [OpElem(a), OpElem(b), OpElem(c)]
  {
    var ab, bc := [OpElem(a), OpElem(b)], [OpElem(b), OpElem(c)];
    FlattenLeaves(ab);
    FlattenLeaves(bc);
    assert Add(a, Leaf(OpElem(b))) == ab;
    assert Add(b, Leaf(OpElem(c))) == bc;
  }

  /** A flat Python list of elements, as an operand of `+`. */
  function LeafList(es: seq<Element>): seq<Item> {
    seq(|es|, i requires 0 <= i < |es| => Leaf(es[i]))
  }
}
