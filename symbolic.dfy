/**
 * The symbolic layer the interpolation engine builds on, reduced to what the engine
 * needs: expression terms, relational conditions, the assignment (`Eq`) and
 * increment (`Inc`) equations, and the two substitutions it applies (`xreplace`,
 * which swaps whole sub-terms, and `subs` of dimensions by index expressions).
 * Terms are not simplified: `x - 0` stays `x - 0`.
 */
module Symbolic {
  import opened Reals

  datatype Term =
    | Int(ivalue: int)                          // an integer literal
    | Num(rvalue: real)                         // a floating-point literal, as an exact real
    | Sym(name: string)                         // a scalar symbol
    | Dim(name: string)                         // a dimension, used as an index
    | CondDim(name: string, parent: string, condition: Cond, indirect: bool)
                                                // a ConditionalDimension of `parent`, active where `condition` holds
    | Access(fn: string, indices: seq<Term>)    // a function (field) at the given indices
    | Add(left: Term, right: Term)
    | Sub(left: Term, right: Term)
    | Mul(left: Term, right: Term)
    | Div(left: Term, right: Term)
    | Floor(arg: Term)                          // `INT(floor(arg))`

  /** A relational condition; `And` is kept unevaluated, as `sympy.And(..., evaluate=False)`. */
  datatype Cond =
    | Ge(lhs: Term, rhs: Term)
    | Le(lhs: Term, rhs: Term)
    | And(args: seq<Cond>)

  /** An assignment `Eq(lhs, rhs)` or an increment `Inc(lhs, rhs)`, with its implicit dimensions. */
  datatype Equation =
    | Eq(lhs: Term, rhs: Term, implicitDims: seq<string>)
    | Inc(lhs: Term, rhs: Term, implicitDims: seq<string>)

  /** `t.xreplace(m)`: every sub-term that is a key of `m` is replaced, outermost first. */
  function Xreplace(t: Term, m: map<Term, Term>): Term
    decreases t
  {
    if t in m then m[t]
    else match t
      case Access(f, ix) => Access(f, seq(|ix|, i requires 0 <= i < |ix| => Xreplace(ix[i], m)))
      case Add(a, b) => Add(Xreplace(a, m), Xreplace(b, m))
      case Sub(a, b) => Sub(Xreplace(a, m), Xreplace(b, m))
      case Mul(a, b) => Mul(Xreplace(a, m), Xreplace(b, m))
      case Div(a, b) => Div(Xreplace(a, m), Xreplace(b, m))
      case Floor(a) => Floor(Xreplace(a, m))
      case _ => t
  }

  /** `t.subs({d: e, ...})` for dimensions `d`: every dimension named in `m` is replaced, simultaneously. */
  function SubsDims(t: Term, m: map<string, Term>): Term
    decreases t
  {
    match t
    case Dim(n) => if n in m then m[n] else t
    case Access(f, ix) => Access(f, seq(|ix|, i requires 0 <= i < |ix| => SubsDims(ix[i], m)))
    case Add(a, b) => Add(SubsDims(a, m), SubsDims(b, m))
    case Sub(a, b) => Sub(SubsDims(a, m), SubsDims(b, m))
    case Mul(a, b) => Mul(SubsDims(a, m), SubsDims(b, m))
    case Div(a, b) => Div(SubsDims(a, m), SubsDims(b, m))
    case Floor(a) => Floor(SubsDims(a, m))
    case _ => t
  }

  /** `devito.tools.prod(ts)`, that is `reduce(mul, ts, 1)`: a left-nested product starting from 1. */
  function ProdTerm(ts: seq<Term>): Term {
    if |ts| == 0 then Int(1) else Mul(ProdTerm(ts[..|ts| - 1]), ts[|ts| - 1])
  }

  // ------------------------------------------------------------ evaluation

  /**
   * The value of a term once every symbol, dimension and function access has the
   * value `env` gives it. Division by zero yields 0 (the lemmas that divide
   * require a non-zero divisor).
   */
  function Eval(t: Term, env: Term -> real): real {
    match t
    case Int(i) => i as real
    case Num(x) => x
    case Sym(_) => env(t)
    case Dim(_) => env(t)
    case CondDim(_, _, _, _) => env(t)
    case Access(_, _) => env(t)
    case Add(a, b) => Eval(a, env) + Eval(b, env)
    case Sub(a, b) => Eval(a, env) - Eval(b, env)
    case Mul(a, b) => Eval(a, env) * Eval(b, env)
    case Div(a, b) => Quotient(Eval(a, env), Eval(b, env))
    case Floor(a) => Eval(a, env).Floor as real
  }

  /** `x / y`, taken to be 0 when `y` is 0. */
  function Quotient(x: real, y: real): real {
    if y == 0.0 then 0.0 else x / y
  }

  predicate Holds(c: Cond, env: Term -> real) {
    match c
    case Ge(a, b) => Eval(a, env) >= Eval(b, env)
    case Le(a, b) => Eval(a, env) <= Eval(b, env)
    case And(cs) => forall i :: 0 <= i < |cs| ==> Holds(cs[i], env)
  }

  /** `env` gives the left-hand side of an assignment the value of its right-hand side. */
  predicate Satisfies(env: Term -> real, e: Equation) {
    e.Eq? && env(e.lhs) == Eval(e.rhs, env)
  }

  /** The values of the terms `ts`, in order. */
  function Values(ts: seq<Term>, env: Term -> real): (vs: seq<real>)
    ensures |vs| == |ts|
  {
    if |ts| == 0 then [] else Values(ts[..|ts| - 1], env) + [Eval(ts[|ts| - 1], env)]
  }

  /** A symbolic product evaluates to the product of the values of its factors. */
  lemma {:induction false} EvalProdTerm(ts: seq<Term>, env: Term -> real)
    ensures Eval(ProdTerm(ts), env) == RealProduct(Values(ts, env))
  {
    if |ts| > 0 {
      var init, vs := ts[..|ts| - 1], Values(ts, env);
      EvalProdTerm(init, env);
      SnocInit(Values(init, env), Eval(ts[|ts| - 1], env));
      EvalProdTermLast(ts, env);
      RealProductLast(vs);
      SameProduct(Eval(ProdTerm(ts), env), RealProduct(vs), Eval(ProdTerm(init), env), RealProduct(vs[..|vs| - 1]),
                  Eval(ts[|ts| - 1], env), vs[|vs| - 1]);
    }
  }

  lemma SnocInit<T>(xs: seq<T>, x: T)
    ensures (xs + [x])[..|xs|] == xs && (xs + [x])[|xs|] == x
  {
  }

  lemma EvalProdTermLast(ts: seq<Term>, env: Term -> real)
    requires |ts| > 0
    ensures IsProduct(Eval(ProdTerm(ts), env), Eval(ProdTerm(ts[..|ts| - 1]), env), Eval(ts[|ts| - 1], env))
  {
    assert ProdTerm(ts) == Mul(ProdTerm(ts[..|ts| - 1]), ts[|ts| - 1]);
  }
}
