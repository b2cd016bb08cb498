/** The node arena of the scalar autodiff engine.

    Every `Value` object of the engine becomes one entry of a `Graph`, a
    sequence indexed by creation order. A node keeps its forward `data` and
    an `Op` that names both its operands (the `_prev` tuple, as arena
    indices) and the local backward rule bound to it when it was created.
    Gradients are not part of a node here: a backward pass keeps them in an
    array indexed the same way (see module Backprop), so a pass cannot touch
    `data` or the operands. */
module Values {

  /** The operation that produced a node, with its operands. */
  datatype Op =
    | Leaf                           // a wrapped number: no operands, backward does nothing
    | Sum(lhs: nat, rhs: nat)        // self + other
    | Product(lhs: nat, rhs: nat)    // self * other
    | Power(base: nat, exponent: int) // self ** exponent, exponent a plain number
    | Tanh(arg: nat)                 // tanh(self)

  datatype Value = Value(data: real, op: Op)

  type Graph = seq<Value>

  /** The operand tuple `_prev`, in order (empty for a leaf). */
  function Prev(op: Op): (r: seq<nat>)
    ensures |r| <= 2
  {
    match op
    case Leaf => []
    case Sum(a, b) => [a, b]
    case Product(a, b) => [a, b]
    case Power(a, _) => [a]
    case Tanh(a) => [a]
  }

  /** Every operand of op is an index below m. */
  predicate OperandsBelow(op: Op, m: nat) {
    match op
    case Leaf => true
    case Sum(a, b) => a < m && b < m
    case Product(a, b) => a < m && b < m
    case Power(a, _) => a < m
    case Tanh(a) => a < m
  }

  lemma PrevBelow(g: Graph, m: nat)
    requires WellFormed(g) && m < |g|
    ensures forall c :: c in Prev(g[m].op) ==> c < m
  {
    assert OperandsBelow(g[m].op, m);
  }

  /** Every operand was created before the node that uses it, so the arena
      is acyclic. */
  predicate WellFormed(g: Graph) {
    forall m :: 0 <= m < |g| ==> OperandsBelow(g[m].op, m)
  }

  /** The errors the engine raises. */
  datatype Error =
    | AssertionFailure   // `**` applied to something that is not a number
    | ZeroDivision       // zero raised to a negative power

  datatype Result<T> = Ok(value: T) | Err(error: Error)

  /** x ** n for a natural exponent. */
  function NatPower(x: real, n: nat): real
    decreases n
  {
    if n == 0 then 1.0 else x * NatPower(x, n - 1)
  }

  lemma {:induction false} NatPowerNonZero(x: real, n: nat)
    requires x != 0.0
    ensures NatPower(x, n) != 0.0
    decreases n
  {
    if n > 0 {
      NatPowerNonZero(x, n - 1);
    }
  }

  /** Whether x ** n is a number rather than a ZeroDivisionError. */
  predicate PowerDefined(x: real, n: int) {
    n >= 0 || x != 0.0
  }

  /** x ** n for an integer exponent. */
  function RealPow(x: real, n: int): (r: real)
    requires PowerDefined(x, n)
    ensures n < 0 ==> r * NatPower(x, -n) == 1.0
  {
    if n >= 0 then NatPower(x, n)
    else
      NatPowerNonZero(x, -n);
      1.0 / NatPower(x, -n)
  }
}
