/** The local backward rules, the `_backward` closure each operator binds to
    the node it creates.

    `Local(g, m, k)` is the derivative of node m's forward value with respect
    to node k's, as the rule of m states it (summed over both operand slots
    when k fills both). `Rule` is what the closure does to the gradients,
    and `Fire` is the closure itself, updating a gradient array in place. */
module Rules {
  import opened Values

  /** The local derivative d(m.data)/d(k.data) given by the rule of node m;
      zero when k is not an operand of m. */
  function Local(g: Graph, m: nat, k: nat): real
    requires WellFormed(g) && m < |g|
  {
    match g[m].op
    case Leaf => 0.0
    case Sum(a, b) => (if a == k then 1.0 else 0.0) + (if b == k then 1.0 else 0.0)
    case Product(a, b) => (if a == k then g[b].data else 0.0) + (if b == k then g[a].data else 0.0)
    case Power(a, n) =>
      if a == k && PowerDefined(g[a].data, n - 1) then (n as real) * RealPow(g[a].data, n - 1) else 0.0
    case Tanh(a) => if a == k then 1.0 - g[m].data * g[m].data else 0.0
  }

  lemma LocalOfNonOperand(g: Graph, m: nat, k: nat)
    requires WellFormed(g) && m < |g| && k !in Prev(g[m].op)
    ensures Local(g, m, k) == 0.0
  {
  }

  /** The rule of node m raises: the power rule evaluates
      `self.data ** (power - 1)`, which fails for a zero base when
      `power - 1` is negative. */
  predicate Raises(g: Graph, m: nat)
    requires WellFormed(g) && m < |g|
  {
    match g[m].op
    case Power(a, n) => !PowerDefined(g[a].data, n - 1)
    case _ => false
  }

  /** The effect of node m's `_backward` on the gradients, or the error it
      raises. */
  function Rule(g: Graph, grad: seq<real>, m: nat): (r: Result<seq<real>>)
    requires WellFormed(g) && m < |g| == |grad|
    ensures r.Ok? <==> !Raises(g, m)
    ensures r.Err? ==> r.error == ZeroDivision
    ensures r.Ok? ==> |r.value| == |grad|
  {
    assert OperandsBelow(g[m].op, m);
    match g[m].op
    case Leaf => Ok(grad)
    case Sum(a, b) =>
      var g1 := grad[a := grad[a] + grad[m]];
      Ok(g1[b := g1[b] + g1[m]])
    case Product(a, b) =>
      var g1 := grad[a := grad[a] + g[b].data * grad[m]];
      Ok(g1[b := g1[b] + g[a].data * g1[m]])
    case Power(a, n) =>
      if !PowerDefined(g[a].data, n - 1) then Err(ZeroDivision)
      else Ok(grad[a := grad[a] + (n as real) * RealPow(g[a].data, n - 1) * grad[m]])
    case Tanh(a) => Ok(grad[a := (1.0 - g[m].data * g[m].data) * grad[m]])
  }

  /** Every rule except tanh adds `Local(g, m, k) * grad[m]` to the gradient
      of each node k (so a node that fills both operand slots gains twice);
      the tanh rule ASSIGNS that amount to its operand's gradient, dropping
      whatever the operand had gathered before. */
  lemma RuleUpdate(g: Graph, grad: seq<real>, m: nat, k: nat)
    requires WellFormed(g) && m < |g| == |grad| && k < |g| && !Raises(g, m)
    ensures !g[m].op.Tanh? ==> Rule(g, grad, m).value[k] == grad[k] + Local(g, m, k) * grad[m]
    ensures g[m].op.Tanh? ==>
      Rule(g, grad, m).value[k] == if k == g[m].op.arg then Local(g, m, k) * grad[m] else grad[k]
  {
    if g[m].op.Product? {
      ProductUpdate(g, grad, m, k);
    }
  }

  lemma ProductUpdate(g: Graph, grad: seq<real>, m: nat, k: nat)
    requires WellFormed(g) && m < |g| == |grad| && k < |g| && g[m].op.Product?
    ensures Rule(g, grad, m).value[k] == grad[k] + Local(g, m, k) * grad[m]
  {
  }

  /** Runs node m's `_backward` on the gradient array. On a
      ZeroDivisionError nothing has been written. */
  method Fire(g: Graph, grad: array<real>, m: nat) returns (ok: bool)
    requires WellFormed(g) && m < |g| == grad.Length
    modifies grad
    ensures ok == !Raises(g, m)
    ensures grad[..] == if ok then Rule(g, old(grad[..]), m).value else old(grad[..])
  {
    ok := !Raises(g, m);
    match g[m].op {
      case Leaf =>
      case Sum(_, _) => FireSum(g, grad, m);
      case Product(_, _) => FireProduct(g, grad, m);
      case Power(_, _) =>
        if ok {
          FirePower(g, grad, m);
        }
      case Tanh(_) => FireTanh(g, grad, m);
    }
  }

  /** The closure bound by `__add__`. */
  method FireSum(g: Graph, grad: array<real>, m: nat)
    requires WellFormed(g) && m < |g| == grad.Length && g[m].op.Sum?
    modifies grad
    ensures grad[..] == Rule(g, old(grad[..]), m).value
  {
    assert OperandsBelow(g[m].op, m);
    var a, b := g[m].op.lhs, g[m].op.rhs;
    var out := grad[m];
    grad[a] := grad[a] + out;
    grad[b] := grad[b] + out;
  }

  /** The closure bound by `__mul__`. */
  method FireProduct(g: Graph, grad: array<real>, m: nat)
    requires WellFormed(g) && m < |g| == grad.Length && g[m].op.Product?
    modifies grad
    ensures grad[..] == Rule(g, old(grad[..]), m).value
  {
    assert OperandsBelow(g[m].op, m);
    var a, b := g[m].op.lhs, g[m].op.rhs;
    ghost var before := grad[..];
    var out := grad[m];
    var da := g[b].data * out;
    grad[a] := grad[a] + da;
    var db := g[a].data * out;
    grad[b] := grad[b] + db;
    ghost var r := Rule(g, before, m).value;
    assert forall i :: 0 <= i < grad.Length ==> grad[..][i] == r[i];
  }

  /** The closure bound by `__pow__`, when it does not raise. */
  method FirePower(g: Graph, grad: array<real>, m: nat)
    requires WellFormed(g) && m < |g| == grad.Length && g[m].op.Power? && !Raises(g, m)
    modifies grad
    ensures grad[..] == Rule(g, old(grad[..]), m).value
  {
    assert OperandsBelow(g[m].op, m);
    var a, n := g[m].op.base, g[m].op.exponent;
    ghost var before := grad[..];
    var out := grad[m];
    var da := (n as real) * RealPow(g[a].data, n - 1) * out;
    grad[a] := grad[a] + da;
    ghost var r := Rule(g, before, m).value;
    assert forall i :: 0 <= i < grad.Length ==> grad[..][i] == r[i];
  }

  /** The closure bound by `tanh`: it assigns rather than adds. */
  method FireTanh(g: Graph, grad: array<real>, m: nat)
    requires WellFormed(g) && m < |g| == grad.Length && g[m].op.Tanh?
    modifies grad
    ensures grad[..] == Rule(g, old(grad[..]), m).value
  {
    assert OperandsBelow(g[m].op, m);
    var a := g[m].op.arg;
    ghost var before := grad[..];
    var out := grad[m];
    grad[a] := (1.0 - g[m].data * g[m].data) * out;
    ghost var r := Rule(g, before, m).value;
    assert forall i :: 0 <= i < grad.Length ==> grad[..][i] == r[i];
  }
}
