/** The reverse walk of `backward` on gradient values: the specification
    the in-place loop of `Backprop.Backward` is proved against. */
module Walk {
  import opened Values
  import opened Rules

  /** The gradients after a walk, and whether it ran to the end or was
      stopped by a ZeroDivisionError from a power rule. */
  datatype Outcome = Completed(grad: seq<real>) | Raised(grad: seq<real>)

  ghost predicate InArena(g: Graph, order: seq<nat>) {
    forall p :: 0 <= p < |order| ==> order[p] < |g|
  }

  /** `for node in reversed(order): node._backward()`, on gradient values:
      the last listed node's rule runs first. A rule that raises ends the
      walk with the gradients as they stood. */
  function Sweep(g: Graph, grad: seq<real>, order: seq<nat>): (r: Outcome)
    requires WellFormed(g) && |grad| == |g| && InArena(g, order)
    ensures |r.grad| == |g|
    decreases |order|
  {
    if order == [] then Completed(grad)
    else
      match Rule(g, grad, order[|order| - 1])
      case Err(_) => Raised(grad)
      case Ok(next) => Sweep(g, next, order[..|order| - 1])
  }

  /** A walk completes exactly when no listed node's rule raises; which
      rules raise depends on the nodes' data alone. */
  lemma {:induction false} SweepCompletes(g: Graph, grad: seq<real>, order: seq<nat>)
    requires WellFormed(g) && |grad| == |g| && InArena(g, order)
    ensures Sweep(g, grad, order).Completed? <==> forall p :: 0 <= p < |order| ==> !Raises(g, order[p])
    decreases |order|
  {
    if order != [] {
      var m := order[|order| - 1];
      var front := order[..|order| - 1];
      match Rule(g, grad, m)
      case Err(_) =>
      case Ok(next) =>
        SweepCompletes(g, next, front);
        assert forall p :: 0 <= p < |front| ==> front[p] == order[p];
    }
  }

  /** A rule writes only its own operands' gradients, so a node that is no
      listed node's operand keeps its gradient, whether the walk completes
      or raises. */
  lemma {:induction false} SweepUntouched(g: Graph, grad: seq<real>, order: seq<nat>, k: nat)
    requires WellFormed(g) && |grad| == |g| && InArena(g, order) && k < |g|
    requires forall p :: 0 <= p < |order| ==> k !in Prev(g[order[p]].op)
    ensures Sweep(g, grad, order).grad[k] == grad[k]
    decreases |order|
  {
    if order != [] {
      var m := order[|order| - 1];
      match Rule(g, grad, m)
      case Err(_) =>
      case Ok(next) =>
        RuleUpdate(g, grad, m, k);
        LocalOfNonOperand(g, m, k);
        SweepUntouched(g, next, order[..|order| - 1], k);
    }
  }

}
