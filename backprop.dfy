/** `Value.backward`: seed the output's gradient with 1.0, order its
    ancestry with `topo`, then run every listed node's `_backward` in
    reverse order.

    The arena is a value here, so a backward pass cannot change any node's
    `data` or operands; it may write only the gradient array it is given. */
module Backprop {
  import opened Values
  import opened Rules
  import opened Topo
  import opened Walk
  import opened ChainRule

  /** The walk over o's ancestry writes neither o's gradient nor the
      gradient of a node outside the ancestry: no listed node uses them. */
  lemma OutsideUntouched(g: Graph, o: nat, order: seq<nat>, seed: seq<real>, k: nat)
    requires WellFormed(g) && o < |g| == |seed| && IsTopoOrder(g, o, order)
    requires k < |g| && (k == o || !Reaches(g, o, k))
    ensures Sweep(g, seed, order).grad[k] == seed[k]
  {
    forall p | 0 <= p < |order| ensures k !in Prev(g[order[p]].op) {
      assert order[p] in order;
      PrevBelow(g, order[p]);
      ReachesBelow(g, o, order[p]);
    }
    SweepUntouched(g, seed, order, k);
  }

  /** The `self.grad = 0.0` of `__init__`, for an arena of n fresh nodes. */
  method NewGradients(n: nat) returns (grad: array<real>)
    ensures fresh(grad) && grad.Length == n
    ensures forall k :: 0 <= k < n ==> grad[k] == 0.0
  {
    grad := new real[n](_ => 0.0);
  }

  /** `backward()` called on node o. Returns false when a rule raised a
      ZeroDivisionError, with the gradients written up to that point. */
  method Backward(g: Graph, grad: array<real>, o: nat) returns (ok: bool, ghost order: seq<nat>)
    requires WellFormed(g) && o < |g| == grad.Length
    modifies grad
    ensures order == PostOrder(g, o, []) && IsTopoOrder(g, o, order)
    ensures var r := Sweep(g, old(grad[..])[o := 1.0], order); ok == r.Completed? && grad[..] == r.grad
    ensures ok <==> forall k :: 0 <= k < |g| && Reaches(g, o, k) ==> !Raises(g, k)
    ensures grad[o] == 1.0
    ensures forall k :: 0 <= k < |g| && !Reaches(g, o, k) ==> grad[k] == old(grad[k])
    ensures ok && TanhOperandsUnshared(g, o) && TanhOperandsClear(g, o, old(grad[..])[o := 1.0]) ==>
      forall k :: 0 <= k < |g| ==>
        grad[k] == old(grad[..])[o := 1.0][k] + Inflow(Slopes(g, k), Ancestry(g, o), grad[..], 0)
    ensures ok && TanhOperandsUnshared(g, o) && (forall k :: 0 <= k < |g| ==> old(grad[k]) == 0.0) ==>
      forall k :: 0 <= k < |g| ==> grad[k] == Adjoint(g, o, k)
  {
    grad[o] := 1.0;
    var nodes := TopoSort(g, o);
    order := nodes;
    ghost var seeded := grad[..];
    assert seeded == old(grad[..])[o := 1.0];
    ok := RunRules(g, grad, nodes);
    SweepCompletes(g, seeded, nodes);
    forall k | 0 <= k < |g| && (k == o || !Reaches(g, o, k)) ensures grad[k] == seeded[k] {
      OutsideUntouched(g, o, nodes, seeded, k);
    }
    if ok && TanhOperandsUnshared(g, o) {
      if TanhOperandsClear(g, o, seeded) {
        WalkAccumulates(g, o, nodes, seeded);
      }
      if forall k :: 0 <= k < |g| ==> old(grad[k]) == 0.0 {
        WalkComputesAdjoint(g, o, nodes, old(grad[..]));
      }
    }
  }

  /** `for node in reversed(topo): node._backward()`, in place: stops at
      the first rule that raises. */
  method RunRules(g: Graph, grad: array<real>, nodes: seq<nat>) returns (ok: bool)
    requires WellFormed(g) && |g| == grad.Length && InArena(g, nodes)
    modifies grad
    ensures var r := Sweep(g, old(grad[..]), nodes); ok == r.Completed? && grad[..] == r.grad
  {
    ghost var start := grad[..];
    var i := |nodes|;
    ok := true;
    assert nodes[..i] == nodes;
    while i > 0 && ok
      invariant 0 <= i <= |nodes|
      invariant ok ==> Sweep(g, start, nodes) == Sweep(g, grad[..], nodes[..i])
      invariant !ok ==> Sweep(g, start, nodes) == Raised(grad[..])
    {
      assert nodes[..i][..i - 1] == nodes[..i - 1];
      i := i - 1;
      ok := Fire(g, grad, nodes[i]);
    }
  }
}
