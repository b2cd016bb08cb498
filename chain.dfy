/** What the reverse walk computes, against the chain rule.

    `Adjoint(g, o, k)` is the derivative of node o's value with respect to
    node k's value, taking every node as a variable of its own: 1 for o
    itself, plus, over every node c created after k, the local derivative
    of c with respect to k times c's own adjoint. A node that does not feed
    into o has adjoint 0.

    The walk reaches it by accumulation: when a node's rule fires, every
    node that uses it has already fired, so its gradient is complete. The
    one rule that does not accumulate is tanh's, which assigns; the
    theorems below therefore ask that each tanh node reachable from the
    output be the only reachable user of its operand, and
    `TanhOverwriteLosesGradient` (module Scenarios) shows a graph where
    the assignment loses a contribution. */
module ChainRule {
  import opened Values
  import opened Rules
  import opened Topo
  import opened Walk

  /** The nodes that feed into o (o included). */
  ghost function Ancestry(g: Graph, o: nat): set<nat>
    requires WellFormed(g) && o < |g|
  {
    set k | 0 <= k < |g| && Reaches(g, o, k)
  }

  /** Local(g, c, k) for every node c: what each node's rule passes on to
      node k per unit of its own gradient (a column of the local Jacobian). */
  function Slopes(g: Graph, k: nat): (r: seq<real>)
    requires WellFormed(g)
    ensures |r| == |g| && forall c :: 0 <= c < |g| ==> r[c] == Local(g, c, k)
  {
    seq(|g|, c requires 0 <= c < |g| => Local(g, c, k))
  }

  /** The sum, over the nodes c in `done` with from <= c < |col|, of
      col[c] * w[c]: with col = Slopes(g, k), what the rules of those nodes
      pass on to node k when the nodes hold gradients w. */
  function Inflow(col: seq<real>, done: set<nat>, w: seq<real>, from: nat): real
    requires |col| == |w|
    decreases |col| - from
  {
    if from >= |col| then 0.0
    else (if from in done then col[from] * w[from] else 0.0) + Inflow(col, done, w, from + 1)
  }

  /** Adding m to the summed nodes adds its term, when no summed gradient
      (m's included) differs between w and w'. */
  lemma {:induction false} InflowGrows(col: seq<real>, D: set<nat>, w: seq<real>, w': seq<real>, m: nat, from: nat)
    requires |col| == |w| == |w'| && m < |col| && m !in D
    requires forall c :: c in D + {m} && c < |col| ==> w'[c] == w[c]
    ensures Inflow(col, D + {m}, w', from) == Inflow(col, D, w, from) + (if from <= m then col[m] * w[m] else 0.0)
    decreases |col| - from
  {
    if from < |col| {
      InflowGrows(col, D, w, w', m, from + 1);
      if from in D + {m} {
        assert w'[from] == w[from];
      }
    }
  }

  /** Nodes with a zero entry pass nothing on. */
  lemma {:induction false} InflowVanishes(col: seq<real>, done: set<nat>, w: seq<real>, from: nat)
    requires |col| == |w|
    requires forall c :: c in done && from <= c < |col| ==> col[c] == 0.0
    ensures Inflow(col, done, w, from) == 0.0
    decreases |col| - from
  {
    if from < |col| {
      InflowVanishes(col, done, w, from + 1);
    }
  }

  /** Entries that are zero up to k can be skipped. */
  lemma {:induction false} InflowSkips(col: seq<real>, done: set<nat>, w: seq<real>, k: nat, from: nat)
    requires |col| == |w| && from <= k + 1
    requires forall c :: from <= c <= k && c < |col| ==> col[c] == 0.0
    ensures Inflow(col, done, w, from) == Inflow(col, done, w, k + 1)
    decreases k + 1 - from
  {
    if from < k + 1 && from < |col| {
      InflowSkips(col, done, w, k, from + 1);
    }
  }

  /** Only nodes created after k use it. */
  lemma SlopesBelow(g: Graph, k: nat)
    requires WellFormed(g)
    ensures forall c :: 0 <= c <= k && c < |g| ==> Slopes(g, k)[c] == 0.0
  {
  }

  /** The chain rule: d(o)/d(k) with every node taken as a variable. */
  function Adjoint(g: Graph, o: nat, k: nat): real
    requires WellFormed(g) && o < |g| && k < |g|
    decreases |g| - k, 1, 0
  {
    (if k == o then 1.0 else 0.0) + AdjointSum(g, o, k, k + 1)
  }

  /** The sum, over the nodes c with from <= c < |g|, of
      Local(g, c, k) * Adjoint(g, o, c). */
  function AdjointSum(g: Graph, o: nat, k: nat, from: nat): real
    requires WellFormed(g) && o < |g| && k < from
    decreases |g| - k, 0, |g| - from
  {
    if from >= |g| then 0.0
    else Local(g, from, k) * Adjoint(g, o, from) + AdjointSum(g, o, k, from + 1)
  }

  /** A node that does not feed into o has derivative 0. */
  lemma {:induction false} AdjointOutside(g: Graph, o: nat, k: nat)
    requires WellFormed(g) && o < |g| && k < |g| && !Reaches(g, o, k)
    ensures Adjoint(g, o, k) == 0.0
    decreases |g| - k, 1, 0
  {
    AdjointSumOutside(g, o, k, k + 1);
  }

  lemma {:induction false} AdjointSumOutside(g: Graph, o: nat, k: nat, from: nat)
    requires WellFormed(g) && o < |g| && k < |g| && k < from && !Reaches(g, o, k)
    ensures AdjointSum(g, o, k, from) == 0.0
    decreases |g| - k, 0, |g| - from
  {
    if from < |g| {
      forall q | 0 <= q < |Prev(g[from].op)| && Reaches(g, o, from)
        ensures Reaches(g, o, Prev(g[from].op)[q])
      {
        ReachesOperand(g, o, from, q);
      }
      if k in Prev(g[from].op) {
        AdjointOutside(g, o, from);
      } else {
        LocalOfNonOperand(g, from, k);
      }
      AdjointSumOutside(g, o, k, from + 1);
    }
  }

  /** Gradients F that satisfy the accumulation equation over the ancestry
      of o, seeded with 1 at o and 0 elsewhere. */
  ghost predicate SolvesChainRule(g: Graph, o: nat, F: seq<real>)
    requires WellFormed(g) && o < |g| && |F| == |g|
  {
    forall j {:trigger Inflow(Slopes(g, j), Ancestry(g, o), F, 0)} :: 0 <= j < |g| ==>
      F[j] == (if j == o then 1.0 else 0.0) + Inflow(Slopes(g, j), Ancestry(g, o), F, 0)
  }

  /** The accumulation equation has one solution: the adjoints. */
  lemma {:induction false} SolutionIsAdjoint(g: Graph, o: nat, F: seq<real>, k: nat)
    requires WellFormed(g) && o < |g| && |F| == |g| && k < |g| && SolvesChainRule(g, o, F)
    ensures F[k] == Adjoint(g, o, k)
    decreases |g| - k, 1, 0
  {
    SlopesBelow(g, k);
    InflowSkips(Slopes(g, k), Ancestry(g, o), F, k, 0);
    InflowIsAdjointSum(g, o, F, k, k + 1);
  }

  lemma {:induction false} InflowIsAdjointSum(g: Graph, o: nat, F: seq<real>, k: nat, from: nat)
    requires WellFormed(g) && o < |g| && |F| == |g| && k < from && SolvesChainRule(g, o, F)
    ensures Inflow(Slopes(g, k), Ancestry(g, o), F, from) == AdjointSum(g, o, k, from)
    decreases |g| - k, 0, |g| - from
  {
    if from < |g| {
      if from in Ancestry(g, o) {
        SolutionIsAdjoint(g, o, F, from);
      } else {
        AdjointOutside(g, o, from);
      }
      InflowIsAdjointSum(g, o, F, k, from + 1);
    }
  }

  /** Every tanh node that feeds into o is the only node feeding into o
      that uses its operand, so its assigning rule finds the operand's
      gradient still as the walk started it. */
  ghost predicate TanhOperandsUnshared(g: Graph, o: nat)
    requires WellFormed(g) && o < |g|
  {
    forall t, c ::
      0 <= t < |g| && 0 <= c < |g| && t != c && Reaches(g, o, t) && Reaches(g, o, c) && g[t].op.Tanh?
      ==> g[t].op.arg !in Prev(g[c].op)
  }

  /** The operand of every tanh node that feeds into o starts at 0. */
  ghost predicate TanhOperandsClear(g: Graph, o: nat, seed: seq<real>)
    requires WellFormed(g) && o < |g| && |seed| == |g|
  {
    forall t :: 0 <= t < |g| && Reaches(g, o, t) && g[t].op.Tanh? ==>
      g[t].op.arg < |g| && seed[g[t].op.arg] == 0.0
  }

  /** The nodes listed at positions n and after. */
  ghost function Done(order: seq<nat>, n: nat): set<nat> {
    set p | n <= p < |order| :: order[p]
  }

  /** The rule of order[n - 1] fires next; the nodes after it have fired,
      and every gradient is its seed plus what they passed on to it. */
  ghost predicate Accumulated(g: Graph, order: seq<nat>, seed: seq<real>, n: nat, w: seq<real>)
    requires WellFormed(g) && |seed| == |g| == |w|
  {
    forall k {:trigger Inflow(Slopes(g, k), Done(order, n), w, 0)} :: 0 <= k < |g| ==>
      w[k] == seed[k] + Inflow(Slopes(g, k), Done(order, n), w, 0)
  }

  /** The nodes after position n - 1 of a topological order are not
      operands of order[n - 1]. */
  lemma FiredAreNotOperands(g: Graph, o: nat, order: seq<nat>, n: nat, c: nat)
    requires WellFormed(g) && o < |g| && IsTopoOrder(g, o, order)
    requires 0 < n <= |order| && c in Done(order, n)
    ensures c != order[n - 1] && c !in Prev(g[order[n - 1]].op)
  {
  }

  /** When a reachable tanh node fires, its operand's gradient is still the
      seed 0: no node that fired before it uses that operand. */
  lemma TanhOperandUntouched(g: Graph, o: nat, order: seq<nat>, seed: seq<real>, n: nat, w: seq<real>)
    requires WellFormed(g) && o < |g| && IsTopoOrder(g, o, order)
    requires |seed| == |g| == |w| && TanhOperandsUnshared(g, o) && TanhOperandsClear(g, o, seed)
    requires 0 < n <= |order| && g[order[n - 1]].op.Tanh?
    requires Accumulated(g, order, seed, n, w)
    ensures g[order[n - 1]].op.arg < |g| && w[g[order[n - 1]].op.arg] == 0.0
  {
    var m := order[n - 1];
    var a := g[m].op.arg;
    var D := Done(order, n);
    assert m in order;
    assert Reaches(g, o, m);
    assert a < |g| && seed[a] == 0.0;
    forall c | c in D && 0 <= c < |g| ensures Slopes(g, a)[c] == 0.0 {
      FiredAreNotOperands(g, o, order, n, c);
      var q :| n <= q < |order| && order[q] == c;
      assert c in order;
      assert Reaches(g, o, c);
      LocalOfNonOperand(g, c, a);
    }
    InflowVanishes(Slopes(g, a), D, w, 0);
    assert w[a] == seed[a] + Inflow(Slopes(g, a), D, w, 0);
  }

  /** A rule whose tanh operand, if any, still has gradient 0 adds
      `Local(g, m, k) * w[m]` to every gradient. */
  lemma StepAdds(g: Graph, w: seq<real>, m: nat, k: nat)
    requires WellFormed(g) && m < |g| == |w| && k < |g| && !Raises(g, m)
    requires g[m].op.Tanh? ==> g[m].op.arg < |g| && w[g[m].op.arg] == 0.0
    ensures Rule(g, w, m).value[k] == w[k] + Local(g, m, k) * w[m]
  {
    RuleUpdate(g, w, m, k);
  }

  /** One accumulation step for one node k: adding m's term to w[k] adds m
      to the summed nodes. */
  lemma InflowStepAt(col: seq<real>, D: set<nat>, m: nat, s: real, w: seq<real>, w': seq<real>, k: nat, l: real)
    requires |col| == |w| == |w'| && m < |col| && m !in D && k < |col| && col[m] == l
    requires forall c :: c in D + {m} && c < |col| ==> w'[c] == w[c]
    requires w'[k] == w[k] + l * w[m] && w[k] == s + Inflow(col, D, w, 0)
    ensures w'[k] == s + Inflow(col, D + {m}, w', 0)
  {
    InflowGrows(col, D, w, w', m, 0);
  }

  lemma InflowStepFor(g: Graph, D: set<nat>, m: nat, s: real, w: seq<real>, w': seq<real>, k: nat)
    requires WellFormed(g) && m < |g| == |w| == |w'| && m !in D && k < |g|
    requires forall c :: c in D + {m} && c < |g| ==> w'[c] == w[c]
    requires w'[k] == w[k] + Local(g, m, k) * w[m] && w[k] == s + Inflow(Slopes(g, k), D, w, 0)
    ensures w'[k] == s + Inflow(Slopes(g, k), D + {m}, w', 0)
  {
    InflowStepAt(Slopes(g, k), D, m, s, w, w', k, Local(g, m, k));
  }

  /** One accumulation step: adding m's term `Local(g, m, k) * w[m]` to every
      gradient, when m uses none of the fired nodes D, adds m to the fired
      nodes. */
  lemma InflowStep(g: Graph, D: set<nat>, m: nat, seed: seq<real>, w: seq<real>, w': seq<real>)
    requires WellFormed(g) && m < |g| == |w| == |w'| == |seed| && m !in D
    requires forall k :: 0 <= k < |g| ==> w'[k] == w[k] + Local(g, m, k) * w[m]
    requires forall c :: c in D && c < |g| ==> c !in Prev(g[m].op)
    requires forall k {:trigger Inflow(Slopes(g, k), D, w, 0)} :: 0 <= k < |g| ==>
      w[k] == seed[k] + Inflow(Slopes(g, k), D, w, 0)
    ensures forall k {:trigger Inflow(Slopes(g, k), D + {m}, w', 0)} :: 0 <= k < |g| ==>
      w'[k] == seed[k] + Inflow(Slopes(g, k), D + {m}, w', 0)
  {
    PrevBelow(g, m);
    forall c | c in D + {m} && c < |g| ensures w'[c] == w[c] {
      LocalOfNonOperand(g, m, c);
    }
    forall k | 0 <= k < |g| ensures w'[k] == seed[k] + Inflow(Slopes(g, k), D + {m}, w', 0) {
      InflowStepFor(g, D, m, seed[k], w, w', k);
    }
  }

  /** Firing order[n - 1], whose users have all fired, keeps `Accumulated`:
      its rule adds its share to its operands and leaves every fired node
      alone (for tanh, the operand's gradient is still 0, so assigning is
      adding). */
  lemma WalkStep(g: Graph, o: nat, order: seq<nat>, seed: seq<real>, n: nat, w: seq<real>)
    requires WellFormed(g) && o < |g| && IsTopoOrder(g, o, order)
    requires |seed| == |g| == |w| && TanhOperandsUnshared(g, o) && TanhOperandsClear(g, o, seed)
    requires 0 < n <= |order| && !Raises(g, order[n - 1])
    requires Accumulated(g, order, seed, n, w)
    ensures Accumulated(g, order, seed, n - 1, Rule(g, w, order[n - 1]).value)
  {
    var m := order[n - 1];
    var D := Done(order, n);
    assert Done(order, n - 1) == D + {m};
    if g[m].op.Tanh? {
      TanhOperandUntouched(g, o, order, seed, n, w);
    }
    forall c | c in D && c < |g| ensures c !in Prev(g[m].op) {
      FiredAreNotOperands(g, o, order, n, c);
    }
    assert m !in D by {
      if m in D {
        FiredAreNotOperands(g, o, order, n, m);
      }
    }
    var w' := Rule(g, w, m).value;
    forall k | 0 <= k < |g| ensures w'[k] == w[k] + Local(g, m, k) * w[m] {
      StepAdds(g, w, m, k);
    }
    InflowStep(g, D, m, seed, w, w');
  }

  /** After the rules of order[n..] have fired, every gradient is its seed
      plus what the fired rules passed on to it; the walk keeps this until
      all of the ancestry has fired. */
  lemma {:induction false} WalkInvariant(g: Graph, o: nat, order: seq<nat>, seed: seq<real>, n: nat, w: seq<real>)
    requires WellFormed(g) && o < |g| && IsTopoOrder(g, o, order)
    requires |seed| == |g| == |w| && TanhOperandsUnshared(g, o) && TanhOperandsClear(g, o, seed)
    requires n <= |order| && Accumulated(g, order, seed, n, w)
    requires Sweep(g, w, order[..n]).Completed?
    ensures Accumulated(g, order, seed, 0, Sweep(g, w, order[..n]).grad)
    decreases n
  {
    if n == 0 {
      assert order[..0] == [];
    } else {
      var m := order[n - 1];
      assert order[..n][n - 1] == m;
      assert order[..n][..n - 1] == order[..n - 1];
      SweepCompletes(g, w, order[..n]);
      assert !Raises(g, m);
      var w' := Rule(g, w, m).value;
      assert Sweep(g, w, order[..n]) == Sweep(g, w', order[..n - 1]);
      WalkStep(g, o, order, seed, n, w);
      WalkInvariant(g, o, order, seed, n - 1, w');
    }
  }

  /** A completed walk over a topological order of o's ancestry, started
      from `seed`, leaves every node's gradient at its seed plus what the
      ancestry's rules passed on to it: gradients from an earlier pass are
      added to, not replaced. */
  lemma WalkAccumulates(g: Graph, o: nat, order: seq<nat>, seed: seq<real>)
    requires WellFormed(g) && o < |g| && IsTopoOrder(g, o, order) && |seed| == |g|
    requires TanhOperandsUnshared(g, o) && TanhOperandsClear(g, o, seed)
    requires Sweep(g, seed, order).Completed?
    ensures forall k :: 0 <= k < |g| ==>
      Sweep(g, seed, order).grad[k] == seed[k] + Inflow(Slopes(g, k), Ancestry(g, o), Sweep(g, seed, order).grad, 0)
  {
    assert order[..|order|] == order;
    assert Done(order, |order|) == {};
    forall k | 0 <= k < |g| ensures seed[k] == seed[k] + Inflow(Slopes(g, k), Done(order, |order|), seed, 0) {
      InflowVanishes(Slopes(g, k), {}, seed, 0);
    }
    assert Accumulated(g, order, seed, |order|, seed);
    WalkInvariant(g, o, order, seed, |order|, seed);
    assert Done(order, 0) == Ancestry(g, o);
  }

  /** From all-zero gradients, a completed walk leaves every node with its
      exact derivative d(o)/d(k). */
  lemma WalkComputesAdjoint(g: Graph, o: nat, order: seq<nat>, before: seq<real>)
    requires WellFormed(g) && o < |g| && IsTopoOrder(g, o, order) && |before| == |g|
    requires forall k :: 0 <= k < |g| ==> before[k] == 0.0
    requires TanhOperandsUnshared(g, o)
    requires Sweep(g, before[o := 1.0], order).Completed?
    ensures forall k :: 0 <= k < |g| ==> Sweep(g, before[o := 1.0], order).grad[k] == Adjoint(g, o, k)
  {
    var seed := before[o := 1.0];
    forall t | 0 <= t < |g| && Reaches(g, o, t) && g[t].op.Tanh?
      ensures g[t].op.arg < |g| && seed[g[t].op.arg] == 0.0
    {
      PrevBelow(g, t);
      ReachesBelow(g, o, t);
    }
    WalkAccumulates(g, o, order, seed);
    var F := Sweep(g, seed, order).grad;
    assert SolvesChainRule(g, o, F);
    forall k | 0 <= k < |g| ensures F[k] == Adjoint(g, o, k) {
      SolutionIsAdjoint(g, o, F, k);
    }
  }
}
