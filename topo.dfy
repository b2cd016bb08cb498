/** The ordering `backward` builds with its inner `topo`: a post-order
    depth-first walk from the output through `_prev`, with a `visited` set
    so that no node is listed twice. */
module Topo {
  import opened Values

  /** k can be reached from v by following operands (v reaches itself). */
  ghost predicate Reaches(g: Graph, v: nat, k: nat)
    requires WellFormed(g) && v < |g|
    decreases v
  {
    assert OperandsBelow(g[v].op, v);
    k == v || exists q :: 0 <= q < |Prev(g[v].op)| && Reaches(g, Prev(g[v].op)[q], k)
  }

  /** Operands have smaller indices, so nothing above v is reachable from v. */
  lemma {:induction false} ReachesBelow(g: Graph, v: nat, k: nat)
    requires WellFormed(g) && v < |g| && Reaches(g, v, k)
    ensures k <= v
    decreases v
  {
    if k != v {
      assert OperandsBelow(g[v].op, v);
      var q :| 0 <= q < |Prev(g[v].op)| && Reaches(g, Prev(g[v].op)[q], k);
      ReachesBelow(g, Prev(g[v].op)[q], k);
    }
  }

  /** Whatever reaches a node also reaches that node's operands. */
  lemma {:induction false} ReachesOperand(g: Graph, o: nat, d: nat, q: nat)
    requires WellFormed(g) && o < |g| && d < |g| && Reaches(g, o, d) && q < |Prev(g[d].op)|
    ensures Reaches(g, o, Prev(g[d].op)[q])
    decreases o
  {
    assert OperandsBelow(g[o].op, o);
    assert OperandsBelow(g[d].op, d);
    var c := Prev(g[d].op)[q];
    if o == d {
      assert Reaches(g, c, c);
    } else {
      var e :| 0 <= e < |Prev(g[o].op)| && Reaches(g, Prev(g[o].op)[e], d);
      ReachesOperand(g, Prev(g[o].op)[e], d, q);
    }
  }

  /** A partial ordering as `topo` builds it: indices of the arena, no node
      twice, closed under operands, and every operand listed before the
      nodes that use it. */
  ghost predicate TopoPrefix(g: Graph, nodes: seq<nat>) {
    && (forall p :: 0 <= p < |nodes| ==> nodes[p] < |g|)
    && (forall p, q :: 0 <= p < q < |nodes| ==> nodes[p] != nodes[q])
    && (forall p, c :: 0 <= p < |nodes| && c in Prev(g[nodes[p]].op) ==> c in nodes)
    && (forall p, q :: 0 <= p < |nodes| && 0 <= q < |nodes| && nodes[q] in Prev(g[nodes[p]].op) ==> q < p)
  }

  /** The ordering `backward` needs: exactly the nodes reachable from o, each
      once, operands first, and o last. */
  ghost predicate IsTopoOrder(g: Graph, o: nat, order: seq<nat>)
    requires WellFormed(g) && o < |g|
  {
    && TopoPrefix(g, order)
    && (forall k: nat :: k in order <==> Reaches(g, o, k))
    && |order| > 0 && order[|order| - 1] == o
  }

  /** A listed node's whole ancestry is listed: the ordering is closed under
      operands. */
  lemma {:induction false} ReachStaysInside(g: Graph, nodes: seq<nat>, v: nat, k: nat)
    requires WellFormed(g) && v < |g| && TopoPrefix(g, nodes) && v in nodes && Reaches(g, v, k)
    ensures k in nodes
    decreases v
  {
    if k != v {
      assert OperandsBelow(g[v].op, v);
      var q :| 0 <= q < |Prev(g[v].op)| && Reaches(g, Prev(g[v].op)[q], k);
      var p :| 0 <= p < |nodes| && nodes[p] == v;
      assert Prev(g[nodes[p]].op)[q] in Prev(g[nodes[p]].op);
      ReachStaysInside(g, nodes, Prev(g[v].op)[q], k);
    }
  }

  /** A node whose operands are all listed, and which is not listed itself,
      can be appended. */
  lemma AppendKeepsPrefix(g: Graph, nodes: seq<nat>, v: nat)
    requires WellFormed(g) && v < |g| && TopoPrefix(g, nodes) && v !in nodes
    requires forall c :: c in Prev(g[v].op) ==> c in nodes
    ensures TopoPrefix(g, nodes + [v])
  {
  }

  /** The list `topo(v)` leaves behind when it starts from the list `nodes`
      (with `visited` holding the same nodes): nothing new when v was
      visited, otherwise the walks from v's operands, left to right, and then
      v itself. */
  ghost function PostOrder(g: Graph, v: nat, nodes: seq<nat>): seq<nat>
    requires WellFormed(g) && v < |g|
    decreases v, 1, 0
  {
    if v in nodes then nodes
    else Operands(g, v, |Prev(g[v].op)|, nodes) + [v]
  }

  /** The list after `topo` has run on the first p operands of v in turn. */
  ghost function Operands(g: Graph, v: nat, p: nat, nodes: seq<nat>): seq<nat>
    requires WellFormed(g) && v < |g| && p <= |Prev(g[v].op)|
    decreases v, 0, p
  {
    if p == 0 then nodes
    else
      assert OperandsBelow(g[v].op, v);
      PostOrder(g, Prev(g[v].op)[p - 1], Operands(g, v, p - 1, nodes))
  }

  /** One of the first p operands of v reaches k. */
  ghost predicate OperandReaches(g: Graph, v: nat, p: nat, k: nat)
    requires WellFormed(g) && v < |g| && p <= |Prev(g[v].op)|
  {
    assert OperandsBelow(g[v].op, v);
    exists q :: 0 <= q < p && Reaches(g, Prev(g[v].op)[q], k)
  }

  /** `topo(node)`: the recursive walk, with `visited` and `nodes` passed in
      and handed back. It appends every node reachable from v that was not
      listed yet, operands first, and v itself last. */
  method Visit(g: Graph, v: nat, visited: set<nat>, nodes: seq<nat>)
    returns (visited': set<nat>, nodes': seq<nat>)
    requires WellFormed(g) && v < |g|
    requires TopoPrefix(g, nodes) && forall k :: k in visited <==> k in nodes
    ensures TopoPrefix(g, nodes') && forall k :: k in visited' <==> k in nodes'
    ensures nodes <= nodes'
    ensures forall k: nat :: k in nodes' <==> k in nodes || Reaches(g, v, k)
    ensures v !in visited ==> |nodes'| > 0 && nodes'[|nodes'| - 1] == v
    ensures nodes' == PostOrder(g, v, nodes)
    decreases v, 1
  {
    if v in visited {
      forall k: nat | Reaches(g, v, k) ensures k in nodes {
        ReachStaysInside(g, nodes, v, k);
      }
      return visited, nodes;
    }
    visited', nodes' := VisitOperands(g, v, visited, nodes);
    var prev := Prev(g[v].op);
    forall c | c in prev ensures c in nodes' {
      var q :| 0 <= q < |prev| && prev[q] == c;
      assert Reaches(g, prev[q], c);
    }
    AppendKeepsPrefix(g, nodes', v);
    nodes' := nodes' + [v];
    visited' := visited' + {v};
  }

  /** The loop `for child in node._prev: topo(child)` of `topo(v)`, for a v
      not visited yet: it lists what the operands reach, left to right. */
  method VisitOperands(g: Graph, v: nat, visited: set<nat>, nodes: seq<nat>)
    returns (visited': set<nat>, nodes': seq<nat>)
    requires WellFormed(g) && v < |g| && v !in nodes
    requires TopoPrefix(g, nodes) && forall k :: k in visited <==> k in nodes
    ensures TopoPrefix(g, nodes') && forall k :: k in visited' <==> k in nodes'
    ensures nodes <= nodes' && v !in nodes'
    ensures forall k: nat :: k in nodes' <==> k in nodes || OperandReaches(g, v, |Prev(g[v].op)|, k)
    ensures nodes' == Operands(g, v, |Prev(g[v].op)|, nodes)
    decreases v, 0
  {
    visited', nodes' := visited, nodes;
    var prev := Prev(g[v].op);
    assert OperandsBelow(g[v].op, v);
    for p := 0 to |prev|
      invariant TopoPrefix(g, nodes') && forall k :: k in visited' <==> k in nodes'
      invariant nodes <= nodes'
      invariant v !in nodes'
      invariant forall k: nat :: k in nodes' <==> k in nodes || OperandReaches(g, v, p, k)
      invariant nodes' == Operands(g, v, p, nodes)
    {
      if Reaches(g, prev[p], v) {
        ReachesBelow(g, prev[p], v);
      }
      ghost var before := nodes';
      visited', nodes' := Visit(g, prev[p], visited', nodes');
      assert nodes' == Operands(g, v, p + 1, nodes);
      forall k: nat ensures k in nodes' <==> k in nodes || OperandReaches(g, v, p + 1, k) {
        assert OperandReaches(g, v, p + 1, k) <==> OperandReaches(g, v, p, k) || Reaches(g, prev[p], k);
      }
    }
  }

  /** The `topo(self)` call of `backward`, from an empty `visited` set: the
      depth-first post-order, which lists o's ancestry once each, operands
      first and o last. */
  method TopoSort(g: Graph, o: nat) returns (order: seq<nat>)
    requires WellFormed(g) && o < |g|
    ensures order == PostOrder(g, o, [])
    ensures IsTopoOrder(g, o, order)
  {
    var visited;
    visited, order := Visit(g, o, {}, []);
  }
}
