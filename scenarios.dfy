/** Small expressions built with the operators, and the gradients the chain
    rule gives them (which, by `Backprop.Backward`, a backward pass from
    zero gradients computes). */
module Scenarios {
  import opened Values
  import opened Builder
  import opened Rules
  import opened Topo
  import opened Walk
  import opened ChainRule
  import opened Backprop

  /** `x * x`: both operand slots name the same node, so its gradient is
      2x. */
  lemma SquareGradient(x: real)
    ensures var b := Mul([Value(x, Leaf)], 0, Ref(0));
      b.graph == [Value(x, Leaf), Value(x * x, Product(0, 0))] && b.out == 1
      && Adjoint(b.graph, b.out, 0) == 2.0 * x
  {
    var b := Mul([Value(x, Leaf)], 0, Ref(0));
    assert b.out == 1 && |b.graph| == 2 && b.graph[0] == Value(x, Leaf);
    assert b.graph[1].op == Product(0, 0) && b.graph[1].data == x * x;
    var g := [Value(x, Leaf), Value(x * x, Product(0, 0))];
    assert b.graph == g;
    assert AdjointSum(g, 1, 1, 2) == 0.0;
    assert Adjoint(g, 1, 1) == 1.0;
    assert AdjointSum(g, 1, 0, 2) == 0.0;
    assert Local(g, 1, 0) == x + x;
    assert AdjointSum(g, 1, 0, 1) == (x + x) * 1.0;
  }

  /** `x ** 3` has gradient 3x². */
  lemma CubeGradient(x: real)
    ensures var r := Pow([Value(x, Leaf)], 0, IntPower(3));
      && r.Ok? && r.value.graph == [Value(x, Leaf), Value(x * x * x, Power(0, 3))]
      && Adjoint(r.value.graph, r.value.out, 0) == 3.0 * x * x
  {
    var r := Pow([Value(x, Leaf)], 0, IntPower(3));
    assert r.value.graph[0] == Value(x, Leaf);
    assert NatPower(x, 2) == x * x by {
      assert NatPower(x, 1) == x;
    }
    assert NatPower(x, 3) == x * x * x;
    var g := [Value(x, Leaf), Value(x * x * x, Power(0, 3))];
    assert r.value.graph == g;
    assert AdjointSum(g, 1, 1, 2) == 0.0;
    assert Adjoint(g, 1, 1) == 1.0;
    assert AdjointSum(g, 1, 0, 2) == 0.0;
    assert RealPow(x, 2) == x * x;
    assert Local(g, 1, 0) == 3.0 * (x * x);
    assert AdjointSum(g, 1, 0, 1) == 3.0 * (x * x) * 1.0;
  }

  /** `a - b` has gradient 1 for a and -1 for b. */
  lemma DifferenceGradient(a: real, b: real)
    ensures var r := Sub([Value(a, Leaf), Value(b, Leaf)], 0, Ref(1));
      r.graph[r.out].data == a - b
      && Adjoint(r.graph, r.out, 0) == 1.0 && Adjoint(r.graph, r.out, 1) == -1.0
  {
    var r := Sub([Value(a, Leaf), Value(b, Leaf)], 0, Ref(1));
    var g := r.graph;
    assert g[0] == Value(a, Leaf) && g[1] == Value(b, Leaf);
    assert r.out == 4 && g[4].op == Sum(0, 3) && g[3].op == Product(1, 2) && g[2] == Value(-1.0, Leaf);
    assert AdjointSum(g, 4, 4, 5) == 0.0;
    assert Adjoint(g, 4, 4) == 1.0;
    assert AdjointSum(g, 4, 3, 5) == 0.0;
    assert AdjointSum(g, 4, 3, 4) == 1.0;
    assert Adjoint(g, 4, 3) == 1.0;
    assert AdjointSum(g, 4, 0, 5) == 0.0;
    assert AdjointSum(g, 4, 0, 4) == 1.0;
    assert AdjointSum(g, 4, 0, 3) == 1.0;
    assert AdjointSum(g, 4, 0, 2) == 1.0;
    assert AdjointSum(g, 4, 0, 1) == 1.0;
    assert AdjointSum(g, 4, 1, 5) == 0.0;
    assert AdjointSum(g, 4, 1, 4) == 0.0;
    assert Local(g, 3, 1) == -1.0;
    assert AdjointSum(g, 4, 1, 3) == -1.0;
    assert AdjointSum(g, 4, 1, 2) == -1.0;
  }

  /** `a / b` has gradient 1/b for a and -a/b² for b. */
  lemma QuotientGradient(a: real, b: real)
    requires b != 0.0
    ensures var r := Div([Value(a, Leaf), Value(b, Leaf)], 0, Ref(1));
      && r.Ok? && r.value.graph[r.value.out].data == a / b
      && Adjoint(r.value.graph, r.value.out, 0) * b == 1.0
      && Adjoint(r.value.graph, r.value.out, 1) * (b * b) == -a
  {
    var r := Div([Value(a, Leaf), Value(b, Leaf)], 0, Ref(1));
    var g := r.value.graph;
    assert g[0] == Value(a, Leaf) && g[1] == Value(b, Leaf);
    assert r.value.out == 3 && g[3].op == Product(0, 2) && g[2].op == Power(1, -1);
    var q := g[2].data;
    assert q * b == 1.0;
    assert AdjointSum(g, 3, 3, 4) == 0.0;
    assert Adjoint(g, 3, 3) == 1.0;
    assert AdjointSum(g, 3, 2, 4) == 0.0;
    assert AdjointSum(g, 3, 2, 3) == a;
    assert Adjoint(g, 3, 2) == a;
    assert AdjointSum(g, 3, 0, 4) == 0.0;
    assert AdjointSum(g, 3, 0, 3) == q;
    assert AdjointSum(g, 3, 0, 2) == q;
    assert AdjointSum(g, 3, 0, 1) == q;
    var p := RealPow(b, -2);
    assert NatPower(b, 2) == b * b by {
      assert NatPower(b, 1) == b;
    }
    assert p * (b * b) == 1.0;
    assert Local(g, 2, 1) == -1.0 * p;
    assert AdjointSum(g, 3, 1, 4) == 0.0;
    assert AdjointSum(g, 3, 1, 3) == 0.0;
    assert AdjointSum(g, 3, 1, 2) == -1.0 * p * a;
    assert -1.0 * p * a * (b * b) == -a * (p * (b * b));
  }

  /** `(x * y).tanh()` has gradient y * (1 - t²) for x, where t is the
      forward value `math.tanh(x * y)`. */
  lemma TanhOfProductGradient(x: real, y: real, th: real -> real)
    ensures var m := Mul([Value(x, Leaf), Value(y, Leaf)], 0, Ref(1));
      var r := ApplyTanh(m.graph, m.out, th);
      var t := th(x * y);
      r.graph[r.out].data == t && Adjoint(r.graph, r.out, 0) == y * (1.0 - t * t)
  {
    var m := Mul([Value(x, Leaf), Value(y, Leaf)], 0, Ref(1));
    assert m.graph[0] == Value(x, Leaf) && m.graph[1] == Value(y, Leaf);
    assert m.out == 2 && m.graph[2].data == x * y && m.graph[2].op == Product(0, 1);
    var r := ApplyTanh(m.graph, m.out, th);
    var g := r.graph;
    var t := th(x * y);
    assert r.out == 3 && g[3] == Value(t, Tanh(2)) && g[..3] == m.graph;
    assert g[0] == Value(x, Leaf) && g[1] == Value(y, Leaf) && g[2].op == Product(0, 1);
    assert AdjointSum(g, 3, 3, 4) == 0.0;
    assert Adjoint(g, 3, 3) == 1.0;
    assert AdjointSum(g, 3, 2, 4) == 0.0;
    assert AdjointSum(g, 3, 2, 3) == 1.0 - t * t;
    assert Adjoint(g, 3, 2) == 1.0 - t * t;
    assert AdjointSum(g, 3, 0, 4) == 0.0;
    assert AdjointSum(g, 3, 0, 3) == 0.0;
    assert AdjointSum(g, 3, 0, 2) == y * (1.0 - t * t);
    assert AdjointSum(g, 3, 0, 1) == y * (1.0 - t * t);
  }

  /** The arena of `L = (a * b + c) * -2.0` with a = 2, b = -3 and c = 10:
      nodes a, b, c, e = a * b, d = e + c, the wrapped f = -2 and L = d * f. */
  const ExpressionArena: Graph := [
    Value(2.0, Leaf), Value(-3.0, Leaf), Value(10.0, Leaf),
    Value(-6.0, Product(0, 1)), Value(4.0, Sum(3, 2)), Value(-2.0, Leaf), Value(-8.0, Product(4, 5))]

  /** The operators build exactly that arena, and L = -8. */
  lemma ExpressionBuilt()
    ensures var e := Mul([Value(2.0, Leaf), Value(-3.0, Leaf), Value(10.0, Leaf)], 0, Ref(1));
      var d := Add(e.graph, e.out, Ref(2));
      var l := Mul(d.graph, d.out, Number(-2.0));
      l.graph == ExpressionArena && l.out == 6 && l.graph[l.out].data == -8.0
  {
  }

  /** The derivatives of L with respect to L, f, d and e. */
  lemma ExpressionUpperAdjoints()
    ensures WellFormed(ExpressionArena)
    ensures Adjoint(ExpressionArena, 6, 6) == 1.0 && Adjoint(ExpressionArena, 6, 5) == 4.0
    ensures Adjoint(ExpressionArena, 6, 4) == -2.0 && Adjoint(ExpressionArena, 6, 3) == -2.0
  {
    var g := ExpressionArena;
    assert WellFormed(g);
    assert Adjoint(g, 6, 6) == 1.0;
    assert Adjoint(g, 6, 5) == 4.0;
    assert Adjoint(g, 6, 4) == -2.0;
  }

  /** The chain rule on that arena: dL/dL = 1, dL/df = 4,
      dL/dd = dL/de = dL/dc = -2, dL/db = -4, dL/da = 6. */
  lemma ExpressionAdjoints()
    ensures WellFormed(ExpressionArena)
    ensures forall k :: 0 <= k < 7 ==>
      Adjoint(ExpressionArena, 6, k) == [6.0, -4.0, -2.0, -2.0, -2.0, 4.0, 1.0][k]
  {
    ExpressionUpperAdjoints();
    var g := ExpressionArena;
    assert Adjoint(g, 6, 2) == -2.0;
    assert Adjoint(g, 6, 1) == -4.0;
    assert Adjoint(g, 6, 0) == 6.0;
  }

  /** `L.backward()` from fresh nodes (every gradient 0.0) leaves those
      gradients. */
  method ExpressionGradients() returns (grads: seq<real>)
    ensures grads == [6.0, -4.0, -2.0, -2.0, -2.0, 4.0, 1.0]
  {
    ExpressionBuilt();
    ExpressionAdjoints();
    var g := ExpressionArena;
    var grad := NewGradients(7);
    assert forall k :: 0 <= k < 7 ==> !g[k].op.Power? && !g[k].op.Tanh?;
    var ok;
    ghost var order;
    ok, order := Backward(g, grad, 6);
    grads := grad[..];
  }

  /** In `y = x * x`, with y's gradient at 1, y's rule passes 2x to x. */
  lemma SquareInflow(x: real, w: seq<real>)
    requires |w| == 2 && w[1] == 1.0
    ensures var g := [Value(x, Leaf), Value(x * x, Product(0, 0))];
      WellFormed(g) && Inflow(Slopes(g, 0), Ancestry(g, 1), w, 0) == 2.0 * x
  {
    var g := [Value(x, Leaf), Value(x * x, Product(0, 0))];
    assert WellFormed(g);
    assert Reaches(g, 1, 0) by {
      assert Prev(g[1].op)[0] == 0 && Reaches(g, 0, 0);
    }
    assert Ancestry(g, 1) == {0, 1};
    var col := Slopes(g, 0);
    assert col[0] == 0.0 && col[1] == x + x;
    assert Inflow(col, {0, 1}, w, 2) == 0.0;
    assert Inflow(col, {0, 1}, w, 1) == (x + x) * 1.0;
    assert Inflow(col, {0, 1}, w, 0) == 0.0 * w[0] + (x + x) * 1.0;
  }

  /** Calling `backward()` twice on `y = x * x` without resetting the
      gradients: the second pass adds another 2x to the 2x x already holds,
      while y is seeded with 1.0 again. */
  method SecondPassAccumulates(x: real) returns (first: real, second: real)
    ensures first == 2.0 * x && second == 4.0 * x
  {
    SquareGradient(x);
    var g := [Value(x, Leaf), Value(x * x, Product(0, 0))];
    assert WellFormed(g);
    assert TanhOperandsUnshared(g, 1);
    var grad := NewGradients(2);
    var ok;
    ghost var order;
    ok, order := Backward(g, grad, 1);
    assert ok;
    first := grad[0];
    assert TanhOperandsClear(g, 1, grad[..][1 := 1.0]);
    ok, order := Backward(g, grad, 1);
    SquareInflow(x, grad[..]);
    second := grad[0];
  }

  /** An arena shaped like `x.tanh() + x` has one ordering `backward` can
      use: x, then the tanh node, then the sum. */
  lemma TanhSumOrder(g: Graph, order: seq<nat>)
    requires WellFormed(g) && |g| == 3 && g[1].op == Tanh(0) && g[2].op == Sum(1, 0)
    requires IsTopoOrder(g, 2, order)
    ensures order == [0, 1, 2]
  {
    assert Reaches(g, 2, 1) by {
      assert Prev(g[2].op)[0] == 1 && Reaches(g, 1, 1);
    }
    assert Reaches(g, 2, 0) by {
      assert Prev(g[2].op)[1] == 0 && Reaches(g, 0, 0);
    }
    assert 0 in order && 1 in order;
    var p0 :| 0 <= p0 < |order| && order[p0] == 0;
    var p1 :| 0 <= p1 < |order| && order[p1] == 1;
    var p2 := |order| - 1;
    assert order[p0] in Prev(g[order[p1]].op);
    assert order[p1] in Prev(g[order[p2]].op);
    assert p0 < p1 < p2;
    assert order[0] < 3;
    assert p0 == 0;
    assert order[1] < 3;
    assert p1 == 1;
    assert order[2] < 3;
    assert p2 == 2;
  }

  /** The walk of `backward` on that arena from x, t, y gradients 0, 0, 1:
      the sum's rule adds 1 to both operands, then the tanh rule sets x's
      gradient to 1 - t². */
  lemma TanhSumSweep(g: Graph, t: real)
    requires WellFormed(g) && |g| == 3 && g[1] == Value(t, Tanh(0)) && g[2].op == Sum(1, 0)
    ensures Sweep(g, [0.0, 0.0, 1.0], [0, 1, 2]) == Completed([1.0 - t * t, 1.0, 1.0])
  {
    assert [0, 1, 2][..2] == [0, 1] && [0, 1][..1] == [0] && [0][..0] == [];
    var r2 := Rule(g, [0.0, 0.0, 1.0], 2).value;
    assert r2 == [0.0, 1.0, 1.0][0 := 0.0 + 1.0];
    assert r2 == [1.0, 1.0, 1.0];
    var r1 := Rule(g, [1.0, 1.0, 1.0], 1).value;
    RuleUpdate(g, [1.0, 1.0, 1.0], 1, 0);
    RuleUpdate(g, [1.0, 1.0, 1.0], 1, 1);
    RuleUpdate(g, [1.0, 1.0, 1.0], 1, 2);
    assert Local(g, 1, 0) == 1.0 - t * t;
    assert r1 == [1.0 - t * t, 1.0, 1.0];
    assert Rule(g, [1.0 - t * t, 1.0, 1.0], 0) == Ok([1.0 - t * t, 1.0, 1.0]);
  }

  /** By the chain rule x's derivative in `x.tanh() + x` is 1 + (1 - t²):
      one path through the tanh node and one straight into the sum. */
  lemma TanhSumAdjoint(g: Graph, t: real)
    requires WellFormed(g) && |g| == 3 && g[1] == Value(t, Tanh(0)) && g[2].op == Sum(1, 0)
    ensures Adjoint(g, 2, 0) == 2.0 - t * t
  {
    assert AdjointSum(g, 2, 2, 3) == 0.0;
    assert Adjoint(g, 2, 2) == 1.0;
    assert AdjointSum(g, 2, 1, 3) == 0.0;
    assert AdjointSum(g, 2, 1, 2) == 1.0;
    assert Adjoint(g, 2, 1) == 1.0;
    assert AdjointSum(g, 2, 0, 3) == 0.0;
    assert AdjointSum(g, 2, 0, 2) == 1.0;
    assert AdjointSum(g, 2, 0, 1) == (1.0 - t * t) * 1.0 + 1.0;
  }

  /** `y = x.tanh() + x` from fresh gradients: the sum's rule gives x a
      gradient of 1, then the tanh rule overwrites it with 1 - t², where t is
      the tanh value. The chain rule gives x the derivative 2 - t²: the
      assigning tanh rule loses the path that skips the tanh node. */
  method TanhOverwriteLosesGradient(x: real, th: real -> real) returns (t: real, grads: seq<real>)
    ensures t == th(x) && grads == [1.0 - t * t, 1.0, 1.0]
    ensures Adjoint([Value(x, Leaf), Value(t, Tanh(0)), Value(t + x, Sum(1, 0))], 2, 0) == 2.0 - t * t
  {
    t := th(x);
    var a := ApplyTanh([Value(x, Leaf)], 0, th);
    var y := Add(a.graph, a.out, Ref(0));
    assert a.out == 1 && a.graph[0] == Value(x, Leaf) && a.graph[1] == Value(t, Tanh(0));
    assert y.out == 2 && y.graph[..2] == a.graph && y.graph[2] == Value(t + x, Sum(1, 0));
    var g := [Value(x, Leaf), Value(t, Tanh(0)), Value(t + x, Sum(1, 0))];
    assert y.graph == g;
    assert WellFormed(g);
    var grad := NewGradients(3);
    assert grad[..][2 := 1.0] == [0.0, 0.0, 1.0];
    var ok;
    ghost var order;
    ok, order := Backward(g, grad, 2);
    TanhSumOrder(g, order);
    TanhSumSweep(g, t);
    TanhSumAdjoint(g, t);
    grads := grad[..];
  }
}
