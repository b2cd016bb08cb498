/** The graph builder: the arithmetic operators of `Value`.

    Each operator takes the arena and the index of `self`, and returns the
    arena with the new nodes appended and the index of the node it returns.
    A bare number given as an operand is first wrapped into a new leaf, as
    the operators do with `Value(other)`. Nothing already in the arena
    changes, and since a new node can only name nodes that exist, the arena
    stays acyclic. */
module Builder {
  import opened Values

  /** The right-hand operand of an operator: an existing node or a number. */
  datatype Operand = Ref(index: nat) | Number(x: real)

  /** The argument of `**`: only a number is accepted. */
  datatype Exponent = IntPower(n: int) | ValuePower(index: nat)

  /** The arena after an operator, and the index of the node it returned. */
  datatype Built = Built(graph: Graph, out: nat)

  predicate ValidOperand(g: Graph, x: Operand) {
    x.Ref? ==> x.index < |g|
  }

  function OperandData(g: Graph, x: Operand): real
    requires ValidOperand(g, x)
  {
    match x
    case Ref(i) => g[i].data
    case Number(v) => v
  }

  /** r is g with at least one node appended, still well-formed, and r.out
      names the last node. */
  predicate Extends(g: Graph, r: Built) {
    && WellFormed(r.graph)
    && |g| < |r.graph|
    && r.graph[..|g|] == g
    && r.out == |r.graph| - 1
  }

  /** `Value(x)`: a new leaf holding x. */
  function Constant(g: Graph, x: real): (r: Built)
    requires WellFormed(g)
    ensures Extends(g, r) && |r.graph| == |g| + 1
    ensures r.graph[r.out].data == x && Prev(r.graph[r.out].op) == []
  {
    Built(g + [Value(x, Leaf)], |g|)
  }

  /** `other if isinstance(other, Value) else Value(other)`. */
  function Wrap(g: Graph, x: Operand): (r: Built)
    requires WellFormed(g) && ValidOperand(g, x)
    ensures WellFormed(r.graph) && r.out < |r.graph| && |g| <= |r.graph| && r.graph[..|g|] == g
    ensures r.graph[r.out].data == OperandData(g, x)
    ensures x.Ref? ==> r == Built(g, x.index)
    ensures x.Number? ==> |r.graph| == |g| + 1 && r.out == |g| && r.graph[r.out].op == Leaf
  {
    match x
    case Ref(i) => Built(g, i)
    case Number(v) => Constant(g, v)
  }

  /** Appends one node whose operands already exist. */
  function Append(g: Graph, data: real, op: Op): (r: Built)
    requires WellFormed(g) && OperandsBelow(op, |g|)
    ensures Extends(g, r) && |r.graph| == |g| + 1
    ensures r.graph[r.out] == Value(data, op)
  {
    Built(g + [Value(data, op)], |g|)
  }

  /** `self + other`. */
  function Add(g: Graph, self: nat, other: Operand): (r: Built)
    requires WellFormed(g) && self < |g| && ValidOperand(g, other)
    ensures Extends(g, r)
    ensures r.graph[r.out].data == g[self].data + OperandData(g, other)
    ensures r.graph[r.out].op.Sum? && r.graph[r.out].op.lhs == self
    ensures other.Ref? ==> |r.graph| == |g| + 1 && r.graph[r.out].op.rhs == other.index
    ensures other.Number? ==>
      |r.graph| == |g| + 2 && r.graph[|g|] == Value(other.x, Leaf) && r.graph[r.out].op.rhs == |g|
  {
    var w := Wrap(g, other);
    Append(w.graph, w.graph[self].data + w.graph[w.out].data, Sum(self, w.out))
  }

  /** `other + self` with a number on the left: evaluates `self + other`. */
  function RAdd(g: Graph, self: nat, other: real): (r: Built)
    requires WellFormed(g) && self < |g|
    ensures Extends(g, r) && |r.graph| == |g| + 2
    ensures r.graph[r.out].data == other + g[self].data
    ensures r.graph[r.out].op == Sum(self, |g|) && r.graph[|g|] == Value(other, Leaf)
  {
    Add(g, self, Number(other))
  }

  /** `self * other`. */
  function Mul(g: Graph, self: nat, other: Operand): (r: Built)
    requires WellFormed(g) && self < |g| && ValidOperand(g, other)
    ensures Extends(g, r)
    ensures r.graph[r.out].data == g[self].data * OperandData(g, other)
    ensures r.graph[r.out].op.Product? && r.graph[r.out].op.lhs == self
    ensures other.Ref? ==> |r.graph| == |g| + 1 && r.graph[r.out].op.rhs == other.index
    ensures other.Number? ==>
      |r.graph| == |g| + 2 && r.graph[|g|] == Value(other.x, Leaf) && r.graph[r.out].op.rhs == |g|
  {
    var w := Wrap(g, other);
    Append(w.graph, w.graph[self].data * w.graph[w.out].data, Product(self, w.out))
  }

  /** `other * self` with a number on the left: evaluates `self * other`. */
  function RMul(g: Graph, self: nat, other: real): (r: Built)
    requires WellFormed(g) && self < |g|
    ensures Extends(g, r) && |r.graph| == |g| + 2
    ensures r.graph[r.out].data == other * g[self].data
    ensures r.graph[r.out].op == Product(self, |g|) && r.graph[|g|] == Value(other, Leaf)
  {
    Mul(g, self, Number(other))
  }

  /** `-self`, evaluated as `self * -1`. */
  function Neg(g: Graph, self: nat): (r: Built)
    requires WellFormed(g) && self < |g|
    ensures Extends(g, r) && |r.graph| == |g| + 2
    ensures r.graph[r.out].data == -g[self].data
    ensures r.graph[r.out].op == Product(self, |g|) && r.graph[|g|] == Value(-1.0, Leaf)
  {
    Mul(g, self, Number(-1.0))
  }

  /** `self - other`, evaluated as `self + (-other)`: a node operand is
      negated through `Neg`, a number is negated before it is wrapped. */
  function Sub(g: Graph, self: nat, other: Operand): (r: Built)
    requires WellFormed(g) && self < |g| && ValidOperand(g, other)
    ensures Extends(g, r)
    ensures r.graph[r.out].data == g[self].data - OperandData(g, other)
    ensures r.graph[r.out].op.Sum? && r.graph[r.out].op.lhs == self
    ensures other.Ref? ==>
      && |r.graph| == |g| + 3 && r.graph[|g|] == Value(-1.0, Leaf)
      && r.graph[|g| + 1] == Value(-g[other.index].data, Product(other.index, |g|))
      && r.graph[r.out].op.rhs == |g| + 1
    ensures other.Number? ==>
      |r.graph| == |g| + 2 && r.graph[|g|] == Value(-other.x, Leaf) && r.graph[r.out].op.rhs == |g|
  {
    match other
    case Ref(i) =>
      var n := Neg(g, i);
      Add(n.graph, self, Ref(n.out))
    case Number(v) => Add(g, self, Number(-v))
  }

  /** `other - self` with a number on the left, evaluated as `-self + other`. */
  function RSub(g: Graph, self: nat, other: real): (r: Built)
    requires WellFormed(g) && self < |g|
    ensures Extends(g, r) && |r.graph| == |g| + 4
    ensures r.graph[r.out].data == other - g[self].data
    ensures r.graph[r.out].op == Sum(|g| + 1, |g| + 2)
    ensures r.graph[|g|] == Value(-1.0, Leaf)
    ensures r.graph[|g| + 1] == Value(-g[self].data, Product(self, |g|))
    ensures r.graph[|g| + 2] == Value(other, Leaf)
  {
    var n := Neg(g, self);
    Add(n.graph, n.out, Number(other))
  }

  /** `self ** power`: only a number is accepted as the power (the
      assertion in `__pow__`), and zero cannot be raised to a negative
      power. */
  function Pow(g: Graph, self: nat, power: Exponent): (r: Result<Built>)
    requires WellFormed(g) && self < |g|
    ensures r.Err? <==> power.ValuePower? || !PowerDefined(g[self].data, power.n)
    ensures r.Err? ==> r.error == (if power.ValuePower? then AssertionFailure else ZeroDivision)
    ensures r.Ok? ==> Extends(g, r.value) && |r.value.graph| == |g| + 1
    ensures r.Ok? ==> r.value.graph[r.value.out].op == Power(self, power.n)
    ensures r.Ok? && power.n >= 0 ==> r.value.graph[r.value.out].data == NatPower(g[self].data, power.n)
    ensures r.Ok? && power.n < 0 ==>
      r.value.graph[r.value.out].data * NatPower(g[self].data, -power.n) == 1.0
  {
    match power
    case ValuePower(_) => Err(AssertionFailure)
    case IntPower(n) =>
      if !PowerDefined(g[self].data, n) then Err(ZeroDivision)
      else Ok(Append(g, RealPow(g[self].data, n), Power(self, n)))
  }

  /** `x ** -1` for a node x holding a non-zero number. */
  function Reciprocal(g: Graph, x: nat): (r: Built)
    requires WellFormed(g) && x < |g| && g[x].data != 0.0
    ensures Extends(g, r) && |r.graph| == |g| + 1
    ensures r.graph[r.out].op == Power(x, -1) && r.graph[r.out].data * g[x].data == 1.0
  {
    var p := Pow(g, x, IntPower(-1));
    assert NatPower(g[x].data, 1) == g[x].data;
    p.value
  }

  /** `self / other`, evaluated as `self * other ** -1` after wrapping other. */
  function Div(g: Graph, self: nat, other: Operand): (r: Result<Built>)
    requires WellFormed(g) && self < |g| && ValidOperand(g, other)
    ensures r.Err? <==> OperandData(g, other) == 0.0
    ensures r.Err? ==> r.error == ZeroDivision
    ensures r.Ok? ==> Extends(g, r.value)
    ensures r.Ok? ==> r.value.graph[r.value.out].data == g[self].data / OperandData(g, other)
    ensures r.Ok? ==> r.value.graph[r.value.out].op == Product(self, r.value.out - 1)
    ensures r.Ok? ==> r.value.graph[r.value.out - 1].data * OperandData(g, other) == 1.0
    ensures r.Ok? && other.Ref? ==>
      |r.value.graph| == |g| + 2 && r.value.graph[|g|].op == Power(other.index, -1)
    ensures r.Ok? && other.Number? ==>
      && |r.value.graph| == |g| + 3 && r.value.graph[|g|] == Value(other.x, Leaf)
      && r.value.graph[|g| + 1].op == Power(|g|, -1)
  {
    var w := Wrap(g, other);
    var d := OperandData(g, other);
    if d == 0.0 then Err(ZeroDivision)
    else
      var p := Reciprocal(w.graph, w.out);
      assert p.graph[self] == g[self];
      var q := p.graph[p.out].data;
      assert g[self].data * q == g[self].data / d;
      Ok(Mul(p.graph, self, Ref(p.out)))
  }

  /** `other / self` with a number on the left, evaluated as
      `other * self ** -1`, which Python turns into `(self ** -1) * other`. */
  function RDiv(g: Graph, self: nat, other: real): (r: Result<Built>)
    requires WellFormed(g) && self < |g|
    ensures r.Err? <==> g[self].data == 0.0
    ensures r.Err? ==> r.error == ZeroDivision
    ensures r.Ok? ==> Extends(g, r.value) && |r.value.graph| == |g| + 3
    ensures r.Ok? ==> r.value.graph[r.value.out].data == other / g[self].data
    ensures r.Ok? ==>
      r.value.graph[r.value.out].op == Product(|g|, |g| + 1) && r.value.graph[|g|].op == Power(self, -1)
    ensures r.Ok? ==> r.value.graph[|g|].data * g[self].data == 1.0
    ensures r.Ok? ==> r.value.graph[|g| + 1] == Value(other, Leaf)
  {
    match Pow(g, self, IntPower(-1))
    case Err(e) => Err(e)
    case Ok(p) =>
      assert NatPower(g[self].data, 1) == g[self].data;
      assert p.graph[p.out].data * g[self].data == 1.0;
      Ok(Mul(p.graph, p.out, Number(other)))
  }

  /** `self.tanh()`. The forward value comes from `math.tanh`, which is
      given here as the function `th`. */
  function ApplyTanh(g: Graph, self: nat, th: real -> real): (r: Built)
    requires WellFormed(g) && self < |g|
    ensures Extends(g, r) && |r.graph| == |g| + 1
    ensures r.graph[r.out] == Value(th(g[self].data), Tanh(self))
  {
    Append(g, th(g[self].data), Tanh(self))
  }
}
