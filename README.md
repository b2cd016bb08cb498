# Scalar reverse-mode autodiff engine, in Dafny

This project models `tinygrad/engine.py`, a scalar automatic-differentiation engine. Each `Value` holds a number (`data`), a gradient (`grad`), the tuple of operands it was computed from (`_prev`) and a `_backward` closure. The arithmetic operators build an expression graph of `Value`s. `backward()` then orders the graph depth-first and runs every node's closure in reverse order. Each closure pushes the node's gradient on to its operands.

The model keeps the graph as an arena. `Values.Graph` is a sequence of nodes in creation order. Each node holds its `data` and an `Op`. The `Op` names the node's operands as arena indices, and it also fixes which backward rule the node uses (sum, product, integer power, tanh, or none for a leaf). An operand always has a smaller index than its user, so the graph is acyclic. Gradients are kept in an `array<real>` indexed like the arena, and a backward pass writes only that array.

The files are:

* `values.dfy`: nodes, operands, errors and integer powers.
* `builder.dfy`: the operators `+ - * / ** tanh`. Each is a pure function from an arena to a larger arena. A bare number operand is first wrapped into a new leaf, as the source does with `Value(other)`.
* `rules.dfy`: the four `_backward` closures.
  * `Local` is the local derivative each closure encodes.
  * `Rule` is its effect on the gradients.
  * `Fire`, `FireSum`, `FireProduct`, `FirePower` and `FireTanh` update the gradient array in place.
* `topo.dfy`: the inner `topo` walk (`Visit`, `VisitOperands`, `TopoSort`), the order it produces (`PostOrder`), and why that order is topological.
* `walk.dfy`: `Sweep`, the reverse walk over gradient values, which specifies the in-place loop.
* `backprop.dfy`: `backward()` itself, in place.
* `chain.dfy`: the chain-rule reference `Adjoint(g, o, k)`, the derivative of node o with respect to node k, and the proof that the walk computes it.
* `scenarios.dfy`: concrete expressions, including the classic `L = (a*b + c) * f` example.

The tanh rule does not add to its operand's gradient: line 76 ASSIGNS `(1 - t²)·out.grad`, while every other rule adds. The model keeps the assignment as written. The correctness theorem is therefore stated under one side condition, `ChainRule.TanhOperandsUnshared`: each tanh node that feeds the output must be the only node feeding the output that uses its operand. `Scenarios.TanhOverwriteLosesGradient` shows what goes wrong without that condition. For `y = x.tanh() + x`, the pass leaves `1 - t²` in `x.grad`, but the derivative is `2 - t²`.

## Model

| member | source | states |
|---|---|---|
| Values.RealPow | tinygrad/engine.py:64 | `x ** n` for an integer n: for negative n, the result times x to the power -n is 1; defined only when x is non-zero or n is non-negative (0 ** negative raises ZeroDivisionError) |
| Builder.Constant | tinygrad/engine.py:8-13 | `Value(x)`: appends one leaf holding x, with no operands; the arena is extended and stays well-formed |
| Builder.Wrap | tinygrad/engine.py:19 | a node operand is used as is, a number becomes one new leaf holding it; the arena before is unchanged |
| Builder.Add | tinygrad/engine.py:18-27 | `self + other`: the new node's data is the sum, its `_prev` is (self, other), a number operand is wrapped first; earlier nodes are unchanged |
| Builder.RAdd | tinygrad/engine.py:29-30 | `number + self`: a sum node with operands (self, wrapped number) and data other + self.data |
| Builder.Neg | tinygrad/engine.py:32-33 | `-self` is the product node `self * Value(-1)`: two new nodes, data -self.data |
| Builder.Sub | tinygrad/engine.py:35-36 | `self - other` is `self + (-other)`: data self - other; for a node operand a -1 leaf and a product node come first, and the sum's right operand is that product; a number is negated before wrapping |
| Builder.RSub | tinygrad/engine.py:38-39 | `number - self` is `(-self) + number`: four new nodes, in order a -1.0 leaf, the product of self and that leaf (data -self.data), a leaf holding other, and their sum (data other - self.data) |
| Builder.Mul | tinygrad/engine.py:41-50 | `self * other`: data is the product, `_prev` is (self, other), a number is wrapped first |
| Builder.RMul | tinygrad/engine.py:52-53 | `number * self`: a product node with operands (self, wrapped number) |
| Builder.Reciprocal | tinygrad/engine.py:57 | `other ** -1` for a non-zero node: one `Power(other, -1)` node whose data times other's data is 1 |
| Builder.Div | tinygrad/engine.py:55-57 | `self / other` is `self * other ** -1`: raises ZeroDivisionError exactly when other's data is 0; otherwise the product node `Product(self, power node)` has data self / other, and the power node holds the reciprocal of other; for a node operand the power node is `Power(other, -1)` (two new nodes), for a number it is `Power(leaf, -1)` over a new leaf holding the number (three new nodes) |
| Builder.RDiv | tinygrad/engine.py:59-60 | `number / self` is `(self ** -1) * number`: raises exactly when self's data is 0; otherwise three new nodes: `Power(self, -1)` holding the reciprocal of self, a leaf holding other, and their product with data other / self |
| Builder.Pow | tinygrad/engine.py:62-70 | `self ** power`: an operand that is not a number fails the assertion; 0 to a negative power raises ZeroDivisionError; otherwise one power node whose data is the power (a reciprocal for negative exponents) |
| Builder.ApplyTanh | tinygrad/engine.py:72-73 | `self.tanh()`: one node with `_prev` (self) and data th(self.data), with `math.tanh` given as th |
| Rules.Rule | tinygrad/engine.py:22-76 | the effect of a node's `_backward`: succeeds exactly when the node is not a power rule whose `data ** (power - 1)` raises, keeps the gradient count, and raises only ZeroDivisionError |
| Rules.RuleUpdate | tinygrad/engine.py:22-76 | every rule except tanh adds local derivative times out.grad to each gradient, so an operand used in both slots gains twice; the tanh rule assigns that amount to its operand and leaves the other gradients alone |
| Rules.ProductUpdate | tinygrad/engine.py:45-47 | the product rule adds other.data·out.grad to self and self.data·out.grad to other, so `x * x` gains 2x·out.grad |
| Rules.Fire | tinygrad/engine.py:101 | `node._backward()` on the gradient array: reports a raise exactly when `Rule` raises, writes nothing then, and otherwise leaves exactly `Rule`'s gradients |
| Rules.FireSum | tinygrad/engine.py:22-24 | the closure of `__add__`, in place: the array afterwards is `Rule` of the array before |
| Rules.FireProduct | tinygrad/engine.py:45-47 | the closure of `__mul__`, in place: the array afterwards is `Rule` of the array before |
| Rules.FirePower | tinygrad/engine.py:66-67 | the closure of `__pow__` when it does not raise, in place: the array afterwards is `Rule` of the array before |
| Rules.FireTanh | tinygrad/engine.py:75-76 | the closure of `tanh`, in place and assigning: the array afterwards is `Rule` of the array before |
| Topo.ReachesBelow | tinygrad/engine.py:91-93 | a node reachable through `_prev` was created no later than the node it is reached from |
| Topo.AppendKeepsPrefix | tinygrad/engine.py:95-96 | appending an unvisited node whose operands are all listed keeps the list duplicate-free, closed under operands and operands-first |
| Topo.Visit | tinygrad/engine.py:88-96 | `topo(node)`: the list it leaves is exactly `PostOrder`, the depth-first post-order taking operands left to right; it appends exactly the nodes reachable from the node that were not visited yet, each once, operands first and the node itself last; `visited` stays equal to the listed set and earlier entries are kept |
| Topo.VisitOperands | tinygrad/engine.py:91-93 | the loop over `_prev` of an unvisited node: runs `topo` on each operand left to right (`Operands`), listing exactly what the operands reach, and keeps the list a valid partial ordering without the node itself |
| Topo.TopoSort | tinygrad/engine.py:85-99 | `topo(self)` from empty `visited`/`nodes`: the order is `PostOrder(g, o, [])`, and it lists every node reachable from the output exactly once, operands before users, the output last |
| Walk.Sweep | tinygrad/engine.py:100-101 | running the listed rules last to first keeps the gradient count; a raising rule stops the walk |
| Walk.SweepCompletes | tinygrad/engine.py:100-101 | the walk completes exactly when no listed node's rule raises |
| Walk.SweepUntouched | tinygrad/engine.py:100-101 | a node that is no listed node's operand keeps its gradient through the walk |
| Backprop.OutsideUntouched | tinygrad/engine.py:98-101 | the walk over the output's ancestry never writes the output's own gradient or the gradient of a node that does not feed the output |
| Backprop.RunRules | tinygrad/engine.py:100-101 | the loop `for node in reversed(nodes)` on the array: its result and final array are those of `Sweep` |
| Backprop.NewGradients | tinygrad/engine.py:9 | `self.grad = 0.0` for every node of a fresh arena: a new array of zeros, one per node |
| Backprop.Backward | tinygrad/engine.py:81-101 | `backward()`: the order is the one `topo` builds, `PostOrder(g, o, [])`, a topological order of the ancestry; the array ends as the walk over that order seeded with output grad 1.0 gives; it raises exactly when a reachable power rule raises; the output's gradient ends at 1.0; unreachable nodes keep theirs; when no tanh operand is shared and every tanh operand starts at 0, earlier gradients are added to; and from zero gradients, with no shared tanh operand, every gradient is the exact derivative |
| ChainRule.StepAdds | tinygrad/engine.py:22-76 | a rule whose tanh operand (if any) still has gradient 0 adds local derivative times its own gradient to every node |
| ChainRule.TanhOperandUntouched | tinygrad/engine.py:75-76 | when a reachable tanh node fires, no earlier rule has written its unshared operand, so the assignment acts as an addition |
| ChainRule.WalkStep | tinygrad/engine.py:100-101 | firing the next node, whose users have all fired, keeps every gradient equal to its seed plus what the fired rules passed on |
| ChainRule.WalkInvariant | tinygrad/engine.py:100-101 | the invariant of `WalkStep` holds to the end of a completed walk |
| ChainRule.WalkAccumulates | tinygrad/engine.py:98-101 | after a completed pass in which no tanh operand is shared and every tanh operand starts at 0, each gradient is its starting value plus the chain-rule contributions of the output's ancestry, so such a second pass adds to the first |
| ChainRule.SolutionIsAdjoint | tinygrad/engine.py:81-101 | gradients that meet the accumulation equation, seeded 1 at the output and 0 elsewhere, are exactly the derivatives `Adjoint` |
| ChainRule.WalkComputesAdjoint | tinygrad/engine.py:81-101 | from all-zero gradients, a completed pass leaves every node with d(output)/d(node), and 0 for nodes that do not feed the output |
| Scenarios.SquareGradient | tinygrad/engine.py:41-50 | `x * x` builds one product node with both operands x, and x's derivative is 2x |
| Scenarios.CubeGradient | tinygrad/engine.py:62-70 | `x ** 3` has data x³ and derivative 3x² |
| Scenarios.DifferenceGradient | tinygrad/engine.py:35-36 | `a - b` has data a - b and derivatives 1 and -1 |
| Scenarios.QuotientGradient | tinygrad/engine.py:55-57 | `a / b` with b non-zero has data a / b, derivative 1/b for a and -a/b² for b |
| Scenarios.TanhOfProductGradient | tinygrad/engine.py:72-79 | `tanh(x * y)` has derivative y·(1 - t²) for x |
| Scenarios.ExpressionBuilt | tinygrad/engine.py:18-53 | `(a*b + c) * -2` with a = 2, b = -3, c = 10 builds the seven-node arena with L = -8 |
| Scenarios.ExpressionUpperAdjoints | tinygrad/engine.py:81-101 | in that arena the derivatives of L with respect to L, f, d and e are 1, 4, -2 and -2 |
| Scenarios.ExpressionAdjoints | tinygrad/engine.py:81-101 | in that arena the derivatives of L are 6, -4, -2, -2, -2, 4 and 1 |
| Scenarios.ExpressionGradients | tinygrad/engine.py:81-101 | `L.backward()` from fresh nodes leaves exactly those gradients |
| Scenarios.SquareInflow | tinygrad/engine.py:45-47 | with y's gradient at 1, the rule of `y = x * x` passes 2x on to x |
| Scenarios.SecondPassAccumulates | tinygrad/engine.py:98-101 | calling `backward()` twice on `x * x` without a reset leaves 2x after the first pass and 4x after the second |
| Scenarios.TanhSumOrder | tinygrad/engine.py:88-96 | for `x.tanh() + x` the only topological order is x, tanh, sum |
| Scenarios.TanhSumSweep | tinygrad/engine.py:75-76 | the walk there gives x the gradient 1 from the sum, which the tanh rule then overwrites with 1 - t² |
| Scenarios.TanhSumAdjoint | tinygrad/engine.py:72-79 | the derivative of `x.tanh() + x` with respect to x is 2 - t² |
| Scenarios.TanhOverwriteLosesGradient | tinygrad/engine.py:75-76 | `backward()` on `x.tanh() + x` from fresh nodes leaves x's gradient at 1 - t², one short of the derivative 2 - t² |

## Left out

- `math.tanh` is not computed: the tanh operator takes it as a function `th` on reals, and the tanh rule reads the node's stored value t.
- Floating point is modelled by exact reals: no rounding, overflow, infinities or NaN.
- Builder.Pow: only integer exponents are modelled. A float exponent, and a negative base raised to a fractional power, are not.
- A `TypeError` from an operand that is neither a `Value` nor a number is not modelled: operands are arena nodes or reals by type.
- `__repr__` and the `label` argument of `__init__` are not modelled, since they are debug output only.
- `__init__`'s `prev` argument is set only by the operators, so `Builder.Constant` models direct construction of a leaf.
- `__init__`'s `self.grad = 0.0` is not part of the builders: gradients live in an array the caller passes to `Backprop.Backward`. `Backprop.NewGradients` models it for a whole arena of fresh nodes, and the scenarios start from such an array.
- Object identity and aliasing are represented by arena indices. A `Value` shared by several expressions is one index. The arena is a value that a backward pass cannot alter, so "backward changes only gradients" holds by construction.
- Python's recursion limit in `topo` is not modelled.
- Backprop.Backward: the exact-derivative guarantee is stated only when no tanh node feeding the output shares its operand with another node feeding the output. Otherwise the assigning tanh rule gives a different result, as `Scenarios.TanhOverwriteLosesGradient` shows.
- Backprop.Backward: accumulation across passes is promised only when no tanh operand is shared and every tanh operand starts at 0. At a tanh operand the assigning rule overwrites earlier gradients instead of adding to them: for `y = x.tanh()`, a second pass leaves `1 - t²` in `x.grad`, not twice that.
- ChainRule.WalkAccumulates: stated under the same two tanh conditions, for the same reason.
- Backprop.Backward: when a power rule raises part-way through, the model returns the gradients written up to that point instead of propagating an exception.
