/**
  The postfix evaluator of src/evaluator.rs: a stack machine over the flat
  token list. `Const(x)` pushes `x`; `Add`, `Sub`, `Mul` and `Div` pop the
  right operand (the top) and then the left one and push the result; any
  other token is `NotImplemented`. The answer is the top of the final stack.

  The values are of any type `V`, and the arithmetic is a parameter `ops`:
  what `f32` addition, subtraction, multiplication and division do (rounding,
  division by zero, NaN) is not part of this model.

  `Run` is the specification: the stack after a token list, or the first
  error. `Evaluate` is proved to agree with it (through `Evaluation`), and
  the lemmas below state the stack discipline.
*/
module Evaluator {

  import opened Wrappers
  import opened FlatTokens

  datatype EvalError = MissingArgument | MissingResult | NotImplemented

  /** The four binary operations, each taking the left operand first. */
  datatype Arith<!V> = Arith(add: (V, V) -> V, sub: (V, V) -> V, mul: (V, V) -> V, div: (V, V) -> V)

  /** `lhs op rhs` for an arithmetic token. */
  function Apply<V>(ops: Arith<V>, t: Token<V>, lhs: V, rhs: V): V
    requires t.IsArithmetic()
  {
    match t
    case Add => ops.add(lhs, rhs)
    case Sub => ops.sub(lhs, rhs)
    case Mul => ops.mul(lhs, rhs)
    case Div => ops.div(lhs, rhs)
  }

  /** One token applied to the stack, whose top is its last element. */
  function Step<V>(ops: Arith<V>, stack: seq<V>, t: Token<V>): Result<seq<V>, EvalError> {
    match t
    case Const(x) => Ok(stack + [x])
    case Add | Sub | Mul | Div =>
      if |stack| < 2 then Err(MissingArgument)
      else Ok(stack[..|stack| - 2] + [Apply(ops, t, stack[|stack| - 2], stack[|stack| - 1])])
    case _ => Err(NotImplemented)
  }

  /** An operator with two values to pop replaces them by `lhs op rhs`. */
  lemma StepArithmetic<V>(ops: Arith<V>, stack: seq<V>, t: Token<V>)
    requires t.IsArithmetic() && |stack| >= 2
    ensures Step(ops, stack, t) == Ok(stack[..|stack| - 2] + [Apply(ops, t, stack[|stack| - 2], stack[|stack| - 1])])
  {
    match t {
      case Add =>
      case Sub =>
      case Mul =>
      case Div =>
    }
  }

  /** The stack after running `ts` from `stack`, or the first error. */
  function Run<V>(ops: Arith<V>, stack: seq<V>, ts: seq<Token<V>>): Result<seq<V>, EvalError>
    decreases |ts|
  {
    if |ts| == 0 then Ok(stack)
    else
      match Step(ops, stack, ts[0])
      case Ok(next) => Run(ops, next, ts[1..])
      case Err(e) => Err(e)
  }

  /** The result of `evaluate`: the top of the final stack. */
  function Evaluation<V>(ops: Arith<V>, ts: seq<Token<V>>): Result<V, EvalError> {
    match Run(ops, [], ts)
    case Err(e) => Err(e)
    case Ok(stack) => if |stack| == 0 then Err(MissingResult) else Ok(stack[|stack| - 1])
  }

  /** `evaluate`, with an early return on the first error. */
  method Evaluate<V>(ops: Arith<V>, postfixTokens: seq<Token<V>>) returns (r: Result<V, EvalError>)
    ensures r == Evaluation(ops, postfixTokens)
  {
    var evalStack: seq<V> := [];
    for i := 0 to |postfixTokens|
      invariant Run(ops, [], postfixTokens) == Run(ops, evalStack, postfixTokens[i..])
    {
      var token := postfixTokens[i];
      assert postfixTokens[i..][0] == token && postfixTokens[i..][1..] == postfixTokens[i + 1..];
      ghost var before := evalStack;
      match token {
        case Const(x) =>
          evalStack := evalStack + [x];
        case Add | Sub | Mul | Div =>
          if |evalStack| == 0 {
            return Err(MissingArgument);
          }
          var n1 := evalStack[|evalStack| - 1];
          evalStack := evalStack[..|evalStack| - 1];
          if |evalStack| == 0 {
            return Err(MissingArgument);
          }
          var n2 := evalStack[|evalStack| - 1];
          evalStack := evalStack[..|evalStack| - 1];
          evalStack := evalStack + [Apply(ops, token, n2, n1)];
          assert before[..|before| - 2] == before[..|before| - 1][..|before| - 2];
          StepArithmetic(ops, before, token);
        case _ =>
          return Err(NotImplemented);
      }
    }
    if |evalStack| == 0 {
      return Err(MissingResult);
    }
    return Ok(evalStack[|evalStack| - 1]);
  }

  // ---------------------------------------------------------------------------
  // The stack discipline
  // ---------------------------------------------------------------------------

  /** Number of `Const` tokens minus number of binary operators. */
  function Balance<V>(ts: seq<Token<V>>): int {
    if |ts| == 0 then 0
    else (if ts[0].Const? then 1 else if ts[0].IsArithmetic() then -1 else 0) + Balance(ts[1..])
  }

  /** While no error has occurred, the stack height is the number of
      constants seen minus the number of operators seen. */
  lemma {:induction false} StackHeight<V>(ops: Arith<V>, stack: seq<V>, ts: seq<Token<V>>)
    ensures Run(ops, stack, ts).Ok? ==> |Run(ops, stack, ts).value| == |stack| + Balance(ts)
    decreases |ts|
  {
    if |ts| > 0 {
      var s := Step(ops, stack, ts[0]);
      if s.Ok? {
        StackHeight(ops, s.value, ts[1..]);
      }
    }
  }

  /** Token `ts[k]` can run: a constant, or an operator that finds at least two
      values on the stack left by `ts[..k]`. */
  predicate CanRun<V>(height: nat, ts: seq<Token<V>>, k: nat)
    requires k < |ts|
  {
    ts[k].Const? || (ts[k].IsArithmetic() && height + Balance(ts[..k]) >= 2)
  }

  lemma BalanceOfPrefix<V>(ts: seq<Token<V>>, k: nat)
    requires 0 < k <= |ts|
    ensures Balance(ts[..k]) == Balance([ts[0]]) + Balance(ts[1..][..k - 1])
  {
    assert ts[..k][1..] == ts[1..][..k - 1];
    assert [ts[0]][1..] == [];
  }

  /** A run succeeds exactly when every token is a constant or an operator
      with two values to pop. */
  lemma {:induction false} RunSucceedsIff<V>(ops: Arith<V>, stack: seq<V>, ts: seq<Token<V>>)
    ensures Run(ops, stack, ts).Ok? <==> forall k :: 0 <= k < |ts| ==> CanRun(|stack|, ts, k)
    decreases |ts|
  {
    if |ts| > 0 {
      var s := Step(ops, stack, ts[0]);
      assert CanRun(|stack|, ts, 0) <==> s.Ok? by {
        assert ts[..0] == [];
      }
      if s.Ok? {
        var next := s.value;
        assert |next| == |stack| + Balance([ts[0]]);
        RunSucceedsIff(ops, next, ts[1..]);
        forall k | 1 <= k < |ts|
          ensures CanRun(|stack|, ts, k) <==> CanRun(|next|, ts[1..], k - 1)
        {
          BalanceOfPrefix(ts, k);
        }
        if forall k :: 0 <= k < |ts| ==> CanRun(|stack|, ts, k) {
          forall k | 0 <= k < |ts[1..]| ensures CanRun(|next|, ts[1..], k) {
            assert CanRun(|stack|, ts, k + 1);
          }
        } else {
          var k :| 0 <= k < |ts| && !CanRun(|stack|, ts, k);
          assert !CanRun(|next|, ts[1..], k - 1);
        }
      }
    }
  }

  /** The first token that cannot run decides the error: an operator short of
      values gives `MissingArgument`, any token that is neither a constant nor
      an operator (`Pow`, a bracket, a name) gives `NotImplemented`. */
  lemma {:induction false} FirstBadTokenDecidesError<V>(ops: Arith<V>, stack: seq<V>, ts: seq<Token<V>>, k: nat)
    requires k < |ts|
    requires forall j :: 0 <= j < k ==> CanRun(|stack|, ts, j)
    requires !CanRun(|stack|, ts, k)
    ensures Run(ops, stack, ts) == Err(if ts[k].IsArithmetic() then MissingArgument else NotImplemented)
    decreases |ts|
  {
    var s := Step(ops, stack, ts[0]);
    if k == 0 {
      assert ts[..0] == [];
    } else {
      assert CanRun(|stack|, ts, 0);
      assert ts[..0] == [];
      var next := s.value;
      assert |next| == |stack| + Balance([ts[0]]);
      forall j | 0 <= j < k - 1 ensures CanRun(|next|, ts[1..], j) {
        BalanceOfPrefix(ts, j + 1);
        assert CanRun(|stack|, ts, j + 1);
      }
      BalanceOfPrefix(ts, k);
      FirstBadTokenDecidesError(ops, next, ts[1..], k - 1);
    }
  }

  /** Values below the stack a run starts from are neither read nor changed. */
  lemma {:induction false} RunIgnoresDeeperValues<V>(ops: Arith<V>, base: seq<V>, stack: seq<V>, ts: seq<Token<V>>)
    requires Run(ops, stack, ts).Ok?
    ensures Run(ops, base + stack, ts) == Ok(base + Run(ops, stack, ts).value)
    decreases |ts|
  {
    if |ts| > 0 {
      var next := Step(ops, stack, ts[0]).value;
      StepIgnoresDeeperValues(ops, base, stack, ts[0]);
      RunIgnoresDeeperValues(ops, base, next, ts[1..]);
    }
  }

  /** One token that applies to `stack` applies the same way with `base`
      underneath it. */
  lemma StepIgnoresDeeperValues<V>(ops: Arith<V>, base: seq<V>, stack: seq<V>, t: Token<V>)
    requires Step(ops, stack, t).Ok?
    ensures Step(ops, base + stack, t) == Ok(base + Step(ops, stack, t).value)
  {
    if t.Const? {
      assert (base + stack) + [t.value] == base + (stack + [t.value]);
    } else {
      var n := |stack|;
      var m := |base + stack|;
      StepArithmetic(ops, stack, t);
      StepArithmetic(ops, base + stack, t);
      assert (base + stack)[m - 2] == stack[n - 2] && (base + stack)[m - 1] == stack[n - 1];
      assert (base + stack)[..m - 2] == base + stack[..n - 2];
      var v := Apply(ops, t, stack[n - 2], stack[n - 1]);
      assert (base + stack[..n - 2]) + [v] == base + (stack[..n - 2] + [v]);
    }
  }

  /** Running `a + b` is running `a`, then `b` from where `a` left the stack. */
  lemma {:induction false} RunAppend<V>(ops: Arith<V>, stack: seq<V>, a: seq<Token<V>>, b: seq<Token<V>>)
    ensures Run(ops, stack, a + b)
         == match Run(ops, stack, a) case Ok(mid) => Run(ops, mid, b) case Err(e) => Err(e)
    decreases |a|
  {
    if |a| == 0 {
      assert a + b == b;
    } else {
      assert (a + b)[0] == a[0] && (a + b)[1..] == a[1..] + b;
      var s := Step(ops, stack, a[0]);
      if s.Ok? {
        RunAppend(ops, s.value, a[1..], b);
      }
    }
  }

  /** Postfix composition: if `a` and `b` each evaluate to one value, then
      `a`, `b`, operator evaluates to `valueOf(a) op valueOf(b)`; the deeper
      value is the left operand. */
  lemma Compose<V>(ops: Arith<V>, a: seq<Token<V>>, b: seq<Token<V>>, op: Token<V>, x: V, y: V)
    requires op.IsArithmetic()
    requires Run(ops, [], a) == Ok([x]) && Run(ops, [], b) == Ok([y])
    ensures Evaluation(ops, a + b + [op]) == Ok(Apply(ops, op, x, y))
  {
    RunAppend(ops, [], a + b, [op]);
    RunAppend(ops, [], a, b);
    RunIgnoresDeeperValues(ops, [x], [], b);
    var empty: seq<V> := [];
    assert [x] + empty == [x];
    assert [x] + [y] == [x, y];
    var last := [op];
    assert |last[1..]| == 0;
    StepArithmetic(ops, [x, y], op);
    assert [x, y][..0] == [];
  }

  /** The pop order: `x y op` evaluates to `x op y`. The first value popped
      (`n1`, the top, here `y`) is the right operand and the second (`n2`,
      here `x`) the left one, so `-` and `/` are not swapped. */
  lemma PopOrder<V>(ops: Arith<V>, x: V, y: V, op: Token<V>)
    requires op.IsArithmetic()
    ensures Evaluation(ops, [Const(x), Const(y), op]) == Ok(Apply(ops, op, x, y))
    ensures op == Sub ==> Evaluation(ops, [Const(x), Const(y), op]) == Ok(ops.sub(x, y))
    ensures op == Div ==> Evaluation(ops, [Const(x), Const(y), op]) == Ok(ops.div(x, y))
  {
    var a, b := [Const(x)], [Const(y)];
    var empty: seq<V> := [];
    assert empty + [x] == [x] && empty + [y] == [y];
    assert Run(ops, [], a) == Ok([x]);
    assert Run(ops, [], b) == Ok([y]);
    Compose(ops, a, b, op, x, y);
    assert a + b + [op] == [Const(x), Const(y), op];
  }

  /** Concrete runs: one constant; `a b -`; two constants, where the deeper
      one is discarded; a lone operator. */
  lemma Examples<V>(ops: Arith<V>, a: V, b: V)
    ensures Evaluation(ops, [Const(a)]) == Ok(a)
    ensures Evaluation(ops, [Const(a), Const(b), Sub]) == Ok(ops.sub(a, b))
    ensures Evaluation(ops, [Const(a), Const(b)]) == Ok(b)
    ensures Evaluation<V>(ops, [Add]) == Err(MissingArgument)
    ensures Evaluation(ops, [Const(a), Const(b), Pow]) == Err(NotImplemented)
    ensures Evaluation<V>(ops, []) == Err(MissingResult)
  {
    var sub, pow := [Const(a), Const(b), Sub], [Const(a), Const(b), Pow];
    var empty: seq<V> := [];
    assert empty + [a] == [a] && [a] + [b] == [a, b];
    assert Run(ops, [], [Const(a)]) == Ok([a]);
    assert Run(ops, [a, b], [Sub]) == Ok([ops.sub(a, b)]) by {
      StepArithmetic(ops, [a, b], Sub);
      assert [a, b][..0] + [ops.sub(a, b)] == [ops.sub(a, b)];
    }
    assert Run(ops, [], sub) == Ok([ops.sub(a, b)]) by {
      assert sub[1..] == [Const(b), Sub] && sub[1..][1..] == [Sub];
    }
    assert Run(ops, [], [Const(a), Const(b)]) == Ok([a, b]) by {
      assert [Const(a), Const(b)][1..] == [Const(b)];
      assert Run(ops, [a], [Const(b)]) == Ok([a, b]);
    }
    assert Run(ops, [], pow) == Err(NotImplemented) by {
      assert pow[1..] == [Const(b), Pow] && pow[1..][1..] == [Pow];
      assert Run(ops, [a, b], [Pow]) == Err(NotImplemented);
      assert Run(ops, [a], [Const(b), Pow]) == Err(NotImplemented);
    }
  }
}
