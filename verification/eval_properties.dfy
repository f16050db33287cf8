/** What the evaluator promises: expression results, the `^` loop, the
    effect of each statement and the meaning of a whole run. */
module EvalProperties {
  import opened Wrappers
  import opened Float64
  import opened Object
  import opened Ast
  import opened Eval

  // ----- Expressions -------------------------------------------------------

  /** An identifier reads its binding, and fails exactly when it is unbound. */
  lemma IdentLookup(ops: Ops, env: Env, name: string)
    ensures EvalExpr(ops, env, Ident(name)).Ok? <==> name in env
    ensures name in env ==> EvalExpr(ops, env, Ident(name)) == Ok(env[name])
    ensures name !in env ==> EvalExpr(ops, env, Ident(name)) == Err(UndefinedVariable(name))
  {
  }

  /** Distinct literals evaluate to distinct values. */
  lemma LiteralOneToOne(ops: Ops, env: Env, a: Literal, b: Literal)
    ensures EvalExpr(ops, env, Lit(a)).Ok? && EvalExpr(ops, env, Lit(b)).Ok?
    ensures EvalExpr(ops, env, Lit(a)) == EvalExpr(ops, env, Lit(b)) <==> a == b
  {
  }

  /** The left operand is evaluated first: its failure is the result, and
      the right operand's failure comes next, before any operator runs. */
  lemma LeftOperandFirst(ops: Ops, env: Env, op: string, left: Expr, right: Expr)
    ensures EvalExpr(ops, env, left).Err? ==>
              EvalExpr(ops, env, BinExp(op, left, right)) == Err(EvalExpr(ops, env, left).error)
    ensures EvalExpr(ops, env, left).Ok? && EvalExpr(ops, env, right).Err? ==>
              EvalExpr(ops, env, BinExp(op, left, right)) == Err(EvalExpr(ops, env, right).error)
  {
  }

  /** An operator outside `+ - * / % ^` fails once both operands have been
      evaluated. */
  lemma UnknownOperatorFails(ops: Ops, env: Env, op: string, left: Expr, right: Expr)
    requires op !in OPERATORS
    ensures EvalExpr(ops, env, BinExp(op, left, right)).Err?
    ensures EvalExpr(ops, env, left).Ok? && EvalExpr(ops, env, right).Ok? ==>
              EvalExpr(ops, env, BinExp(op, left, right)) == Err(UnexpectedOperator(op))
  {
  }

  /** `+ - * / %` hand both operand values, left first, to Object's operator. */
  lemma ArithmeticDispatch(ops: Ops, env: Env, op: string, left: Expr, right: Expr, l: Value, r: Value)
    requires EvalExpr(ops, env, left) == Ok(l) && EvalExpr(ops, env, right) == Ok(r)
    ensures op == "+" ==> EvalExpr(ops, env, BinExp(op, left, right)) == Apply(ops.add, op, l, r)
    ensures op == "-" ==> EvalExpr(ops, env, BinExp(op, left, right)) == Apply(ops.sub, op, l, r)
    ensures op == "*" ==> EvalExpr(ops, env, BinExp(op, left, right)) == Apply(ops.mul, op, l, r)
    ensures op == "/" ==> EvalExpr(ops, env, BinExp(op, left, right)) == Apply(ops.div, op, l, r)
    ensures op == "%" ==> EvalExpr(ops, env, BinExp(op, left, right)) == Apply(ops.rem, op, l, r)
  {
  }

  // ----- Exponentiation ----------------------------------------------------

  /** `^` with a string or `Void` exponent fails. */
  lemma PowerRejectsNonNumericExponent(ops: Ops, env: Env, left: Expr, right: Expr, l: Value, r: Value)
    requires EvalExpr(ops, env, left) == Ok(l) && EvalExpr(ops, env, right) == Ok(r)
    requires r.Void? || r.Str?
    ensures EvalExpr(ops, env, BinExp("^", left, right)) == Err(NonIntegerExponent(r))
  {
  }

  /** `^` runs the multiplication loop on the exponent as an integer: an Int
      as it is, a Float through `as i64`. A zero or negative exponent runs
      no iteration and gives `Int(1)`, whatever the left operand is. */
  lemma PowerExponent(ops: Ops, env: Env, left: Expr, right: Expr, l: Value, r: Value)
    requires EvalExpr(ops, env, left) == Ok(l) && EvalExpr(ops, env, right) == Ok(r)
    ensures r.Int? ==> EvalExpr(ops, env, BinExp("^", left, right)) == Power(ops, l, r.i)
    ensures r.Float? ==> EvalExpr(ops, env, BinExp("^", left, right)) == Power(ops, l, ToI64(r.f))
    ensures r.Int? && r.i <= 0 ==> EvalExpr(ops, env, BinExp("^", left, right)) == Ok(Int(1))
  {
  }

  /** A Float exponent of magnitude below 1 (including NaN) casts to 0, so
      `^` gives `Int(1)`. */
  lemma PowerFractionalExponent(ops: Ops, env: Env, left: Expr, right: Expr, l: Value, f: F64)
    requires EvalExpr(ops, env, left) == Ok(l) && EvalExpr(ops, env, right) == Ok(Float(f))
    requires f.IsNaN() || (f.IsFinite() && -1.0 < RealValue(f) < 1.0)
    ensures EvalExpr(ops, env, BinExp("^", left, right)) == Ok(Int(1))
  {
    if f.IsFinite() {
      TruncatedMagnitudeIsFloor(f);
      assert ToI64(f) == 0;
    }
  }

  /** Object's `*` multiplies Int operands as integers. */
  ghost predicate IntMulIsProduct(ops: Ops) {
    forall a: int, b: int :: ops.mul(Int(a), Int(b)) == Some(Int(a * b))
  }

  function IntPow(b: int, n: nat): int {
    if n == 0 then 1 else IntPow(b, n - 1) * b
  }

  /** When `*` on Ints is the integer product, the `^` loop with a
      non-negative Int exponent is integer exponentiation. */
  lemma {:induction false} PowerOfInt(ops: Ops, b: int, n: nat)
    requires IntMulIsProduct(ops)
    ensures Power(ops, Int(b), n) == Ok(Int(IntPow(b, n)))
  {
    if n > 0 {
      PowerOfInt(ops, b, n - 1);
      assert ops.mul(Int(IntPow(b, n - 1)), Int(b)) == Some(Int(IntPow(b, n - 1) * b));
    }
  }

  /** `2 ^ 3` is `8` when `*` on Ints is the integer product. */
  lemma TwoCubed(ops: Ops, env: Env)
    requires IntMulIsProduct(ops)
    ensures EvalExpr(ops, env, BinExp("^", Lit(IntLit(2)), Lit(IntLit(3)))) == Ok(Int(8))
  {
    PowerOfInt(ops, 2, 3);
  }

  // ----- Dependence on the environment -------------------------------------

  /** Two environments that agree on the names an expression reads. */
  ghost predicate AgreeOn(env1: Env, env2: Env, names: set<string>) {
    forall x :: x in names ==> (x in env1 <==> x in env2) && (x in env1 ==> env1[x] == env2[x])
  }

  /** An expression's result depends only on the bindings of its free names. */
  lemma {:induction false} EvalExprFrame(ops: Ops, env1: Env, env2: Env, e: Expr)
    requires AgreeOn(env1, env2, FreeVars(e))
    ensures EvalExpr(ops, env1, e) == EvalExpr(ops, env2, e)
  {
    match e
    case Ident(_) =>
    case Lit(_) =>
    case BinExp(op, left, right) =>
      EvalExprFrame(ops, env1, env2, left);
      EvalExprFrame(ops, env1, env2, right);
  }

  // ----- Statements --------------------------------------------------------

  /** An assignment succeeds exactly when its expression does; it returns
      the value and binds it to the target, replacing only that binding. */
  lemma AssignBinds(ops: Ops, env: Env, x: string, e: Expr)
    ensures EvalStmt(ops, env, Assign(x, e)).Ok? <==> EvalExpr(ops, env, e).Ok?
    ensures EvalExpr(ops, env, e).Ok? ==>
              EvalStmt(ops, env, Assign(x, e)) == Ok((env[x := EvalExpr(ops, env, e).value], EvalExpr(ops, env, e).value))
    ensures EvalExpr(ops, env, e).Err? ==> EvalStmt(ops, env, Assign(x, e)) == Err(EvalExpr(ops, env, e).error)
  {
    var r := EvalExpr(ops, env, e);
    if r.Ok? {
      StorePlaceholderOverwritten(env, x, r.value);
    }
  }

  /** The `Void` placeholder of `or_insert` is always overwritten: storing
      is a plain map update. */
  lemma StorePlaceholderOverwritten(env: Env, x: string, v: Value)
    ensures Store(env, x, v) == env[x := v]
  {
  }

  /** An expression statement returns its expression's result, or fails
      with its expression's error, and leaves the environment as it was. */
  lemma ExprStmtPure(ops: Ops, env: Env, e: Expr)
    ensures EvalStmt(ops, env, ExprStmt(e)).Ok? <==> EvalExpr(ops, env, e).Ok?
    ensures EvalExpr(ops, env, e).Ok? ==> EvalStmt(ops, env, ExprStmt(e)) == Ok((env, EvalExpr(ops, env, e).value))
    ensures EvalExpr(ops, env, e).Err? ==> EvalStmt(ops, env, ExprStmt(e)) == Err(EvalExpr(ops, env, e).error)
  {
  }

  // ----- Programs ----------------------------------------------------------

  /** `envs` and `vs` record a run of `p`: statement i, evaluated in
      `envs[i]`, leaves `envs[i + 1]` and yields `vs[i]`. */
  ghost predicate IsRun(ops: Ops, envs: seq<Env>, p: Program, vs: seq<Value>) {
    && |envs| == |p| + 1
    && |vs| == |p|
    && forall i :: 0 <= i < |p| ==> EvalStmt(ops, envs[i], p[i]) == Ok((envs[i + 1], vs[i]))
  }

  /** A successful `eval` is a run: one value per statement, each statement
      evaluated in order in the environment its predecessors left. */
  lemma {:induction false} EvalProgramIsRun(ops: Ops, env: Env, p: Program)
    requires EvalProgram(ops, env, p).Ok?
    ensures exists envs :: IsRun(ops, envs, p, EvalProgram(ops, env, p).value.1)
                           && envs[0] == env && envs[|p|] == EvalProgram(ops, env, p).value.0
    decreases |p|
  {
    var r := EvalProgram(ops, env, p).value;
    if |p| == 0 {
      assert IsRun(ops, [env], p, r.1);
    } else {
      var first := EvalStmt(ops, env, p[0]).value;
      var rest := EvalProgram(ops, first.0, p[1..]).value;
      EvalProgramIsRun(ops, first.0, p[1..]);
      var envs :| IsRun(ops, envs, p[1..], rest.1) && envs[0] == first.0 && envs[|p| - 1] == rest.0;
      var all := [env] + envs;
      assert r.1 == [first.1] + rest.1;
      forall i | 0 <= i < |p|
        ensures EvalStmt(ops, all[i], p[i]) == Ok((all[i + 1], r.1[i]))
      {
        if i > 0 {
          assert p[i] == p[1..][i - 1];
        }
      }
      assert IsRun(ops, all, p, r.1);
    }
  }

  /** Conversely, every run is what `eval` computes. */
  lemma {:induction false} RunIsEvalProgram(ops: Ops, envs: seq<Env>, p: Program, vs: seq<Value>)
    requires IsRun(ops, envs, p, vs)
    ensures EvalProgram(ops, envs[0], p) == Ok((envs[|p|], vs))
    decreases |p|
  {
    if |p| > 0 {
      var envs', p', vs' := envs[1..], p[1..], vs[1..];
      forall i | 0 <= i < |p'|
        ensures EvalStmt(ops, envs'[i], p'[i]) == Ok((envs'[i + 1], vs'[i]))
      {
        assert EvalStmt(ops, envs[i + 1], p[i + 1]) == Ok((envs[i + 2], vs[i + 1]));
      }
      RunIsEvalProgram(ops, envs', p', vs');
      assert EvalStmt(ops, envs[0], p[0]) == Ok((envs[1], vs[0]));
      assert vs == [vs[0]] + vs';
    }
  }

  /** Statement `k` fails with `err` after statements `0..k` succeeded. */
  ghost predicate FailsAt(ops: Ops, env: Env, p: Program, k: int, err: Error) {
    && 0 <= k < |p|
    && EvalProgram(ops, env, p[..k]).Ok?
    && EvalStmt(ops, EvalProgram(ops, env, p[..k]).value.0, p[k]) == Err(err)
  }

  /** A failed `eval` is the failure of one statement after all earlier ones
      succeeded: the run aborts with that statement's error. */
  lemma {:induction false} EvalProgramFailsAtStatement(ops: Ops, env: Env, p: Program)
    requires EvalProgram(ops, env, p).Err?
    ensures exists k :: FailsAt(ops, env, p, k, EvalProgram(ops, env, p).error)
    decreases |p|
  {
    var err := EvalProgram(ops, env, p).error;
    var first := EvalStmt(ops, env, p[0]);
    if first.Err? {
      assert EvalProgram(ops, env, p[..0]) == Ok((env, []));
      assert FailsAt(ops, env, p, 0, err);
    } else {
      var q := p[1..];
      EvalProgramFailsAtStatement(ops, first.value.0, q);
      var k :| FailsAt(ops, first.value.0, q, k, err);
      assert p[..k + 1] == [p[0]] + q[..k];
      EvalProgramCons(ops, env, p[0], q[..k]);
      assert p[k + 1] == q[k];
      assert FailsAt(ops, env, p, k + 1, err);
    }
  }

  /** Conversely, a statement that fails after its predecessors succeeded
      aborts the whole run with its error. */
  lemma FailureAborts(ops: Ops, env: Env, p: Program, k: int, err: Error)
    requires FailsAt(ops, env, p, k, err)
    ensures EvalProgram(ops, env, p) == Err(err)
  {
    EvalProgramConcat(ops, env, p[..k], p[k..]);
    assert p[..k] + p[k..] == p;
    var env1 := EvalProgram(ops, env, p[..k]).value.0;
    assert p[k..][0] == p[k];
  }

  /** One successful statement followed by a successful rest. */
  lemma StepThen(ops: Ops, env: Env, s: Statement, rest: Program, env1: Env, v: Value, env2: Env, vs: seq<Value>)
    requires EvalStmt(ops, env, s) == Ok((env1, v))
    requires EvalProgram(ops, env1, rest) == Ok((env2, vs))
    ensures EvalProgram(ops, env, [s] + rest) == Ok((env2, [v] + vs))
  {
  }

  /** Reading `x` right after assigning it yields the assigned value. */
  lemma AssignThenRead(ops: Ops, env: Env, x: string, e: Expr, v: Value)
    requires EvalExpr(ops, env, e) == Ok(v)
    ensures EvalProgram(ops, env, [Assign(x, e), ExprStmt(Ident(x))]) == Ok((env[x := v], [v, v]))
  {
    AssignBinds(ops, env, x, e);
    var env1 := env[x := v];
    var read := ExprStmt(Ident(x));
    StepThen(ops, env1, read, [], env1, v, env1, []);
    assert [read] + [] == [read] && [v] + [] == [v];
    StepThen(ops, env, Assign(x, e), [read], env1, v, env1, [v]);
    assert [Assign(x, e)] + [read] == [Assign(x, e), read] && [v] + [v] == [v, v];
  }

  /** Re-evaluating an expression statement after an assignment to a name
      it does not read yields the same value. */
  lemma ReevaluationUnaffected(ops: Ops, env: Env, e: Expr, x: string, e2: Expr, v: Value, w: Value)
    requires x !in FreeVars(e)
    requires EvalExpr(ops, env, e) == Ok(v) && EvalExpr(ops, env, e2) == Ok(w)
    ensures EvalProgram(ops, env, [ExprStmt(e), Assign(x, e2), ExprStmt(e)]) == Ok((env[x := w], [v, w, v]))
  {
    var env1 := env[x := w];
    AssignBinds(ops, env, x, e2);
    EvalExprFrame(ops, env, env1, e);
    StepThen(ops, env1, ExprStmt(e), [], env1, v, env1, []);
    assert [ExprStmt(e)] + [] == [ExprStmt(e)] && [v] + [] == [v];
    StepThen(ops, env, Assign(x, e2), [ExprStmt(e)], env1, w, env1, [v]);
    assert [Assign(x, e2)] + [ExprStmt(e)] == [Assign(x, e2), ExprStmt(e)] && [w] + [v] == [w, v];
    StepThen(ops, env, ExprStmt(e), [Assign(x, e2), ExprStmt(e)], env, v, env1, [w, v]);
    assert [v] + [w, v] == [v, w, v];
    assert [ExprStmt(e)] + [Assign(x, e2), ExprStmt(e)] == [ExprStmt(e), Assign(x, e2), ExprStmt(e)];
  }

  // ----- The Void placeholder ----------------------------------------------

  ghost predicate NoVoid(env: Env) {
    forall x :: x in env ==> env[x] != Void
  }

  /** Object's operator never produces `Void` from non-`Void` operands. */
  ghost predicate KeepsNonVoid(f: Operator) {
    forall a, b :: a != Void && b != Void && f(a, b).Some? ==> f(a, b).value != Void
  }

  ghost predicate OpsKeepNonVoid(ops: Ops) {
    KeepsNonVoid(ops.add) && KeepsNonVoid(ops.sub) && KeepsNonVoid(ops.mul)
    && KeepsNonVoid(ops.div) && KeepsNonVoid(ops.rem)
  }

  lemma {:induction false} PowerNonVoid(ops: Ops, l: Value, n: int)
    requires KeepsNonVoid(ops.mul) && l != Void
    requires Power(ops, l, n).Ok?
    ensures Power(ops, l, n).value != Void
    decreases if n > 0 then n else 0
  {
    if n > 0 {
      PowerNonVoid(ops, l, n - 1);
    }
  }

  lemma {:induction false} EvalExprNonVoid(ops: Ops, env: Env, e: Expr)
    requires OpsKeepNonVoid(ops) && NoVoid(env)
    requires EvalExpr(ops, env, e).Ok?
    ensures EvalExpr(ops, env, e).value != Void
  {
    match e
    case Ident(_) =>
    case Lit(_) =>
    case BinExp(op, left, right) =>
      EvalExprNonVoid(ops, env, left);
      EvalExprNonVoid(ops, env, right);
      var l, r := EvalExpr(ops, env, left).value, EvalExpr(ops, env, right).value;
      if op == "^" {
        PowerNonVoid(ops, l, ExponentOf(r).value);
      }
  }

  /** Starting from an environment without `Void`, and with operators that
      never produce it, no run ever shows the `Void` placeholder: neither in
      a result nor in the environment it leaves. */
  lemma {:induction false} VoidNeverObservable(ops: Ops, env: Env, p: Program)
    requires OpsKeepNonVoid(ops) && NoVoid(env)
    requires EvalProgram(ops, env, p).Ok?
    ensures NoVoid(EvalProgram(ops, env, p).value.0)
    ensures forall i :: 0 <= i < |p| ==> EvalProgram(ops, env, p).value.1[i] != Void
    decreases |p|
  {
    if |p| > 0 {
      var s := p[0];
      match s {
        case Assign(_, e) => EvalExprNonVoid(ops, env, e);
        case ExprStmt(e) => EvalExprNonVoid(ops, env, e);
      }
      var first := EvalStmt(ops, env, s).value;
      VoidNeverObservable(ops, first.0, p[1..]);
    }
  }

  // ----- A worked example --------------------------------------------------

  /** Object's `+` adds Int operands as integers. */
  ghost predicate IntAddIsSum(ops: Ops) {
    forall a: int, b: int :: ops.add(Int(a), Int(b)) == Some(Int(a + b))
  }

  /** `x = 2; y = x + 3; y` on a fresh evaluator yields `[2, 5, 5]`. */
  lemma AssignAddRead(ops: Ops)
    requires IntAddIsSum(ops)
    ensures EvalProgram(ops, EMPTY, [Assign("x", Lit(IntLit(2))),
                                     Assign("y", BinExp("+", Ident("x"), Lit(IntLit(3)))),
                                     ExprStmt(Ident("y"))])
            == Ok((map["x" := Int(2), "y" := Int(5)], [Int(2), Int(5), Int(5)]))
  {
    var s1, s2, s3 := Assign("x", Lit(IntLit(2))),
                      Assign("y", BinExp("+", Ident("x"), Lit(IntLit(3)))),
                      ExprStmt(Ident("y"));
    var env1 := map["x" := Int(2)];
    var env2 := map["x" := Int(2), "y" := Int(5)];
    AssignBinds(ops, EMPTY, "x", s1.value);
    assert EMPTY["x" := Int(2)] == env1;
    assert ops.add(Int(2), Int(3)) == Some(Int(5));
    AssignBinds(ops, env1, "y", s2.value);
    assert env1["y" := Int(5)] == env2;
    StepThen(ops, env2, s3, [], env2, Int(5), env2, []);
    assert [s3] + [] == [s3] && [Int(5)] + [] == [Int(5)];
    StepThen(ops, env1, s2, [s3], env2, Int(5), env2, [Int(5)]);
    assert [s2] + [s3] == [s2, s3] && [Int(5)] + [Int(5)] == [Int(5), Int(5)];
    StepThen(ops, EMPTY, s1, [s2, s3], env1, Int(2), env2, [Int(5), Int(5)]);
    assert [s1] + [s2, s3] == [s1, s2, s3] && [Int(2)] + [Int(5), Int(5)] == [Int(2), Int(5), Int(5)];
  }
}
