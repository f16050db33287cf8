/** The tree-walking evaluator: an environment from names to values threaded
    through statement and expression evaluation. Each `panic!` of the source
    is an `Err` that aborts the whole run. */
module Eval {
  import opened Wrappers
  import opened Float64
  import opened Object
  import opened Ast

  /** The evaluator's only state: the last value assigned to each name. */
  type Env = map<string, Value>

  /** The evaluator of a fresh `Eval::new()`. */
  const EMPTY: Env := map[]

  datatype Error =
    | UndefinedVariable(name: string)
    | OperatorFailed(op: string, left: Value, right: Value)
    | NonIntegerExponent(exponent: Value)
    | UnexpectedOperator(op: string)

  type Res<T> = Result<T, Error>

  /** The operator strings the evaluator dispatches on. */
  const OPERATORS: set<string> := {"+", "-", "*", "/", "%", "^"}

  function Lookup(env: Env, name: string): (r: Res<Value>)
    ensures r.Ok? <==> name in env
    ensures r.Ok? ==> r.value == env[name]
    ensures r.Err? ==> r.error == UndefinedVariable(name)
  {
    if name in env then Ok(env[name]) else Err(UndefinedVariable(name))
  }

  /** Literals become values without conversion. */
  function LiteralValue(lit: Literal): (v: Value)
    ensures v != Void
    ensures v.Int? <==> lit.IntLit?
    ensures v.Float? <==> lit.FloatLit?
    ensures v.Str? <==> lit.StrLit?
    ensures lit.IntLit? ==> v == Int(lit.i)
    ensures lit.FloatLit? ==> v == Float(lit.f)
    ensures lit.StrLit? ==> v == Str(lit.s)
  {
    match lit
    case IntLit(i) => Int(i)
    case FloatLit(f) => Float(f)
    case StrLit(s) => Str(s)
  }

  /** Writes `v` under `name` the way `entry(name).or_insert(Void)` followed
      by an overwrite does: a `Void` placeholder for a new name, then `v`. */
  function Store(env: Env, name: string, v: Value): (env': Env)
    ensures env'.Keys == env.Keys + {name}
    ensures env'[name] == v
    ensures forall y :: y in env && y != name ==> env'[y] == env[y]
  {
    var slot := if name in env then env else env[name := Void];
    slot[name := v]
  }

  /** Applies one of Object's operators; its panic becomes `OperatorFailed`. */
  function Apply(f: Operator, op: string, l: Value, r: Value): (res: Res<Value>)
    ensures res.Ok? <==> f(l, r).Some?
    ensures res.Ok? ==> res.value == f(l, r).value
    ensures res.Err? ==> res.error == OperatorFailed(op, l, r)
  {
    match f(l, r)
    case Some(v) => Ok(v)
    case None => Err(OperatorFailed(op, l, r))
  }

  /** The exponent of `^`: an Int as it is, a Float cast with `as i64`, and a
      panic for a string or `Void`. */
  function ExponentOf(r: Value): (n: Res<int>)
    ensures n.Err? <==> r.Void? || r.Str?
    ensures n.Err? ==> n.error == NonIntegerExponent(r)
    ensures r.Int? ==> n == Ok(r.i)
    ensures r.Float? ==> n == Ok(ToI64(r.f))
  {
    match r
    case Void => Err(NonIntegerExponent(r))
    case Str(_) => Err(NonIntegerExponent(r))
    case Int(v) => Ok(v)
    case Float(v) => Ok(ToI64(v))
  }

  /** `n` left-multiplications of `Int(1)` by `l` through Object's `*`:
      ((1 * l) * l) ... * l. No multiplication happens when `n <= 0`. */
  function Power(ops: Ops, l: Value, n: int): (r: Res<Value>)
    ensures r.Err? ==> r.error.OperatorFailed? && r.error.op == "*" && r.error.right == l
    decreases if n > 0 then n else 0
  {
    if n <= 0 then Ok(Int(1))
    else
      var p :- Power(ops, l, n - 1);
      Apply(ops.mul, "*", p, l)
  }

  /** The operator dispatch on the operand values. */
  function ApplyBinOp(ops: Ops, op: string, l: Value, r: Value): (res: Res<Value>)
    ensures res.Err? ==> !res.error.UndefinedVariable?
    ensures op !in OPERATORS ==> res == Err(UnexpectedOperator(op))
  {
    if op == "+" then Apply(ops.add, op, l, r)
    else if op == "-" then Apply(ops.sub, op, l, r)
    else if op == "*" then Apply(ops.mul, op, l, r)
    else if op == "/" then Apply(ops.div, op, l, r)
    else if op == "%" then Apply(ops.rem, op, l, r)
    else if op == "^" then
      var n :- ExponentOf(r);
      Power(ops, l, n)
    else Err(UnexpectedOperator(op))
  }

  /** Evaluates an expression; it reads the environment and never writes it.
      The left operand is evaluated before the right one. */
  function EvalExpr(ops: Ops, env: Env, e: Expr): (r: Res<Value>)
    ensures r.Ok? ==> FreeVars(e) <= env.Keys
    ensures r.Err? && r.error.UndefinedVariable? ==> r.error.name in FreeVars(e) - env.Keys
  {
    match e
    case Ident(name) => Lookup(env, name)
    case Lit(lit) => Ok(LiteralValue(lit))
    case BinExp(op, left, right) =>
      var l :- EvalExpr(ops, env, left);
      var r :- EvalExpr(ops, env, right);
      ApplyBinOp(ops, op, l, r)
  }

  /** An assignment stores its value and returns it; an expression
      statement only evaluates. */
  function EvalStmt(ops: Ops, env: Env, s: Statement): (r: Res<(Env, Value)>)
    ensures s.ExprStmt? && r.Ok? ==> r.value.0 == env
    ensures s.Assign? && r.Ok? ==>
              && r.value.0.Keys == env.Keys + {s.target}
              && r.value.0[s.target] == r.value.1
              && forall y :: y in env && y != s.target ==> r.value.0[y] == env[y]
  {
    match s
    case Assign(target, value) =>
      var v :- EvalExpr(ops, env, value);
      Ok((Store(env, target, v), v))
    case ExprStmt(e) =>
      var v :- EvalExpr(ops, env, e);
      Ok((env, v))
  }

  /** Evaluates the statements in order, each in the environment the
      previous ones left, collecting one value per statement. The first
      failing statement aborts the run. */
  function EvalProgram(ops: Ops, env: Env, p: Program): (r: Res<(Env, seq<Value>)>)
    ensures r.Ok? ==> |r.value.1| == |p|
    ensures r.Ok? ==> env.Keys <= r.value.0.Keys
    decreases |p|
  {
    if |p| == 0 then Ok((env, []))
    else
      var first :- EvalStmt(ops, env, p[0]);
      var rest :- EvalProgram(ops, first.0, p[1..]);
      Ok((rest.0, [first.1] + rest.1))
  }

  /** Once a multiplication of the `^` loop panics, the loop aborts with
      that panic, whatever the remaining iteration count. */
  lemma {:induction false} PowerAbortsOnce(ops: Ops, l: Value, k: int, n: int)
    requires 0 < k <= n
    requires Power(ops, l, k).Err?
    ensures Power(ops, l, n) == Power(ops, l, k)
    decreases n - k
  {
    if k < n {
      PowerAbortsOnce(ops, l, k, n - 1);
    }
  }

  /** The source's `^` loop: start from `Int(1)` and multiply by `l`, once
      per value in `0..n`. */
  method PowerLoop(ops: Ops, l: Value, n: int) returns (r: Res<Value>)
    ensures r == Power(ops, l, n)
  {
    var result := Int(1);
    var i := 0;
    while i < n
      invariant 0 <= i <= (if n > 0 then n else 0)
      invariant Power(ops, l, i) == Ok(result)
      decreases n - i
    {
      var product := Apply(ops.mul, "*", result, l);
      if product.Err? {
        PowerAbortsOnce(ops, l, i + 1, n);
        return Err(product.error);
      }
      result := product.value;
      i := i + 1;
    }
    assert Power(ops, l, 0) == Ok(Int(1));
    return Ok(result);
  }

  /** Unfolds a run whose first statement is `s`. */
  lemma EvalProgramCons(ops: Ops, env: Env, s: Statement, rest: Program)
    ensures EvalStmt(ops, env, s).Err? ==>
              EvalProgram(ops, env, [s] + rest) == Err(EvalStmt(ops, env, s).error)
    ensures EvalStmt(ops, env, s).Ok? ==>
              var first := EvalStmt(ops, env, s).value;
              var tail := EvalProgram(ops, first.0, rest);
              EvalProgram(ops, env, [s] + rest)
                == if tail.Err? then Err(tail.error) else Ok((tail.value.0, [first.1] + tail.value.1))
  {
  }

  /** Running `p` then `q` on one evaluator is running `p + q`: the
      environment the first run leaves is the one the second starts from. */
  lemma {:induction false} EvalProgramConcat(ops: Ops, env: Env, p: Program, q: Program)
    ensures EvalProgram(ops, env, p + q) ==
            match EvalProgram(ops, env, p)
            case Err(e) => Err(e)
            case Ok((env1, vs1)) =>
              match EvalProgram(ops, env1, q)
              case Err(e) => Err(e)
              case Ok((env2, vs2)) => Ok((env2, vs1 + vs2))
    decreases |p|
  {
    if |p| == 0 {
      assert p + q == q;
      var tail := EvalProgram(ops, env, q);
      if tail.Ok? {
        assert [] + tail.value.1 == tail.value.1;
      }
    } else {
      assert (p + q)[0] == p[0];
      assert (p + q)[1..] == p[1..] + q;
      var first := EvalStmt(ops, env, p[0]);
      if first.Ok? {
        EvalProgramConcat(ops, first.value.0, p[1..], q);
        var rest := EvalProgram(ops, first.value.0, p[1..]);
        if rest.Ok? {
          var tail := EvalProgram(ops, rest.value.0, q);
          if tail.Ok? {
            assert [first.value.1] + (rest.value.1 + tail.value.1)
                == ([first.value.1] + rest.value.1) + tail.value.1;
          }
        }
      }
    }
  }

  /** The source's `eval`: a loop over the statements that pushes each
      statement's value onto the result. */
  method Run(ops: Ops, env: Env, p: Program) returns (r: Res<(Env, seq<Value>)>)
    ensures r == EvalProgram(ops, env, p)
  {
    var current := env;
    var result: seq<Value> := [];
    for i := 0 to |p|
      invariant EvalProgram(ops, env, p[..i]) == Ok((current, result))
    {
      var step := EvalStmt(ops, current, p[i]);
      assert [p[i]][1..] == [];
      EvalProgramConcat(ops, env, p[..i], [p[i]]);
      assert p[..i] + [p[i]] == p[..i + 1];
      if step.Err? {
        EvalProgramConcat(ops, env, p[..i + 1], p[i + 1..]);
        assert p[..i + 1] + p[i + 1..] == p;
        return Err(step.error);
      }
      assert EvalProgram(ops, step.value.0, []) == Ok((step.value.0, []));
      assert [step.value.1] + [] == [step.value.1];
      assert EvalProgram(ops, current, [p[i]]) == Ok((step.value.0, [step.value.1]));
      current, result := step.value.0, result + [step.value.1];
    }
    assert p[..|p|] == p;
    return Ok((current, result));
  }
}
