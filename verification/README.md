# wasm-calc evaluator in Dafny

This project models the tree-walking evaluator `Eval` of wasm-calc (`src/eval.rs`).
The evaluator reduces a parsed program, made of assignments and expression statements,
to one value per statement. It works over an environment that maps names to the
last value assigned to them.

- `wrappers.dfy` (module `Wrappers`): `Option`, the outcome of one of `Object`'s
  operators, and `Result`, which works with `:-`. Every `panic!` of the source becomes
  an `Err`, and the `Err` aborts the whole run.
- `float64.dfy` (module `Float64`): the IEEE 754 binary64 payload of a Float value,
  stored as its sign, exponent and fraction fields. The module also defines Rust's cast
  `f as i64`, which `^` applies to a Float exponent: NaN becomes 0, out-of-range values
  saturate, and everything else truncates toward zero.
- `object.dfy` (module `Object`): the runtime `Value` (`Void | Int | Float | Str`).
  `Ops` is a record of the five arithmetic operators of `Object`. Those operators are
  implemented in `crate::object`, which is not part of this model, so the evaluator
  takes them as a parameter. Every property below therefore holds for every
  implementation of them. An operator returns `None` where it would panic.
- `ast.dfy` (module `Ast`): literals, expressions, statements, programs, and the free
  names of an expression.
- `eval.dfy` (module `Eval`): the evaluator itself. It contains the functions
  `EvalExpr`, `EvalStmt` and `EvalProgram`. It also contains two methods that mirror the
  source's loops: `PowerLoop` is the `^` loop and `Run` is the statement loop of `eval`.
  Both are proved equal to the functions.
- `eval_properties.dfy` (module `EvalProperties`): the promises of the evaluator, proved
  for every operator implementation. They cover expressions, statements, whole runs,
  and the `Void` placeholder.

The `Eval` struct is modelled by its only field, the environment `Env`, which is
threaded through pure functions. `Eval::new()` is the empty map `EMPTY`. `eval_expr`
takes `&mut self` but never writes the environment, so `EvalExpr` only reads it.

Three consequences of the code that are easy to miss:
- `l ^ 0` aborts when `l` fails, because the left operand is evaluated first
  (`LeftOperandFirst`, `PowerExponent`).
- The cast `v as i64` of a Float exponent saturates at the i64 bounds and maps NaN
  to 0 (`Float64.ToI64`).
- The left-then-right evaluation order shows in which error aborts the run.

## Model

| member | source | states |
|---|---|---|
| Float64.ToI64 | src/eval.rs:61 | The exponent cast of a Float lies in the i64 range, is 0 for NaN, saturates for infinities, and keeps the sign |
| Float64.ToI64TruncatesTowardZero | src/eval.rs:61 | For the real number a finite Float denotes, the cast rounds toward zero when the value fits in an i64 and gives the nearer bound otherwise |
| Eval.Lookup | src/eval.rs:42-46 | An identifier read succeeds exactly when the name is bound, yields the bound value, and otherwise fails as an undefined variable |
| Eval.LiteralValue | src/eval.rs:76-80 | A literal becomes the value of the same kind with the same payload (`IntLit(i)` to `Int(i)`, likewise Float and String), never `Void` |
| Eval.Store | src/eval.rs:32 | Storing through `entry(..).or_insert(Void)` binds the target to the value, adds exactly that key, and keeps every other binding |
| Eval.Apply | src/eval.rs:52-56 | A call of one of Object's operators succeeds exactly when the operator does, with its value; its panic becomes `OperatorFailed` carrying the operator and both operands |
| Eval.ExponentOf | src/eval.rs:58-62 | The `^` exponent fails exactly for a string or `Void`; an Int is used as it is; a Float goes through the i64 cast |
| Eval.Power | src/eval.rs:64-69 | The `^` loop can fail only through a panicking `*` whose right operand is the base |
| Eval.ApplyBinOp | src/eval.rs:51-74 | Operator dispatch never reports an undefined variable, and any operator string outside `+ - * / % ^` fails as an unexpected operator |
| Eval.EvalExpr | src/eval.rs:40-81 | A successful expression reads only bound names; an undefined-variable failure names a free variable that is unbound |
| Eval.EvalStmt | src/eval.rs:28-38 | An expression statement leaves the environment unchanged; an assignment binds the target to its result and changes no other binding |
| Eval.EvalProgram | src/eval.rs:18-25 | A successful run yields exactly one value per statement and never removes a binding |
| Eval.PowerAbortsOnce | src/eval.rs:65-67 | Once a multiplication in the `^` loop panics, the loop ends with that panic whatever the iteration count |
| Eval.PowerLoop | src/eval.rs:64-69 | The imperative loop from `Int(1)` over `0..n` computes the n-fold left multiplication `Power`, including its failure |
| Eval.EvalProgramConcat | src/eval.rs:18-25 | Running `p` and then `q` on one evaluator is the same as running `p + q`, with the results concatenated and the first failure aborting |
| Eval.Run | src/eval.rs:18-25 | The push loop of `eval` computes the same result as the statement-by-statement evaluation |
| EvalProperties.IdentLookup | src/eval.rs:42-46 | An identifier expression succeeds if and only if the name is bound; it yields the binding, or fails with the name |
| EvalProperties.LiteralOneToOne | src/eval.rs:76-80 | Literals always evaluate, and two literals evaluate to the same value only if they are equal |
| EvalProperties.LeftOperandFirst | src/eval.rs:47-49 | A failing left operand is the result of the binary expression; the right operand's failure comes next, before any operator runs |
| EvalProperties.UnknownOperatorFails | src/eval.rs:71-73 | An operator outside `+ - * / % ^` always fails, with an unexpected-operator error once both operands have evaluated |
| EvalProperties.ArithmeticDispatch | src/eval.rs:51-56 | Each of `+ - * / %` passes the left and right values, in that order, to the matching operator of `Object` |
| EvalProperties.PowerRejectsNonNumericExponent | src/eval.rs:58-59 | `^` with a string or `Void` exponent fails with a non-integer-exponent error |
| EvalProperties.PowerExponent | src/eval.rs:57-69 | `^` is the multiplication loop over the integer exponent (Int as is, Float cast), and a zero or negative Int exponent gives `Int(1)` whatever the base |
| EvalProperties.PowerFractionalExponent | src/eval.rs:61-69 | A NaN exponent, or a Float exponent strictly between -1 and 1, gives `Int(1)` |
| EvalProperties.PowerOfInt | src/eval.rs:64-69 | When `*` on Ints is the integer product, `Int(b) ^ Int(n)` for n >= 0 is `Int(b^n)` |
| EvalProperties.TwoCubed | src/eval.rs:57-69 | `2 ^ 3` evaluates to `Int(8)` when `*` on Ints is the integer product |
| EvalProperties.EvalExprFrame | src/eval.rs:40-81 | An expression's result depends only on the bindings of the names it reads |
| EvalProperties.AssignBinds | src/eval.rs:30-34 | An assignment succeeds if and only if its expression does; it returns the value and updates only the target; on failure it propagates the expression's error |
| EvalProperties.StorePlaceholderOverwritten | src/eval.rs:32 | The `Void` inserted by `or_insert` is always overwritten, so storing is a plain map update |
| EvalProperties.ExprStmtPure | src/eval.rs:36 | An expression statement succeeds exactly when its expression does, returns its value and leaves the environment unchanged, and otherwise fails with its expression's error |
| EvalProperties.EvalProgramIsRun | src/eval.rs:18-25 | A successful run is a chain of statement steps: element i is statement i evaluated in the environment the earlier statements left |
| EvalProperties.RunIsEvalProgram | src/eval.rs:18-25 | Conversely, every such chain of statement steps is what `eval` returns |
| EvalProperties.EvalProgramFailsAtStatement | src/eval.rs:18-25 | A failed run is the failure of one statement after every earlier statement succeeded, and it carries that statement's error |
| EvalProperties.FailureAborts | src/eval.rs:18-25 | A statement that fails after its predecessors succeeded aborts the whole run with its error; no later statement is evaluated |
| EvalProperties.AssignThenRead | src/eval.rs:28-46 | Reading `x` right after `x = e` yields the value of `e`, and the run returns that value twice |
| EvalProperties.ReevaluationUnaffected | src/eval.rs:28-38 | Re-evaluating an expression statement after an assignment to a name it does not read yields the same value |
| EvalProperties.PowerNonVoid | src/eval.rs:64-69 | With a non-`Void` base and a `*` that never produces `Void`, the `^` loop never yields `Void` |
| EvalProperties.EvalExprNonVoid | src/eval.rs:40-81 | In an environment without `Void`, and with operators that never produce it, no expression evaluates to `Void` |
| EvalProperties.VoidNeverObservable | src/eval.rs:32 | Under the same conditions, no run ever shows the `or_insert` placeholder, neither in a result nor in the environment it leaves |
| EvalProperties.AssignAddRead | src/eval.rs:18-56 | `x = 2; y = x + 3; y` on a fresh evaluator yields `[2, 5, 5]` and binds x to 2 and y to 5, when `+` on Ints is the integer sum |

## Left out

- The semantics of `Object`'s `+ - * / %`: they are implemented in `crate::object`, which is not part of this model. `Ops` leaves them abstract, and the properties that need them (`PowerOfInt`, `TwoCubed`, `AssignAddRead`, the `Void` lemmas) state their assumption as a precondition. Division by zero and numeric promotion are therefore not modelled.
- The i64 width of `Object::Int` and of integer literals: values are mathematical integers. The i64 range appears only as the result range of the Float-to-i64 cast.
- The width of `Object::Float`: the model assumes an f64 payload. `crate::ast` and `crate::object` are not part of this model, so this cannot be confirmed. The cast formula is the same for f32 apart from the field widths.
- Float arithmetic: Float values are carried as bit fields and are only ever cast to an integer.
- Running time of the `^` loop: an exponent near the i64 maximum means that many iterations. The model treats the loop as a mathematical iteration.
- Panic message text, `HashMap` hashing, `Box`, ownership and `Clone`: they have no effect on the values computed.
- A panic's effect on the evaluator: a failed run returns only the error. An environment left behind by an unwound panic, holding the assignments made before the failing statement, is not modelled.
- The parser and any caller that prints results: not part of this model.
