/** Runtime values (the source's `Object`) and its arithmetic operators.
    The operators are implemented in `crate::object`, which is not part of
    this model, so the evaluator takes them as a parameter: every property
    below holds for every implementation of them. */
module Object {
  import opened Wrappers
  import opened Float64

  /** `Void` is the placeholder the environment inserts before an
      assignment overwrites it; no literal produces it. */
  datatype Value = Void | Int(i: int) | Float(f: F64) | Str(s: string)

  /** One of Object's `+ - * / %`: `None` when the operator panics. */
  type Operator = (Value, Value) -> Option<Value>

  datatype Ops = Ops(add: Operator, sub: Operator, mul: Operator, div: Operator, rem: Operator)
}
