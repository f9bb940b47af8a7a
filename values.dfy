/**
 * The JavaScript values a resolver can hand back to a pass runner, and the three ways a
 * runner looks at them: `String(v)` (what `replace` inserts), `_.isNil(v) || v.length === 0`
 * (the remove-when-empty test) and truthiness (the online gate).
 */
module Values {
  import opened Wrappers
  import opened JsString

  /** Numbers are integers here: every number the modelled resolvers produce is one. */
  datatype Value = Undefined | Null | Str(s: string) | Bool(b: bool) | Num(n: int)

  /** `String(v)`, which `String.prototype.replace` applies to a non-function replacement. */
  function ToStr(v: Value): (r: string)
    ensures v.Str? ==> r == v.s
    ensures v.Num? ==> ParseInt(r) == Some(v.n)
  {
    match v
    case Undefined => "undefined"
    case Null => "null"
    case Str(s) => s
    case Bool(b) => if b then "true" else "false"
    case Num(n) => ParseIntRoundTrip(n); IntToString(n)
  }

  /** `_.isNil(v)`: `null` or `undefined`. */
  predicate IsNil(v: Value) {
    v.Undefined? || v.Null?
  }

  /**
   * `_.isNil(v) || v.length === 0`. Booleans and numbers have no `length`, and
   * `undefined === 0` is false, so they never count as empty.
   */
  predicate IsNilOrEmpty(v: Value) {
    IsNil(v) || v == Str("")
  }

  /** JavaScript truthiness. */
  predicate Truthy(v: Value) {
    match v
    case Undefined => false
    case Null => false
    case Str(s) => s != ""
    case Bool(b) => b
    case Num(n) => n != 0
  }

  /** A value that counts as empty is falsy, and a falsy string is the empty one. */
  lemma EmptyIsFalsy(v: Value)
    ensures IsNilOrEmpty(v) ==> !Truthy(v)
    ensures v.Str? ==> (IsNilOrEmpty(v) <==> !Truthy(v))
  {
  }

  /** What an empty-looking value turns into when a runner splices it into the buffer. */
  lemma EmptyText(v: Value)
    requires IsNilOrEmpty(v)
    ensures ToStr(v) in {"", "undefined", "null"}
  {
  }
}
