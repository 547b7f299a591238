/**
 * The JavaScript values that can sit in a session slot, and the two
 * JavaScript tests the adapter applies to them: truthiness and `typeof`.
 * Numbers are modelled as integers; NaN and fractions are not needed here.
 */
module JsValues {

  datatype Value =
    | Undefined
    | Null
    | Bool(b: bool)
    | Number(n: int)
    | Str(s: string)
    | Object

  /** ToBoolean: `undefined`, `null`, `false`, `0` and `""` are falsy. */
  predicate Truthy(v: Value) {
    match v
    case Undefined => false
    case Null => false
    case Bool(b) => b
    case Number(n) => n != 0
    case Str(s) => s != ""
    case Object => true
  }

  /** `typeof v === 'string'` */
  predicate IsString(v: Value) {
    v.Str?
  }

  /** The guard `v && typeof v === 'string'` holds exactly of the non-empty strings. */
  lemma TruthyStringIsNonEmpty(v: Value)
    ensures Truthy(v) && IsString(v) <==> v.Str? && v.s != ""
  {
  }
}
