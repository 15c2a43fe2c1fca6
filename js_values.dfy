/**
 * The JavaScript values that travel through the temperature fetch: the fields
 * of a response body and the fields of an assembled record. Numbers are kept
 * as abstract reals; the model never computes with them.
 */
module JsValues {

  datatype Value =
    | Undefined
    | Null
    | Bool(b: bool)
    | Number(n: real)
    | Str(s: string)
    | Object(ref: nat)  // an object or array, known only by its identity

  /** The values the nullish-coalescing operator `??` replaces. */
  predicate IsNullish(v: Value) {
    v.Undefined? || v.Null?
  }

  /** `v ?? fallback`: keeps a present value, replaces a nullish one. */
  function Coalesce(v: Value, fallback: Value): (r: Value)
    ensures IsNullish(v) ==> r == fallback
    ensures !IsNullish(v) ==> r == v
    ensures IsNullish(r) ==> IsNullish(fallback)
  {
    if IsNullish(v) then fallback else v
  }
}
