/**
 * The runtime values the monad library manipulates.
 *
 * TypeScript type parameters are erased at run time, so every payload the
 * library stores is an ordinary JavaScript value. The null checks of the
 * constructors (`v != null`), the truthiness test of `Maybe.just`
 * (`if (value)`) and the `instanceof Error` / `instanceof Missing`
 * discriminations of the unwrapped encoding are all questions about such a
 * value, so they are stated over this one datatype.
 */
module JsValues {

  /** The error objects the library creates or inspects. */
  datatype ErrorVal =
    | Generic(message: string)                // a plain `Error`
    | Missing(message: string, info: Value)   // `class Missing extends Error`
    | ResultUnwrap(original: Value)           // `ResultUnwrapError`, thrown by `Err.unwrap`
    | ResUnwrap(original: Value)              // `ResUnwrapError`, thrown by `Res.unwrap`

  /** A JavaScript value. Numbers are integers here (no NaN, no fractions). */
  datatype Value =
    | Undefined
    | Null
    | Bool(b: bool)
    | Num(n: int)
    | Str(s: string)
    | Obj(id: nat)                 // any other object or function
    | Array(items: seq<Value>)
    | Error(err: ErrorVal)         // any instance of `Error`, subclasses included

  /** `v == null` with JavaScript's loose equality: true for null and undefined only. */
  predicate IsNullish(v: Value) {
    v == Undefined || v == Null
  }

  /** The truthiness test `if (v)`: false, 0, the empty string, null and undefined are falsy. */
  predicate Truthy(v: Value) {
    match v
    case Undefined => false
    case Null => false
    case Bool(b) => b
    case Num(n) => n != 0
    case Str(s) => s != ""
    case _ => true
  }

  /** `v instanceof Error`. */
  predicate IsError(v: Value) {
    v.Error?
  }

  /** `v instanceof Missing` (Missing extends Error). */
  predicate IsMissingError(v: Value) {
    v.Error? && v.err.Missing?
  }

  /**
   * `new Missing(msg, info)`: the message is prefixed with "Missing: ", and an
   * omitted message defaults to the empty string.
   */
  function NewMissing(msg: Option<string>, info: Value): (e: Value)
    ensures IsError(e) && IsMissingError(e) && !IsNullish(e)
    ensures e.err.info == info
    ensures e.err.message == "Missing: " + (if msg.Some? then msg.value else "")
  {
    Error(Missing("Missing: " + (if msg.Some? then msg.value else ""), info))
  }

  /** An optional argument of any type (a parameter marked `?` in TypeScript). */
  datatype Option<T> = None | Some(value: T)

  /**
   * The outcome of a call that may throw: either the value it returned or the
   * JavaScript value it threw.
   */
  datatype Outcome<T> = Returned(value: T) | Threw(thrown: Value)

  // The messages of the construction errors, verbatim from the source.
  const JustNullMessage := "Cannot create Just with null or undefined value"
  const OkNullMessage := "`Ok` can't hold `null` or `undefined`."
  const ErrNullMessage := "`Err` can't hold `null` or `undefined`."
  const NotAnErrorMessage := "Only `Error` can be casted to Res<T>"
  /** `Nothing.unwrap` throws this string, not an Error. */
  const NoneUnwrapString := "None.unwrap"

  lemma {:induction false} FalsyIncludesNullish(v: Value)
    ensures IsNullish(v) ==> !Truthy(v)
    ensures !Truthy(v) && !IsNullish(v) ==> v == Bool(false) || v == Num(0) || v == Str("")
  {
    match v
    case Str(s) =>
      if !Truthy(v) { assert s == ""; }
    case _ =>
  }
}
