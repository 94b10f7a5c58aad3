/**
 * The unwrapped optional value of `res.ts`: `Maybe<T> = T | undefined`.
 *
 * There is no wrapper; the value itself is inspected. Only `undefined` is
 * None (`typeof m !== 'undefined'`), so `null` counts as Some here, unlike
 * in the wrapped `Maybe.maybe`.
 */
module UnwrappedMaybe {
  import opened JsValues

  predicate IsSome(m: Value) { m != Undefined }

  predicate IsNone(m: Value) { !IsSome(m) }

  predicate IsSomeAnd(m: Value, fn: Value -> bool) {
    if IsSome(m) then fn(m) else false
  }

  predicate IsNoneAnd(m: Value, fn: () -> bool) {
    if IsNone(m) then fn() else false
  }

  /** `unwrap` throws the string 'None.unwrap' on None. */
  function Unwrap(m: Value): Outcome<Value> {
    if IsSome(m) then Returned(m) else Threw(Str(NoneUnwrapString))
  }

  /** `unwrapOr(m)` without a default is `UnwrapOr(m, Undefined)`. */
  function UnwrapOr(m: Value, def: Value): Value {
    if IsSome(m) then m else def
  }

  function UnwrapOrElse(m: Value, f: () -> Value): Value {
    if IsSome(m) then m else f()
  }

  /** `map`: the function's result is returned as it is (an undefined result is None). */
  function Map(m: Value, f: Value -> Value): Value {
    if IsSome(m) then f(m) else m
  }

  function MapOr<U>(m: Value, def: U, f: Value -> U): U {
    if IsSome(m) then f(m) else def
  }

  function MapOrElse<U>(m: Value, def: () -> U, f: Value -> U): U {
    if IsSome(m) then f(m) else def()
  }

  /** `okOr`: into the unwrapped result encoding. */
  function OkOr(m: Value, err: Value): Value {
    if IsSome(m) then m else err
  }

  function OkOrElse(m: Value, err: () -> Value): Value {
    if IsSome(m) then m else err()
  }

  function And(m: Value, optb: Value): Value {
    if IsSome(m) then optb else m
  }

  function AndThen(m: Value, f: Value -> Value): Value {
    if IsSome(m) then f(m) else m
  }

  function Or(m: Value, optb: Value): Value {
    if IsNone(m) then optb else m
  }

  function OrElse(m: Value, f: () -> Value): Value {
    if IsNone(m) then f() else m
  }

  /** Only `undefined` is None: `null` is Some, and `isNone` is the exact negation of `isSome`. */
  lemma NoneIsExactlyUndefined(m: Value)
    ensures IsNone(m) <==> m == Undefined
    ensures IsSome(Null)
    ensures IsNone(m) <==> !IsSome(m)
  {
  }

  /** `and`/`andThen` short-circuit on None; on Some `and` yields its argument and `andThen` the call. */
  lemma AndShortCircuits(m: Value, optb: Value, f: Value -> Value, g: Value -> Value)
    ensures IsNone(m) ==> And(m, optb) == AndThen(m, f) == AndThen(m, g) == Undefined
    ensures IsSome(m) ==> And(m, optb) == optb && AndThen(m, f) == f(m)
    ensures And(m, optb) == AndThen(m, _ => optb)
  {
  }

  /** `or`/`orElse` consult the alternative only on None; Some is a fixed point. */
  lemma OrOnlyOnNone(m: Value, optb: Value, f: () -> Value)
    ensures IsSome(m) ==> Or(m, optb) == OrElse(m, f) == m
    ensures IsNone(m) ==> Or(m, optb) == optb && OrElse(m, f) == f()
    ensures Or(m, optb) == OrElse(m, () => optb)
  {
  }

  /** `unwrap` throws on None; `unwrapOr` returns `m` on Some and the (possibly undefined) default on None. */
  lemma UnwrapLaws(m: Value, def: Value, f: () -> Value)
    ensures Unwrap(m).Threw? <==> IsNone(m)
    ensures IsSome(m) ==> Unwrap(m).value == m == UnwrapOr(m, def) == UnwrapOrElse(m, f)
    ensures IsNone(m) ==> UnwrapOr(m, def) == def && UnwrapOr(m, Undefined) == Undefined
    ensures IsNone(m) ==> UnwrapOrElse(m, f) == f()
  {
  }

  /** The eliminators use the contained value only on Some and the fallback only on None. */
  lemma EliminatorsAgree(m: Value, def: Value, f: Value -> bool, g: () -> bool)
    ensures UnwrapOr(m, def) == MapOr(m, def, x => x)
    ensures IsSomeAnd(m, f) == MapOr(m, false, f)
    ensures IsNoneAnd(m, g) == MapOrElse(m, g, _ => false)
    ensures Map(m, x => x) == m
  {
  }
}

/**
 * The unwrapped result of `res.ts`: `Res<T> = T | Error`.
 *
 * A value is an Err exactly when it is an instance of `Error` (so `Missing`
 * refines Err); every other value, null and undefined included, is an Ok.
 */
module Res {
  import opened JsValues

  predicate IsOk(res: Value) { !IsError(res) }

  predicate IsErr(res: Value) { IsError(res) }

  predicate IsMissing(res: Value) { IsMissingError(res) }

  /** `ok`: the Ok value, or undefined (the unwrapped None). */
  function Ok(res: Value): Value {
    if IsOk(res) then res else Undefined
  }

  /** `err`: the error, or undefined. */
  function Err(res: Value): Value {
    if IsErr(res) then res else Undefined
  }

  function Map(res: Value, fn: Value -> Value): Value {
    if IsOk(res) then fn(res) else res
  }

  function MapErr(res: Value, fn: Value -> Value): Value {
    if IsErr(res) then fn(res) else res
  }

  function And(current: Value, next: Value): Value {
    if IsOk(current) then next else current
  }

  function AndThen(res: Value, op: Value -> Value): Value {
    if IsOk(res) then op(res) else res
  }

  function Or(current: Value, next: Value): Value {
    if IsErr(current) then next else current
  }

  function OrElse(res: Value, op: Value -> Value): Value {
    if IsErr(res) then op(res) else res
  }

  /** `unwrap` throws a `ResUnwrapError` holding the original error. */
  function Unwrap(res: Value): Outcome<Value> {
    if IsOk(res) then Returned(res) else Threw(Error(ResUnwrap(res)))
  }

  /** `unwrapOr(res)` without a default is `UnwrapOr(res, Undefined)`. */
  function UnwrapOr(res: Value, def: Value): Value {
    if IsOk(res) then res else def
  }

  function UnwrapOrElse(res: Value, op: Value -> Value): Value {
    if IsOk(res) then res else op(res)
  }

  /** `Res.missing(value, msg, info)`: a present value as it is, null or undefined a `Missing`. */
  function Missing(value: Value, msg: Option<string>, info: Value): (r: Value)
    ensures !IsNullish(value) ==> r == value
    ensures IsNullish(value) ==> IsMissing(r) && IsErr(r) && r.err.info == info
    ensures IsNullish(value) ==> r.err.message == "Missing: " + (if msg.Some? then msg.value else "")
  {
    if !IsNullish(value) then value else NewMissing(msg, info)
  }

  // ---------------------------------------------------------------------
  // Res.all
  // ---------------------------------------------------------------------

  /** The index of the first `Error`, or the length when there is none. */
  function FirstError(xs: seq<Value>): (k: nat)
    ensures k <= |xs|
    ensures forall j :: 0 <= j < k ==> IsOk(xs[j])
    ensures k < |xs| ==> IsErr(xs[k])
  {
    if xs == [] then 0 else if IsErr(xs[0]) then 0 else 1 + FirstError(xs[1..])
  }

  predicate NoErrors(xs: seq<Value>) {
    forall i :: 0 <= i < |xs| ==> IsOk(xs[i])
  }

  /** What `Res.all` computes: the array of all values in order, or the first error. */
  function AllOf(xs: seq<Value>): Value {
    var k := FirstError(xs);
    if k < |xs| then xs[k] else Array(xs)
  }

  lemma FirstErrorIsFirst(xs: seq<Value>, i: nat)
    requires i < |xs| && IsErr(xs[i])
    requires forall j :: 0 <= j < i ==> IsOk(xs[j])
    ensures FirstError(xs) == i
  {
  }

  lemma FirstErrorOfNoErrors(xs: seq<Value>)
    requires NoErrors(xs)
    ensures FirstError(xs) == |xs|
  {
  }

  /** `Res.all(results)`: a loop that pushes each Ok value and returns the first Error it meets. */
  method All(results: seq<Value>) returns (r: Value)
    ensures r == AllOf(results)
    ensures IsOk(r) <==> NoErrors(results)
    ensures IsOk(r) ==> r == Array(results)
    ensures IsErr(r) ==> exists k :: 0 <= k < |results| && r == results[k]
                                     && forall j :: 0 <= j < k ==> IsOk(results[j])
  {
    var values: seq<Value> := [];
    for i := 0 to |results|
      invariant NoErrors(results[..i])
      invariant values == results[..i]
    {
      var res := results[i];
      if IsOk(res) {
        values := values + [res];
      } else {
        FirstErrorIsFirst(results, i);
        return res;
      }
    }
    assert values == results;
    FirstErrorOfNoErrors(results);
    r := Array(values);
  }

  // ---------------------------------------------------------------------
  // Laws
  // ---------------------------------------------------------------------

  /** `isErr` is the negation of `isOk`, and `isMissing` implies `isErr` because `Missing` extends `Error`. */
  lemma Discrimination(res: Value)
    ensures IsErr(res) <==> !IsOk(res)
    ensures IsMissing(res) ==> IsErr(res)
    ensures IsOk(Null) && IsOk(Undefined)
  {
  }

  /** `map`/`andThen` call the function only on Ok and return an Err unchanged. */
  lemma OkSideOnlyOnOk(res: Value, fn: Value -> Value, g: Value -> Value, next: Value)
    ensures IsOk(res) ==> Map(res, fn) == fn(res) && AndThen(res, fn) == fn(res) && And(res, next) == next
    ensures IsErr(res) ==> Map(res, fn) == Map(res, g) == AndThen(res, fn) == And(res, next) == res
    ensures Map(res, x => x) == res
  {
  }

  /** `mapErr`/`orElse` call the function only on Err and return an Ok unchanged. */
  lemma ErrSideOnlyOnErr(res: Value, fn: Value -> Value, g: Value -> Value, next: Value)
    ensures IsErr(res) ==> MapErr(res, fn) == fn(res) && OrElse(res, fn) == fn(res) && Or(res, next) == next
    ensures IsOk(res) ==> MapErr(res, fn) == MapErr(res, g) == OrElse(res, fn) == Or(res, next) == res
  {
  }

  /** `unwrap` returns an Ok value and otherwise throws an unwrap error holding the original. */
  lemma UnwrapLaws(res: Value, def: Value, op: Value -> Value)
    ensures Unwrap(res).Returned? <==> IsOk(res)
    ensures IsOk(res) ==> Unwrap(res).value == res == UnwrapOr(res, def) == UnwrapOrElse(res, op)
    ensures IsErr(res) ==> Unwrap(res).thrown.err.ResUnwrap? && Unwrap(res).thrown.err.original == res
    ensures IsErr(res) ==> UnwrapOr(res, def) == def && UnwrapOrElse(res, op) == op(res)
  {
  }

  /** `ok`/`err` split a value into exactly one side. */
  lemma ProjectionLaws(res: Value)
    ensures IsOk(res) ==> Ok(res) == res && Err(res) == Undefined
    ensures IsErr(res) ==> Err(res) == res && Ok(res) == Undefined
  {
  }

  /**
   * First error wins: `all` over a sequence with an Error returns the leftmost
   * Error, whatever follows it.
   */
  lemma {:induction false} AllOfFirstErrorWins(prefix: seq<Value>, e: Value, rest: seq<Value>)
    requires NoErrors(prefix) && IsErr(e)
    ensures AllOf(prefix + [e] + rest) == e
  {
    FirstErrorIsFirst(prefix + [e] + rest, |prefix|);
  }
}
