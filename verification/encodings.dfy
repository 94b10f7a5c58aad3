/**
 * The wrapped classes (`Just`/`Nothing`, `Ok`/`Err`) and the unwrapped
 * unions of `res.ts` are two representations of one algebra. This module
 * gives the conversions between them and proves that every combinator
 * commutes with the conversion, together with the places where the two
 * representations cannot agree (null is Some in `T | undefined`, an `Ok`
 * holding an `Error` has no unwrapped form).
 */
module Encodings {
  import opened JsValues
  import opened Maybes
  import opened Results
  import UM = UnwrappedMaybe
  import Res

  /** From a wrapped `Maybe` to `T | undefined`. */
  function Lower(m: Maybe): Value {
    match m
    case Just(v) => v
    case Nothing => Undefined
  }

  /** From `T | undefined` to a wrapped `Maybe`. */
  function Lift(m: Value): Maybe {
    if UM.IsSome(m) then Just(m) else Nothing
  }

  /** The conversions are inverse, except for `Just(undefined)`, which the union cannot represent. */
  lemma LiftLowerInverse(m: Value, w: Maybe)
    ensures Lower(Lift(m)) == m
    ensures w != Just(Undefined) ==> Lift(Lower(w)) == w
    ensures Lift(Lower(Just(Undefined))) == Nothing
  {
  }

  /**
   * `Maybe.maybe` and the union disagree on null only: the union counts null
   * as Some, the coalescing factory as `Nothing`.
   */
  lemma MaybeOfVersusLift(v: Value)
    ensures v != Null ==> MaybeOf(v) == Lift(v)
    ensures MaybeOf(Null) == Nothing && Lift(Null) == Just(Null)
  {
  }

  /**
   * Every combinator of the unwrapped `Maybe` namespace except `okOr`/`okOrElse`
   * (see `OkOrAgrees`) is its wrapped counterpart read through `Lift`/`Lower`.
   */
  lemma MaybeCombinatorsAgree(m: Value, optb: Value, f: Value -> Value, g: () -> Value, def: Value, p: Value -> bool, q: () -> bool)
    ensures Lift(m).IsSome() == UM.IsSome(m) && Lift(m).IsNone() == UM.IsNone(m)
    ensures Lift(m).IsSomeAnd(p) == UM.IsSomeAnd(m, p) && Lift(m).IsNoneAnd(q) == UM.IsNoneAnd(m, q)
    ensures Lift(m).Unwrap() == UM.Unwrap(m)
    ensures Lift(m).UnwrapOr(def) == UM.UnwrapOr(m, def)
    ensures Lift(m).UnwrapOrElse(g) == UM.UnwrapOrElse(m, g)
    ensures Lower(Lift(m).Map(f)) == UM.Map(m, f)
    ensures Lift(m).MapOr(def, f) == UM.MapOr(m, def, f)
    ensures Lift(m).MapOrElse(g, f) == UM.MapOrElse(m, g, f)
    ensures Lower(Lift(m).And(Lift(optb))) == UM.And(m, optb)
    ensures Lower(Lift(m).AndThen(x => Lift(f(x)))) == UM.AndThen(m, f)
    ensures Lower(Lift(m).Or(Lift(optb))) == UM.Or(m, optb)
    ensures Lower(Lift(m).OrElse(() => Lift(g()))) == UM.OrElse(m, g)
  {
    LiftLowerInverse(optb, Nothing);
    LiftLowerInverse(g(), Nothing);
    if UM.IsSome(m) {
      LiftLowerInverse(f(m), Nothing);
    }
  }

  /**
   * `okOr`/`okOrElse` agree across the encodings for payloads the union can
   * tell from an error (a null payload throws on both sides: `Result.ok(null)`).
   */
  lemma OkOrAgrees(m: Value, err: Value, errFn: () -> Value)
    requires !IsError(m) && IsError(err) && IsError(errFn())
    ensures WrapRes(UM.OkOr(m, err)) == OkOr(Lift(m), err)
    ensures WrapRes(UM.OkOrElse(m, errFn)) == OkOrElse(Lift(m), errFn)
  {
  }

  // ---------------------------------------------------------------------
  // Result <-> Res
  // ---------------------------------------------------------------------

  /** Res -> Result -> Res: `wrapRes` then `res()` gives back every non-null value. */
  lemma WrapResThenToRes(x: Value)
    requires !IsNullish(x)
    ensures WrapRes(x).Returned?
    ensures WrapRes(x).value.ToRes() == Returned(x)
  {
  }

  /**
   * Result -> Res -> Result: `res()` then `wrapRes` gives back every result
   * that has an unwrapped form (an `Ok` not holding an `Error`, an `Err`
   * holding one).
   */
  lemma ToResThenWrapRes(r: Result)
    requires r.Valid()
    requires r.IsOk() ==> !IsError(r.value)
    requires r.IsErr() ==> IsError(r.error)
    ensures r.ToRes().Returned?
    ensures WrapRes(r.ToRes().value) == Returned(r)
  {
  }

  /** The accepted restriction of the union: an `Ok` holding an `Error` comes back as an `Err`. */
  lemma OkHoldingErrorBecomesErr(e: ErrorVal)
    ensures Ok(Error(e)).Valid()
    ensures Ok(Error(e)).ToRes() == Returned(Error(e))
    ensures WrapRes(Error(e)) == Returned(Err(Error(e)))
  {
  }

  /** `isOk`, `isErr` and `isMissing` agree across the encodings. */
  lemma DiscriminatorsAgree(x: Value)
    requires !IsNullish(x)
    ensures WrapRes(x).value.IsOk() == Res.IsOk(x)
    ensures WrapRes(x).value.IsErr() == Res.IsErr(x)
    ensures WrapRes(x).value.IsMissing() == Res.IsMissing(x)
  {
  }

  /** `ok()`/`err()` (corrected) agree with `Res.ok`/`Res.err` read through `Lower`. */
  lemma ProjectionsAgree(x: Value)
    requires !IsNullish(x)
    ensures WrapRes(x).value.ProjectOk().Returned? && WrapRes(x).value.ProjectErr().Returned?
    ensures Lower(WrapRes(x).value.ProjectOk().value) == Res.Ok(x)
    ensures Lower(WrapRes(x).value.ProjectErr().value) == Res.Err(x)
  {
  }

  /** As written, `ok()` disagrees with `Res.ok` on `0`: one throws, the other returns `0`. */
  lemma ProjectionAsWrittenDisagreesOnZero()
    ensures Res.Ok(Num(0)) == Num(0)
    ensures WrapRes(Num(0)) == Returned(Ok(Num(0)))
    ensures WrapRes(Num(0)).value.ProjectOkAsWritten().Threw?
  {
  }

  /** `Res.map` is `Ok.map`/`Err.map` through `wrapRes`, as long as `fn` does not return an `Error`. */
  lemma MapAgrees(x: Value, fn: Value -> Value)
    requires !IsNullish(x)
    requires Res.IsOk(x) ==> !IsError(fn(x))
    ensures WrapRes(Res.Map(x, fn)) == WrapRes(x).value.Map(fn)
  {
  }

  /** `Res.mapErr` is `mapErr` through `wrapRes` (the function maps errors to errors). */
  lemma MapErrAgrees(x: Value, fn: Value -> Value)
    requires !IsNullish(x)
    requires Res.IsErr(x) ==> IsError(fn(x))
    ensures WrapRes(Res.MapErr(x, fn)) == WrapRes(x).value.MapErr(fn)
  {
  }

  /** `and`/`or` agree for arguments that both encodings can represent. */
  lemma AndOrAgree(x: Value, next: Value)
    requires !IsNullish(x) && !IsNullish(next)
    ensures WrapRes(Res.And(x, next)) == Returned(WrapRes(x).value.And(WrapRes(next).value))
    ensures WrapRes(Res.Or(x, next)) == Returned(WrapRes(x).value.Or(WrapRes(next).value))
  {
  }

  /** `andThen` agrees when the two continuations agree through `wrapRes` on the value passed to them. */
  lemma AndThenAgrees(x: Value, op: Value -> Value, op2: Value -> Result)
    requires !IsNullish(x)
    requires Res.IsOk(x) ==> WrapRes(op(x)) == Returned(op2(x))
    ensures WrapRes(Res.AndThen(x, op)) == Returned(WrapRes(x).value.AndThen(op2))
  {
  }

  /** `orElse` agrees when the two recovery functions agree through `wrapRes` on the error. */
  lemma OrElseAgrees(x: Value, op: Value -> Value, op2: Value -> Result)
    requires !IsNullish(x)
    requires Res.IsErr(x) ==> WrapRes(op(x)) == Returned(op2(x))
    ensures WrapRes(Res.OrElse(x, op)) == Returned(WrapRes(x).value.OrElse(op2))
  {
  }

  /** `unwrap` agrees on success; on failure both throw an unwrap error holding the same original. */
  lemma UnwrapAgrees(x: Value, def: Value, op: Value -> Value)
    requires !IsNullish(x)
    ensures WrapRes(x).value.Unwrap().Returned? == Res.Unwrap(x).Returned?
    ensures Res.IsOk(x) ==> WrapRes(x).value.Unwrap() == Res.Unwrap(x)
    ensures Res.IsErr(x) ==> WrapRes(x).value.Unwrap().thrown.err.original == Res.Unwrap(x).thrown.err.original
    ensures WrapRes(x).value.UnwrapOr(def) == Res.UnwrapOr(x, def)
    ensures WrapRes(x).value.UnwrapOrElse(op) == Res.UnwrapOrElse(x, op)
  {
  }

  /** `Res.missing` is `ResultE.missing` through `wrapRes`, for values that are not errors themselves. */
  lemma MissingAgrees(value: Value, msg: Option<string>, info: Value)
    requires !IsError(value)
    ensures WrapRes(Res.Missing(value, msg, info))
         == Returned(MissingOf(value, if msg.Some? then Some(Thunk(() => msg.value)) else None, info))
    ensures WrapRes(Res.Missing(value, msg, info))
         == Returned(MissingOf(value, if msg.Some? then Some(Text(msg.value)) else None, info))
  {
  }

  /** Every element of a sequence of unwrapped results converted with `wrapRes`. */
  function WrapEach(xs: seq<Value>): (rs: seq<Result>)
    requires forall i :: 0 <= i < |xs| ==> !IsNullish(xs[i])
    ensures |rs| == |xs|
    ensures forall i :: 0 <= i < |xs| ==> Returned(rs[i]) == WrapRes(xs[i])
  {
    seq(|xs|, i requires 0 <= i < |xs| => WrapRes(xs[i]).value)
  }

  /** `Res.all` is `ResultE.all` through `wrapRes`: same values in the same order, or the same first error. */
  lemma AllAgrees(xs: seq<Value>)
    requires forall i :: 0 <= i < |xs| ==> !IsNullish(xs[i])
    ensures WrapRes(Res.AllOf(xs)) == Returned(AllOf(WrapEach(xs)))
  {
    var rs := WrapEach(xs);
    var k := Res.FirstError(xs);
    if k < |xs| {
      FirstErrIsFirst(rs, k);
    } else {
      FirstErrOfAllOk(rs);
      assert Values(rs) == xs;
    }
  }
}
