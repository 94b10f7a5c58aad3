/**
 * The wrapped optional value: the classes `Just` and `Nothing` and the
 * factories of the `Maybe` namespace.
 *
 * `new Just(v)` does not check its argument (only the factories do), so a
 * `Just` may hold any value; `Nothing` carries none. Every combinator is a
 * single conditional on the variant and never changes its receiver.
 */
module Maybes {
  import opened JsValues

  datatype Maybe = Just(value: Value) | Nothing {

    predicate IsSome() { Just? }

    predicate IsNone() { Nothing? }

    /** The predicate is consulted only for `Just`. */
    predicate IsSomeAnd(fn: Value -> bool) {
      match this
      case Just(v) => fn(v)
      case Nothing => false
    }

    /** The predicate is consulted only for `Nothing`. */
    predicate IsNoneAnd(fn: () -> bool) {
      match this
      case Just(_) => false
      case Nothing => fn()
    }

    /** `Nothing.unwrap()` throws the string 'None.unwrap'. */
    function Unwrap(): Outcome<Value> {
      match this
      case Just(v) => Returned(v)
      case Nothing => Threw(Str(NoneUnwrapString))
    }

    /** `unwrapOr()` without an argument is `UnwrapOr(Undefined)`. */
    function UnwrapOr(def: Value): Value {
      match this
      case Just(v) => v
      case Nothing => def
    }

    function UnwrapOrElse(f: () -> Value): Value {
      match this
      case Just(v) => v
      case Nothing => f()
    }

    function Map(fn: Value -> Value): Maybe {
      match this
      case Just(v) => Just(fn(v))
      case Nothing => Nothing
    }

    function MapOr<U>(def: U, f: Value -> U): U {
      match this
      case Just(v) => f(v)
      case Nothing => def
    }

    function MapOrElse<U>(def: () -> U, f: Value -> U): U {
      match this
      case Just(v) => f(v)
      case Nothing => def()
    }

    function And(optb: Maybe): Maybe {
      match this
      case Just(_) => optb
      case Nothing => Nothing
    }

    function AndThen(f: Value -> Maybe): Maybe {
      match this
      case Just(v) => f(v)
      case Nothing => Nothing
    }

    function Or(optb: Maybe): Maybe {
      match this
      case Just(_) => this
      case Nothing => optb
    }

    function OrElse(f: () -> Maybe): Maybe {
      match this
      case Just(_) => this
      case Nothing => f()
    }
  }

  /**
   * `Maybe.just(value)` AS WRITTEN: it tests truthiness, so besides null and
   * undefined it also rejects false, 0 and the empty string, although its
   * error message speaks of null and undefined only.
   */
  function JustAsWritten(value: Value): (r: Outcome<Maybe>)
    ensures r.Returned? <==> Truthy(value)
    ensures r.Returned? ==> r.value == Just(value)
    ensures r.Threw? ==> r.thrown == Error(Generic(JustNullMessage))
  {
    if Truthy(value) then Returned(Just(value)) else Threw(Error(Generic(JustNullMessage)))
  }

  /**
   * `Maybe.just(value)` as evidently intended: it rejects exactly null and
   * undefined, like the `Ok` and `Err` constructors and `Maybe.maybe`.
   */
  function JustNonNull(value: Value): (r: Outcome<Maybe>)
    ensures r.Returned? <==> !IsNullish(value)
    ensures r.Returned? ==> r.value == Just(value)
    ensures r.Threw? ==> r.thrown == Error(Generic(JustNullMessage))
  {
    if !IsNullish(value) then Returned(Just(value)) else Threw(Error(Generic(JustNullMessage)))
  }

  /** The as-written factory throws on `0`, a value the corrected one accepts. */
  lemma JustAsWrittenRejectsZero()
    ensures JustAsWritten(Num(0)).Threw?
    ensures JustNonNull(Num(0)) == Returned(Just(Num(0)))
  {
  }

  /** Both factories agree on every truthy value and on null and undefined. */
  lemma JustFactoriesAgreeOffFalsy(value: Value)
    requires Truthy(value) || IsNullish(value)
    ensures JustAsWritten(value) == JustNonNull(value)
  {
    FalsyIncludesNullish(value);
  }

  /** `Maybe.nothing()`. */
  function NothingOf(): (r: Maybe)
    ensures r.IsNone() && !r.IsSome()
  {
    Nothing
  }

  /** `Maybe.maybe(value)`: null-coalescing wrap. */
  function MaybeOf(value: Value): (r: Maybe)
    ensures r.IsNone() <==> IsNullish(value)
    ensures r.IsSome() ==> r.value == value
  {
    if !IsNullish(value) then Just(value) else Nothing
  }

  /** `Just.wrapNull(value)`, written with its branches the other way round. */
  function WrapNull(value: Value): Maybe {
    if IsNullish(value) then Nothing else Just(value)
  }

  lemma WrapNullIsMaybeOf(value: Value)
    ensures WrapNull(value) == MaybeOf(value)
    ensures WrapNull(value).IsNone() <==> IsNullish(value)
  {
  }

  /** The corrected `just` is `maybe` restricted to the values it accepts. */
  lemma JustNonNullIsMaybeOf(value: Value)
    ensures JustNonNull(value).Returned? ==> JustNonNull(value).value == MaybeOf(value)
    ensures JustNonNull(value).Threw? <==> MaybeOf(value).IsNone()
  {
  }

  /** `isMaybe`'s argument: a Maybe object or some other value. */
  datatype MaybeOrValue = AMaybe(m: Maybe) | AValue(v: Value)

  /**
   * `isMaybe(x)`: a falsy value is rejected first, and any other value that is
   * not a `Just` or `Nothing` instance fails the instanceof test; a Maybe
   * object is always truthy.
   */
  function IsMaybe(x: MaybeOrValue): (r: bool)
    ensures r <==> x.AMaybe?
  {
    match x
    case AValue(_) => false
    case AMaybe(_) => true
  }

  // ---------------------------------------------------------------------
  // Laws of the combinators
  // ---------------------------------------------------------------------

  /** `isNone` is the exact negation of `isSome`. */
  lemma IsNoneNegatesIsSome(m: Maybe)
    ensures m.IsNone() <==> !m.IsSome()
  {
  }

  /** `Just(v).unwrap()` returns `v`; `Nothing.unwrap()` always throws. */
  lemma UnwrapIdentity(m: Maybe)
    ensures m.Unwrap().Returned? <==> m.IsSome()
    ensures m.IsSome() ==> m.Unwrap().value == m.value
    ensures m.IsNone() ==> m.Unwrap() == Threw(Str(NoneUnwrapString))
  {
  }

  /** Functor laws: mapping the identity changes nothing, and maps compose. */
  lemma MapFunctor(m: Maybe, f: Value -> Value, g: Value -> Value)
    ensures m.Map(x => x) == m
    ensures m.Map(f).Map(g) == m.Map(x => g(f(x)))
  {
  }

  /** `map` is bind followed by re-wrapping; on `Nothing` the function is irrelevant. */
  lemma MapIsAndThenJust(m: Maybe, f: Value -> Value, g: Value -> Value)
    ensures m.Map(f) == m.AndThen(x => Just(f(x)))
    ensures m.IsNone() ==> m.Map(f) == m.Map(g) == Nothing
    ensures m.IsSome() <==> m.Map(f).IsSome()
  {
  }

  /** Monad laws for `andThen` with `Just` as unit, and short-circuiting on `Nothing`. */
  lemma AndThenMonad(v: Value, m: Maybe, f: Value -> Maybe, g: Value -> Maybe)
    ensures Just(v).AndThen(f) == f(v)
    ensures m.AndThen(x => Just(x)) == m
    ensures m.AndThen(f).AndThen(g) == m.AndThen(x => f(x).AndThen(g))
    ensures Nothing.AndThen(f) == Nothing
  {
  }

  /** `and` is `andThen` with a constant continuation. */
  lemma AndIsConstantAndThen(m: Maybe, optb: Maybe)
    ensures m.And(optb) == m.AndThen(_ => optb)
    ensures m.IsNone() ==> m.And(optb) == Nothing
    ensures m.IsSome() ==> m.And(optb) == optb
  {
  }

  /** `Just` is a fixed point of `or`/`orElse`; `Nothing` defers to the alternative. */
  lemma OrFixedPoint(m: Maybe, optb: Maybe, f: () -> Maybe)
    ensures m.Or(optb) == m.OrElse(() => optb)
    ensures m.IsSome() ==> m.Or(optb) == m && m.OrElse(f) == m
    ensures m.IsNone() ==> m.Or(optb) == optb && m.OrElse(f) == f()
    ensures m.Or(Nothing) == m && Nothing.Or(m) == m
  {
  }

  /**
   * The fallbacks and the contained value are used exclusively: `unwrapOr`,
   * `unwrapOrElse`, `mapOr`, `mapOrElse`, `isSomeAnd` and `isNoneAnd` are the
   * general eliminator `mapOrElse` at particular arguments.
   */
  lemma EliminatorsAgree(m: Maybe, def: Value, d: () -> Value, f: Value -> bool, g: () -> bool)
    ensures m.UnwrapOr(def) == m.MapOr(def, x => x)
    ensures m.UnwrapOrElse(d) == m.MapOrElse(d, x => x)
    ensures m.IsSomeAnd(f) == m.MapOr(false, f)
    ensures m.IsNoneAnd(g) == m.MapOrElse(g, _ => false)
    ensures m.IsSome() ==> m.UnwrapOr(def) == m.Unwrap().value
    ensures m.IsNone() ==> m.UnwrapOr(def) == def
  {
  }
}
