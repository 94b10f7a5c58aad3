/**
 * The wrapped result: the classes `Ok` and `Err`, the error subclass
 * `Missing`, and the helpers of the `ResultE` and `Result` namespaces.
 *
 * `Result<T>` is `ResultE<T, Error>`; with type parameters erased both are the
 * same runtime object, so one datatype models both. The `Ok` and `Err`
 * constructors refuse null and undefined (`NewOk`, `NewErr`); every `Result`
 * the library hands out therefore satisfies `Valid()`.
 */
module Results {
  import opened JsValues
  import opened Maybes

  /** The handlers of `caseOf`; the `Missing` handler is optional. */
  datatype Patterns<X> = Patterns(onOk: Value -> X, onErr: Value -> X, onMissing: Option<Value -> X>)

  datatype Result = Ok(value: Value) | Err(error: Value) {

    /** What the constructors guarantee: the payload is neither null nor undefined. */
    predicate Valid() {
      match this
      case Ok(v) => !IsNullish(v)
      case Err(e) => !IsNullish(e)
    }

    predicate IsOk() { Ok? }

    predicate IsErr() { Err? }

    /** `isMissing()`: an `Err` whose error is an instance of `Missing`. */
    predicate IsMissing() {
      match this
      case Ok(_) => false
      case Err(e) => IsMissingError(e)
    }

    /** `map`: the new payload goes through the `Ok` constructor, which may throw. */
    function Map(fn: Value -> Value): Outcome<Result> {
      match this
      case Ok(v) => NewOk(fn(v))
      case Err(_) => Returned(this)
    }

    /** `mapErr`: the mirror image of `map`. */
    function MapErr(fn: Value -> Value): Outcome<Result> {
      match this
      case Ok(v) => Returned(Ok(v))
      case Err(e) => NewErr(fn(e))
    }

    /**
     * `ok()` with the corrected `Maybe.just`. (`new Ok(v)` re-wraps only
     * payloads a constructor already accepted, so it is written as `Ok(v)`
     * here and below.)
     */
    function ProjectOk(): Outcome<Maybe> {
      match this
      case Ok(v) => JustNonNull(v)
      case Err(_) => Returned(Nothing)
    }

    /** `ok()` as written: it goes through the truthiness-testing `Maybe.just`. */
    function ProjectOkAsWritten(): Outcome<Maybe> {
      match this
      case Ok(v) => JustAsWritten(v)
      case Err(_) => Returned(Nothing)
    }

    /** `err()` with the corrected `Maybe.just`. */
    function ProjectErr(): Outcome<Maybe> {
      match this
      case Ok(_) => Returned(Nothing)
      case Err(e) => JustNonNull(e)
    }

    /** `err()` as written. */
    function ProjectErrAsWritten(): Outcome<Maybe> {
      match this
      case Ok(_) => Returned(Nothing)
      case Err(e) => JustAsWritten(e)
    }

    function And(res: Result): Result {
      match this
      case Ok(_) => res
      case Err(e) => Err(e)
    }

    function AndThen(op: Value -> Result): Result {
      match this
      case Ok(v) => op(v)
      case Err(e) => Err(e)
    }

    function Or(res: Result): Result {
      match this
      case Ok(_) => this
      case Err(_) => res
    }

    function OrElse(op: Value -> Result): Result {
      match this
      case Ok(v) => Ok(v)
      case Err(e) => op(e)
    }

    /** `Err.unwrap()` throws a `ResultUnwrapError` that keeps the original error. */
    function Unwrap(): Outcome<Value> {
      match this
      case Ok(v) => Returned(v)
      case Err(e) => Threw(Error(ResultUnwrap(e)))
    }

    function UnwrapOr(def: Value): Value {
      match this
      case Ok(v) => v
      case Err(_) => def
    }

    function UnwrapOrElse(op: Value -> Value): Value {
      match this
      case Ok(v) => v
      case Err(e) => op(e)
    }

    /** `caseOf`: the `Missing` handler wins only when it is supplied and the error is a `Missing`. */
    function CaseOf<X>(p: Patterns<X>): X {
      match this
      case Ok(v) => p.onOk(v)
      case Err(e) =>
        if p.onMissing.Some? && IsMissingError(e) then p.onMissing.value(e) else p.onErr(e)
    }

    /** `equals`, with the library's value equality `eq` as a parameter. */
    predicate Equals(other: Result, eq: (Value, Value) -> bool) {
      match this
      case Ok(v) => other.Ok? && eq(v, other.value)
      case Err(e) => other.Err? && eq(e, other.error)
    }

    /** `res()`: into the unwrapped encoding; only `Error` instances can stand for an `Err`. */
    function ToRes(): Outcome<Value> {
      match this
      case Ok(v) => Returned(v)
      case Err(e) => if IsError(e) then Returned(e) else Threw(Error(Generic(NotAnErrorMessage)))
    }
  }

  /** `new Ok(v)`, `ResultE.ok(v)` and `Result.ok(v)`. */
  function NewOk(v: Value): (r: Outcome<Result>)
    ensures r.Returned? <==> !IsNullish(v)
    ensures r.Returned? ==> r.value == Ok(v) && r.value.Valid()
    ensures r.Threw? ==> r.thrown == Error(Generic(OkNullMessage))
  {
    if !IsNullish(v) then Returned(Ok(v)) else Threw(Error(Generic(OkNullMessage)))
  }

  /** `new Err(e)`, `ResultE.err(e)` and `Result.err(e)`. */
  function NewErr(e: Value): (r: Outcome<Result>)
    ensures r.Returned? <==> !IsNullish(e)
    ensures r.Returned? ==> r.value == Err(e) && r.value.Valid()
    ensures r.Threw? ==> r.thrown == Error(Generic(ErrNullMessage))
  {
    if !IsNullish(e) then Returned(Err(e)) else Threw(Error(Generic(ErrNullMessage)))
  }

  /** `Just.okOr` / `Nothing.okOr`. */
  function OkOr(m: Maybe, err: Value): Outcome<Result> {
    match m
    case Just(v) => NewOk(v)
    case Nothing => NewErr(err)
  }

  /** `Just.okOrElse` / `Nothing.okOrElse`. */
  function OkOrElse(m: Maybe, err: () -> Value): Outcome<Result> {
    match m
    case Just(v) => NewOk(v)
    case Nothing => NewErr(err())
  }

  /** `isResult`'s argument (and `Future.complete`'s): a Result object or some other value. */
  datatype ResultOrValue = AResult(r: Result) | AValue(v: Value)

  /** `ResultE.isResult(x)`: falsy values are rejected, then an instanceof test. */
  function IsResult(x: ResultOrValue): (b: bool)
    ensures b <==> x.AResult?
  {
    match x
    case AValue(_) => false
    case AResult(_) => true
  }

  /**
   * `missing`'s message argument when one is given: a function, which is called
   * for the text, or anything else, which is handed to `Missing` as it is.
   */
  datatype Message = Thunk(call: () -> string) | Text(text: string)

  /** The message `missing` hands to `Missing` (`typeof msg === 'function' ? msg() : msg`). */
  function MessageText(msg: Option<Message>): Option<string> {
    match msg
    case None => None
    case Some(Thunk(f)) => Some(f())
    case Some(Text(t)) => Some(t)
  }

  /**
   * `ResultE.missing(value, msg, info)` (also `Result.missing`): a present value
   * becomes `Ok`, null or undefined a `Missing` error whose message is the
   * thunk's result or the given text.
   */
  function MissingOf(value: Value, msg: Option<Message>, info: Value): (r: Result)
    ensures r.Valid()
    ensures r.IsOk() <==> !IsNullish(value)
    ensures r.IsOk() ==> r.value == value
    ensures r.IsErr() ==> r.IsMissing() && r.error.err.info == info
    ensures r.IsErr() && msg.None? ==> r.error.err.message == "Missing: "
    ensures r.IsErr() && msg.Some? && msg.value.Thunk? ==> r.error.err.message == "Missing: " + msg.value.call()
    ensures r.IsErr() && msg.Some? && msg.value.Text? ==> r.error.err.message == "Missing: " + msg.value.text
  {
    if !IsNullish(value) then Ok(value)
    else Err(NewMissing(MessageText(msg), info))
  }

  /** `Result.wrap(value)`: an `Error` becomes `Err`; anything else goes through `missing`. */
  function Wrap(value: Value): (r: Result)
    ensures r.Valid()
    ensures IsError(value) ==> r == Err(value)
    ensures !IsError(value) ==> r == MissingOf(value, None, Undefined)
    ensures IsNullish(value) ==> r.IsMissing() && r.error.err.message == "Missing: "
  {
    if !IsError(value) then MissingOf(value, None, Undefined) else Err(value)
  }

  /** `Result.wrapRes(value)`: from the unwrapped encoding; `Result.ok` throws on null or undefined. */
  function WrapRes(value: Value): (r: Outcome<Result>)
    ensures IsError(value) ==> r == Returned(Err(value))
    ensures !IsError(value) ==> r == NewOk(value)
    ensures r.Returned? <==> !IsNullish(value)
    ensures r.Returned? ==> r.value.Valid()
  {
    if !IsError(value) then NewOk(value) else NewErr(value)
  }

  // ---------------------------------------------------------------------
  // ResultE.all
  // ---------------------------------------------------------------------

  /** The index of the first `Err`, or the length when there is none. */
  function FirstErr(rs: seq<Result>): (k: nat)
    ensures k <= |rs|
    ensures forall j :: 0 <= j < k ==> rs[j].Ok?
    ensures k < |rs| ==> rs[k].Err?
  {
    if rs == [] then 0 else if rs[0].Err? then 0 else 1 + FirstErr(rs[1..])
  }

  predicate AllOk(rs: seq<Result>) {
    forall i :: 0 <= i < |rs| ==> rs[i].Ok?
  }

  /** The payloads of a sequence of `Ok`s, in order. */
  function Values(rs: seq<Result>): (vs: seq<Value>)
    requires AllOk(rs)
    ensures |vs| == |rs|
    ensures forall i :: 0 <= i < |rs| ==> vs[i] == rs[i].value
  {
    seq(|rs|, i requires 0 <= i < |rs| => rs[i].value)
  }

  /** What `ResultE.all` computes: all payloads in order, or the first error. */
  function AllOf(rs: seq<Result>): Result {
    var k := FirstErr(rs);
    if k < |rs| then Err(rs[k].error) else Ok(Array(Values(rs)))
  }

  /**
   * `ResultE.all` AS WRITTEN: the first `Err`'s error is taken out again with
   * `res.err().unwrap()`, and `err()` goes through the truthiness-testing
   * `Maybe.just`, so a falsy error throws instead of being returned.
   */
  function AllOfAsWritten(rs: seq<Result>): Outcome<Result> {
    var k := FirstErr(rs);
    if k == |rs| then Returned(Ok(Array(Values(rs))))
    else
      match rs[k].ProjectErrAsWritten()
      case Threw(t) => Threw(t)
      case Returned(m) =>
        match m.Unwrap()
        case Threw(t) => Threw(t)
        case Returned(e) => NewErr(e)
  }

  /** As written, `all([Err("")])` throws, where the corrected `all` returns that `Err`. */
  lemma AllOfAsWrittenThrowsOnEmptyString()
    ensures AllOf([Err(Str(""))]) == Err(Str(""))
    ensures AllOfAsWritten([Err(Str(""))]) == Threw(Error(Generic(JustNullMessage)))
  {
    FirstErrIsFirst([Err(Str(""))], 0);
  }

  /**
   * The as-written `all` throws exactly when the first `Err` holds a falsy
   * error; otherwise it agrees with the corrected `all`. Every `Result<T>`
   * holds an `Error` object, which is truthy, so there the two never differ.
   */
  lemma AllOfAsWrittenAgreesOnTruthyErrors(rs: seq<Result>)
    ensures AllOfAsWritten(rs).Threw? <==> FirstErr(rs) < |rs| && !Truthy(rs[FirstErr(rs)].error)
    ensures AllOfAsWritten(rs).Returned? ==> AllOfAsWritten(rs).value == AllOf(rs)
    ensures (forall i :: 0 <= i < |rs| && rs[i].Err? ==> IsError(rs[i].error)) ==> AllOfAsWritten(rs) == Returned(AllOf(rs))
  {
    var k := FirstErr(rs);
    if k < |rs| {
      FalsyIncludesNullish(rs[k].error);
    }
  }

  /** `ResultE.all(results)` (also `Result.all`): a left-to-right scan that stops at the first `Err`. */
  method All(results: seq<Result>) returns (r: Result)
    ensures r == AllOf(results)
    ensures r.Ok? <==> AllOk(results)
    ensures r.Ok? ==> r.value.Array? && r.value.items == Values(results)
    ensures r.Err? ==> exists k :: 0 <= k < |results| && results[k].Err? && r.error == results[k].error
                                   && forall j :: 0 <= j < k ==> results[j].Ok?
  {
    var values: seq<Value> := [];
    for i := 0 to |results|
      invariant AllOk(results[..i])
      invariant values == Values(results[..i])
    {
      var res := results[i];
      if res.IsOk() {
        values := values + [res.value];
      } else {
        assert FirstErr(results) == i by {
          FirstErrIsFirst(results, i);
        }
        return Err(res.error);
      }
    }
    assert results[..|results|] == results;
    FirstErrOfAllOk(results);
    r := Ok(Array(values));
  }

  lemma FirstErrIsFirst(rs: seq<Result>, i: nat)
    requires i < |rs| && rs[i].Err?
    requires forall j :: 0 <= j < i ==> rs[j].Ok?
    ensures FirstErr(rs) == i
  {
  }

  lemma FirstErrOfAllOk(rs: seq<Result>)
    requires AllOk(rs)
    ensures FirstErr(rs) == |rs|
  {
  }

  /**
   * First error wins: in a sequence that contains an `Err`, `all` returns the
   * leftmost one, and nothing after it matters.
   */
  lemma {:induction false} AllOfFirstErrorWins(prefix: seq<Result>, e: Value, rest: seq<Result>, rest2: seq<Result>)
    requires AllOk(prefix)
    ensures AllOf(prefix + [Err(e)] + rest) == Err(e)
    ensures AllOf(prefix + [Err(e)] + rest) == AllOf(prefix + [Err(e)] + rest2)
  {
    var s := prefix + [Err(e)] + rest;
    var s2 := prefix + [Err(e)] + rest2;
    FirstErrIsFirst(s, |prefix|);
    FirstErrIsFirst(s2, |prefix|);
  }

  /** `all` of `Ok`s is `Ok` of the payloads in input order (the array order is kept). */
  lemma {:induction false} AllOfOks(vs: seq<Value>)
    ensures AllOf(seq(|vs|, i requires 0 <= i < |vs| => Ok(vs[i]))) == Ok(Array(vs))
  {
    var rs := seq(|vs|, i requires 0 <= i < |vs| => Ok(vs[i]));
    FirstErrOfAllOk(rs);
    assert Values(rs) == vs;
  }

  // ---------------------------------------------------------------------
  // Laws of the combinators
  // ---------------------------------------------------------------------

  /** The constructors refuse exactly null and undefined, and store the payload unchanged. */
  lemma ConstructorsRefuseNullish(v: Value)
    ensures NewOk(v).Threw? <==> IsNullish(v)
    ensures NewErr(v).Threw? <==> IsNullish(v)
    ensures !IsNullish(v) ==> NewOk(v).value.value == v && NewErr(v).value.error == v
  {
  }

  /** `isMissing` holds iff the result is an `Err` carrying a `Missing`; so it implies `isErr`. */
  lemma IsMissingIsErrMissing(r: Result)
    ensures r.IsMissing() <==> r.IsErr() && IsMissingError(r.error)
    ensures r.IsMissing() ==> r.IsErr() && !r.IsOk()
  {
  }

  /**
   * `map` applies the function under `Ok` only; an `Err` comes back unchanged
   * whatever the function. Mapping composes as long as nothing throws.
   */
  lemma MapLaws(r: Result, f: Value -> Value, g: Value -> Value)
    ensures r.IsOk() && !IsNullish(f(r.value)) ==> r.Map(f) == Returned(Ok(f(r.value)))
    ensures r.IsOk() && IsNullish(f(r.value)) ==> r.Map(f) == Threw(Error(Generic(OkNullMessage)))
    ensures r.IsErr() ==> r.Map(f) == r.Map(g) == Returned(r)
    ensures r.Map(f).Returned? ==> r.Map(f).value.Map(g) == r.Map(x => g(f(x)))
  {
  }

  /** `mapErr` is the mirror image of `map`. */
  lemma MapErrLaws(r: Result, f: Value -> Value, g: Value -> Value)
    ensures r.IsErr() && !IsNullish(f(r.error)) ==> r.MapErr(f) == Returned(Err(f(r.error)))
    ensures r.IsErr() && IsNullish(f(r.error)) ==> r.MapErr(f) == Threw(Error(Generic(ErrNullMessage)))
    ensures r.IsOk() ==> r.MapErr(f) == r.MapErr(g) == Returned(r)
    ensures r.MapErr(f).Returned? ==> r.MapErr(f).value.MapErr(g) == r.MapErr(x => g(f(x)))
  {
  }

  /** Monad laws of `andThen` with `Ok` as unit; `Err` short-circuits; `and` is a constant `andThen`. */
  lemma AndThenMonad(v: Value, r: Result, op: Value -> Result, op2: Value -> Result, next: Result)
    ensures Ok(v).AndThen(op) == op(v)
    ensures r.AndThen(x => Ok(x)) == r
    ensures r.AndThen(op).AndThen(op2) == r.AndThen(x => op(x).AndThen(op2))
    ensures r.IsErr() ==> r.AndThen(op) == r.AndThen(op2) == r.And(next) == r
    ensures r.And(next) == r.AndThen(_ => next)
  {
  }

  /** `Ok` is a fixed point of `or`/`orElse`; an `Err` defers to the alternative. */
  lemma OrLaws(r: Result, next: Result, op: Value -> Result)
    ensures r.Or(next) == r.OrElse(_ => next)
    ensures r.IsOk() ==> r.Or(next) == r && r.OrElse(op) == r
    ensures r.IsErr() ==> r.Or(next) == next && r.OrElse(op) == op(r.error)
    ensures r.OrElse(e => Err(e)) == r
  {
  }

  /** `unwrap` returns an `Ok` payload and on `Err` throws an error that keeps the original. */
  lemma UnwrapLaws(r: Result, def: Value, op: Value -> Value)
    ensures r.Unwrap().Returned? <==> r.IsOk()
    ensures r.IsOk() ==> r.Unwrap().value == r.value == r.UnwrapOr(def) == r.UnwrapOrElse(op)
    ensures r.IsErr() ==> r.Unwrap().thrown.err.original == r.error
    ensures r.IsErr() ==> r.UnwrapOr(def) == def && r.UnwrapOrElse(op) == op(r.error)
  {
  }

  /** `ok()` and `err()` project onto `Just`/`Nothing`, discarding the other side. */
  lemma ProjectionLaws(r: Result)
    requires r.Valid()
    ensures r.IsOk() ==> r.ProjectOk() == Returned(Just(r.value)) && r.ProjectErr() == Returned(Nothing)
    ensures r.IsErr() ==> r.ProjectOk() == Returned(Nothing) && r.ProjectErr() == Returned(Just(r.error))
  {
  }

  /** The as-written `ok()` throws on the valid result `Ok(0)`. */
  lemma ProjectOkAsWrittenRejectsZero()
    ensures Ok(Num(0)).Valid()
    ensures Ok(Num(0)).ProjectOkAsWritten().Threw?
    ensures Ok(Num(0)).ProjectOk() == Returned(Just(Num(0)))
  {
  }

  /** On truthy payloads the as-written projections agree with the corrected ones. */
  lemma ProjectionsAgreeOnTruthy(r: Result)
    requires r.IsOk() ==> Truthy(r.value)
    requires r.IsErr() ==> Truthy(r.error)
    ensures r.ProjectOkAsWritten() == r.ProjectOk()
    ensures r.ProjectErrAsWritten() == r.ProjectErr()
  {
    match r
    case Ok(v) => FalsyIncludesNullish(v);
    case Err(e) => FalsyIncludesNullish(e);
  }

  /**
   * `okOr`/`okOrElse` round-trip through the projections:
   * `Just(v).okOr(e).ok().unwrap()` is `v` and `Nothing.okOr(e).err().unwrap()` is `e`.
   */
  lemma OkOrRoundTrip(m: Maybe, err: Value, errFn: () -> Value)
    requires m.IsSome() ==> !IsNullish(m.value)
    requires m.IsNone() ==> !IsNullish(err) && !IsNullish(errFn())
    ensures OkOr(m, err).Returned? && OkOrElse(m, errFn).Returned?
    ensures m.IsSome() ==> OkOr(m, err) == OkOrElse(m, errFn) == Returned(Ok(m.value))
    ensures m.IsSome() ==> OkOr(m, err).value.ProjectOk().value.Unwrap() == Returned(m.value)
    ensures m.IsNone() ==> OkOr(m, err).value.ProjectErr().value.Unwrap() == Returned(err)
    ensures m.IsNone() ==> OkOrElse(m, errFn) == Returned(Err(errFn()))
  {
  }

  /** As written, the round trip fails for `Just(0)`: the `ok()` step throws. */
  lemma OkOrRoundTripAsWrittenFailsOnZero(err: Value)
    ensures OkOr(Just(Num(0)), err) == Returned(Ok(Num(0)))
    ensures OkOr(Just(Num(0)), err).value.ProjectOkAsWritten() == Threw(Error(Generic(JustNullMessage)))
  {
  }

  /**
   * `caseOf` sends `Ok` to its handler; a `Missing` handler takes priority
   * for a `Missing` error only, and an absent one falls through to `Err`.
   */
  lemma CaseOfDispatch<X>(r: Result, p: Patterns<X>)
    ensures r.IsOk() ==> r.CaseOf(p) == p.onOk(r.value)
    ensures r.IsMissing() && p.onMissing.Some? ==> r.CaseOf(p) == p.onMissing.value(r.error)
    ensures r.IsErr() && !r.IsMissing() ==> r.CaseOf(p) == p.onErr(r.error)
    ensures r.CaseOf(p.(onMissing := None)) == r.CaseOf(p.(onMissing := Some(p.onErr)))
  {
  }

  /** `equals` requires the same variant; with a reflexive `eq` a result equals itself. */
  lemma EqualsLaws(r: Result, other: Result, eq: (Value, Value) -> bool)
    ensures r.Equals(other, eq) ==> r.IsOk() == other.IsOk()
    ensures (forall a :: eq(a, a)) ==> r.Equals(r, eq)
    ensures r.Equals(other, (a, b) => a == b) <==> r == other
  {
  }

  /** `Err.res()` throws exactly when the error is not an `Error`. */
  lemma ToResLaws(r: Result)
    ensures r.IsOk() ==> r.ToRes() == Returned(r.value)
    ensures r.IsErr() ==> (r.ToRes().Threw? <==> !IsError(r.error))
    ensures r.IsErr() && IsError(r.error) ==> r.ToRes() == Returned(r.error)
  {
  }
}
