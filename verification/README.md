# manyrepo monad library — a Dafny model

This project models the small algebraic library under `src/monad/` of the
manyrepo command-line tool, and proves properties of that model. The library has four parts:

- `Maybe`: an optional value, implemented as the classes `Just` and `Nothing`. The factories `Maybe.just`, `Maybe.maybe` and `Just.wrapNull` build it.
- `Result` / `ResultE`: success or failure, implemented as the classes `Ok` and `Err`. It has a distinguished `Missing` error, projections to `Maybe`, `caseOf` dispatch and structural `equals`. The helpers `all`, `missing`, `wrap` and `wrapRes` go with it.
- The unwrapped encoding of `res.ts`:
  - `Maybe<T> = T | undefined`: only `undefined` is None.
  - `Res<T> = T | Error`: a value is an Err exactly when it is an `Error` instance.

  These are free functions over plain values.
- `Future`: a single-assignment cell. It queues subscribers until the first `complete`, then notifies them once each, in order.

Type parameters are erased at run time, so every payload is a JavaScript value: the datatype `JsValues.Value` (undefined, null, booleans, integers, strings, other objects, arrays, errors).

Exceptions are modelled as an `Outcome`: a function either returns a value or throws one. The thrown value uses the exact message strings of the source. Callbacks are parameters of arrow type. The library's value equality `eq` is a parameter, because its definition is not part of this model.

The files and modules are:

- `js_values.dfy` (`JsValues`): values, null and truthiness tests, `Missing` construction, `Outcome`.
- `maybe.dfy` (`Maybes`): the wrapped `Maybe`, its factories and its laws.
- `result.dfy` (`Results`): the wrapped `Result`, the constructors, `okOr`, `missing`, `wrap`, `wrapRes` and `all`, with its laws.
- `res.dfy` (`UnwrappedMaybe`, `Res`): the unwrapped encoding and `Res.all`.
- `encodings.dfy` (`Encodings`): conversions between the two encodings, and proofs that every combinator commutes with them.
- `future.dfy` (`Futures`): the `Future` class. Its object invariant covers delivery of each subscriber exactly once and in order.

The model keeps the code's corner cases:
- `new Just(v)` accepts any value, `null` included; only the factories check.
- `Future.complete` with a plain `null` or `undefined` throws, because `Result.ok` refuses them. The future then stays pending.
- `ResultE.missing` takes its message either as a function, which it calls, or as a plain text.

In three places the code throws where it evidently should not (see Findings). There the model carries both versions: an as-written member and a corrected one, tied by lemmas. The rest of the model builds on the corrected version:
- `Maybe.just` tests truthiness, so it rejects false, 0 and "" as well as null and undefined. As written: `Maybes.JustAsWritten`, `Results.Result.ProjectOkAsWritten`, `Results.Result.ProjectErrAsWritten`. Corrected: `Maybes.JustNonNull`, which `ok()` and `err()` use.
- `ResultE.all` takes the first error out again through `err()`, so a falsy error throws. As written: `Results.AllOfAsWritten`. Corrected: `Results.AllOf` and the method `Results.All`.
- `Future.fmap` with a future-valued reply throws instead of adopting the inner future. As written: `Futures.FmapStepAsWritten`. Corrected: `Futures.FmapStep`, which the method `Futures.Future.Fmap` uses.

`Futures.SettleOnceInOrder` is a worked client of the `Future` class. It queues three subscribers, completes twice and subscribes late, and asserts the resulting calls: each subscriber once, in order, always with the first value.

## Model

| member | source | states |
|---|---|---|
| `Maybes.JustAsWritten` | src/monad/maybe.ts:106-112 | `Maybe.just` returns `Just(value)` exactly for truthy values and throws the construction error on every falsy one (false, 0, "", null, undefined) |
| `Maybes.JustAsWrittenRejectsZero` | src/monad/maybe.ts:107 | the truthiness test throws on `0`, which the corrected factory accepts |
| `Maybes.JustNonNull` | src/monad/maybe.ts:110 | corrected `Maybe.just`: throws exactly on null and undefined, as its message says; otherwise `Just(value)` |
| `Maybes.JustFactoriesAgreeOffFalsy` | src/monad/maybe.ts:106-112 | both factories coincide on every truthy value and on null/undefined; they differ only on false, 0 and "" |
| `Maybes.NothingOf` | src/monad/maybe.ts:114-116 | `Maybe.nothing()` is None and not Some |
| `Maybes.MaybeOf` | src/monad/maybe.ts:118-124 | `Maybe.maybe` gives `Nothing` exactly for null/undefined, and otherwise a `Just` holding the value unchanged |
| `Maybes.WrapNullIsMaybeOf` | src/monad/maybe.ts:136-142 | `Just.wrapNull` is the same function as `Maybe.maybe`: None iff null/undefined |
| `Maybes.JustNonNullIsMaybeOf` | src/monad/maybe.ts:118-124 | the corrected `just` is `maybe` restricted to the values it accepts; it throws exactly where `maybe` gives `Nothing` |
| `Maybes.IsMaybe` | src/monad/maybe.ts:3-6 | `isMaybe` holds exactly for `Just`/`Nothing` objects |
| `Maybes.IsNoneNegatesIsSome` | src/monad/maybe.ts:148-154 | `isNone` is the exact negation of `isSome` |
| `Maybes.UnwrapIdentity` | src/monad/maybe.ts:241-244 | `unwrap` returns iff Some, returns `v` for `Just(v)`, and `Nothing.unwrap()` always throws 'None.unwrap' |
| `Maybes.MapFunctor` | src/monad/maybe.ts:144-146 | functor laws: mapping the identity is the identity; mapping f then g is mapping their composition |
| `Maybes.MapIsAndThenJust` | src/monad/maybe.ts:221-223 | `map f` equals `andThen(x => Just(f x))`; on `Nothing` the result is `Nothing` whatever `f` is, so `f` plays no part |
| `Maybes.AndThenMonad` | src/monad/maybe.ts:198-200 | monad laws: `Just(v).andThen(f) = f(v)`, right identity, associativity; `Nothing.andThen` short-circuits |
| `Maybes.AndIsConstantAndThen` | src/monad/maybe.ts:272-278 | `and(o)` is `andThen` with a constant continuation: `Nothing` on Nothing, `o` on Just |
| `Maybes.OrFixedPoint` | src/monad/maybe.ts:202-208 | `Just` is a fixed point of `or`/`orElse`; `Nothing.or(o) = o`, `Nothing.orElse(f) = f()`; `or` is `orElse` with a constant; `Nothing` is a unit of `or` |
| `Maybes.EliminatorsAgree` | src/monad/maybe.ts:156-184 | `unwrapOr`, `unwrapOrElse`, `isSomeAnd` and `isNoneAnd` are `mapOr`/`mapOrElse` at fixed arguments, so each uses the value only on Just and the fallback only on Nothing |
| `Results.NewOk` | src/monad/result.ts:161-167 | the `Ok` constructor throws exactly on null/undefined and otherwise stores the payload unchanged in a valid result |
| `Results.NewErr` | src/monad/result.ts:256-262 | the `Err` constructor throws exactly on null/undefined and otherwise stores the error unchanged |
| `Results.ConstructorsRefuseNullish` | src/monad/result.ts:116-122 | `ResultE.ok`/`err` fail iff the payload is null/undefined, and give back that payload otherwise |
| `Results.IsResult` | src/monad/result.ts:137-140 | `isResult` holds exactly for `Ok`/`Err` objects |
| `JsValues.NewMissing` | src/monad/result.ts:14-18 | a `Missing` is an `Error` and a `Missing`; its message is "Missing: " followed by the message (default empty), and it keeps the info |
| `Results.MissingOf` | src/monad/result.ts:142-152 | `missing` gives `Ok(value)` iff the value is not null/undefined, else an `Err(Missing)` carrying the info whose message is "Missing: " followed by `msg()` for a function, by `msg` itself for a text, and by nothing when `msg` is absent |
| `Results.Wrap` | src/monad/result.ts:381-387 | `Result.wrap` sends an `Error` to `Err` and anything else through `missing`, so null/undefined become a `Missing` with message "Missing: " |
| `Results.WrapRes` | src/monad/result.ts:389-395 | `wrapRes` sends an `Error` to `Err` and anything else to `Ok`; it throws exactly on null/undefined |
| `Results.All` | src/monad/result.ts:124-135 | corrected `all` (the error is not re-checked by `Maybe.just`): `Ok` iff every element is `Ok`, then holds all payloads in input order; otherwise an `Err` with the leftmost `Err`'s error |
| `Results.AllOfAsWrittenThrowsOnEmptyString` | src/monad/result.ts:130 | as written, `all([Err("")])` throws at `err()`, where the corrected `all` returns `Err("")` |
| `Results.AllOfAsWrittenAgreesOnTruthyErrors` | src/monad/result.ts:124-135 | as written, `all` throws exactly when the first `Err` holds a falsy error, and otherwise equals the corrected `all`; so the two agree whenever every error is an `Error` object (every `Result<T>`) |
| `Results.FirstErr` | src/monad/result.ts:126-131 | the scan stops at an index before which all elements are `Ok` and at which there is an `Err` (or the end) |
| `Results.AllOfFirstErrorWins` | src/monad/result.ts:129-131 | with an `Ok` prefix, the corrected `all` returns the first `Err` and is independent of everything after it |
| `Results.AllOfOks` | src/monad/result.ts:125-134 | `all` over `Ok(v1..vn)` is `Ok([v1..vn])` |
| `Results.IsMissingIsErrMissing` | src/monad/result.ts:280-282 | `isMissing` holds iff the result is an `Err` whose error is a `Missing`; it implies `isErr` |
| `Results.MapLaws` | src/monad/result.ts:169-175 | `Ok(v).map(f) = Ok(f v)` (throws if `f v` is null/undefined); `Err.map` returns the same `Err` whatever `f`; maps compose |
| `Results.MapErrLaws` | src/monad/result.ts:268-270 | the mirror image for `mapErr` |
| `Results.AndThenMonad` | src/monad/result.ts:197-203 | monad laws with `Ok` as unit; `Err.and`/`andThen` return the same `Err` without using the continuation; `and` is a constant `andThen` |
| `Results.OrLaws` | src/monad/result.ts:300-306 | `Ok` is a fixed point of `or`/`orElse`; `Err(e).or(r) = r`, `Err(e).orElse(op) = op(e)`; `orElse(Err)` is the identity |
| `Results.UnwrapLaws` | src/monad/result.ts:316-318 | `unwrap` returns iff `Ok`; on `Err` it throws an unwrap error holding the original error; `unwrapOr`/`unwrapOrElse` fall back only on `Err` |
| `Results.ProjectionLaws` | src/monad/result.ts:189-195 | corrected `ok()`/`err()` send `Ok(v)` to `Just(v)`/`Nothing` and `Err(e)` to `Nothing`/`Just(e)` |
| `Results.ProjectOkAsWrittenRejectsZero` | src/monad/result.ts:189-191 | as written, `ok()` on the valid `Ok(0)` throws |
| `Results.ProjectionsAgreeOnTruthy` | src/monad/result.ts:284-290 | as-written and corrected projections coincide whenever the payload is truthy |
| `Results.OkOrRoundTrip` | src/monad/maybe.ts:186-192 | `okOr`/`okOrElse` send `Just(v)` to `Ok(v)` and `Nothing` to `Err(e)`/`Err(e())`; `Just(v).okOr(e).ok().unwrap() = v` and `Nothing.okOr(e).err().unwrap() = e` |
| `Results.OkOrRoundTripAsWrittenFailsOnZero` | src/monad/maybe.ts:186-188 | as written, the round trip throws at `ok()` for `Just(0)` |
| `Results.CaseOfDispatch` | src/monad/result.ts:320-327 | `caseOf` picks the Ok handler for `Ok`; for `Err`, the Missing handler only when it is supplied and the error is a `Missing`, else the Err handler; omitting the Missing handler equals supplying the Err handler for it |
| `Results.EqualsLaws` | src/monad/result.ts:329-335 | `equals` requires the same variant; a reflexive `eq` makes every result equal to itself; with identity as `eq` it is datatype equality |
| `Results.ToResLaws` | src/monad/result.ts:349-355 | `res()` returns the `Ok` payload; on `Err` it throws exactly when the error is not an `Error` |
| `UnwrappedMaybe.NoneIsExactlyUndefined` | src/monad/res.ts:11-20 | `isSome(m)` iff `m` is not undefined (so null is Some); `isNone` is its negation |
| `UnwrappedMaybe.AndShortCircuits` | src/monad/res.ts:148-167 | `and`/`andThen` give undefined on None whatever the argument; on Some they give `optb`/`f(m)` |
| `UnwrappedMaybe.OrOnlyOnNone` | src/monad/res.ts:173-191 | `or`/`orElse` return `m` on Some and `optb`/`f()` only on None |
| `UnwrappedMaybe.UnwrapLaws` | src/monad/res.ts:47-80 | `unwrap` throws exactly on None; `unwrapOr` returns `m` on Some and the default (undefined when omitted) on None |
| `UnwrappedMaybe.EliminatorsAgree` | src/monad/res.ts:25-118 | `unwrapOr`, `isSomeAnd` and `isNoneAnd` are `mapOr`/`mapOrElse` at fixed arguments; `map` of the identity is the identity |
| `Res.Discrimination` | src/monad/res.ts:198-214 | `isErr` is the negation of `isOk`; `isMissing` implies `isErr`; null and undefined are Ok |
| `Res.OkSideOnlyOnOk` | src/monad/res.ts:245-286 | `map`/`and`/`andThen` use the function or next value only on Ok and return an Err unchanged, whatever the function |
| `Res.ErrSideOnlyOnErr` | src/monad/res.ts:257-311 | `mapErr`/`or`/`orElse` use the function or next value only on Err and return an Ok unchanged |
| `Res.UnwrapLaws` | src/monad/res.ts:316-347 | `unwrap` returns Ok values and throws a `ResUnwrapError` holding the original on Err; `unwrapOr`/`unwrapOrElse` fall back only on Err |
| `Res.ProjectionLaws` | src/monad/res.ts:220-238 | `ok`/`err` keep the value on their own side and give undefined on the other |
| `Res.Missing` | src/monad/res.ts:349-355 | a non-null value comes back unchanged; null/undefined become a `Missing` error with message "Missing: " + msg and the given info |
| `Res.All` | src/monad/res.ts:357-368 | `all` returns the array of all values in input order iff none is an `Error`; otherwise it returns the leftmost `Error` |
| `Res.FirstError` | src/monad/res.ts:359-365 | the scan stops at an index before which no element is an `Error` and at which one is (or the end) |
| `Res.AllOfFirstErrorWins` | src/monad/res.ts:362-364 | with an error-free prefix, `all` returns the first `Error`, whatever follows |
| `Encodings.LiftLowerInverse` | src/monad/res.ts:3 | converting `T \| undefined` to a wrapped `Maybe` and back is the identity; the other way round it is too, except for `Just(undefined)` |
| `Encodings.MaybeOfVersusLift` | src/monad/res.ts:11-13 | `Maybe.maybe` and the unwrapped `Maybe` differ only on null (Nothing vs Some) |
| `Encodings.MaybeCombinatorsAgree` | src/monad/res.ts:7-192 | each unwrapped `Maybe` function other than `okOr`/`okOrElse` (`isSome`, `isNone`, `isSomeAnd`, `isNoneAnd`, `unwrap`, `unwrapOr`, `unwrapOrElse`, `map`, `mapOr`, `mapOrElse`, `and`, `andThen`, `or`, `orElse`) equals the wrapped method read through the conversions |
| `Encodings.OkOrAgrees` | src/monad/res.ts:124-142 | the unwrapped `okOr`/`okOrElse` followed by `wrapRes` equal the wrapped `okOr`/`okOrElse`, null payload included (both throw) |
| `Encodings.WrapResThenToRes` | src/monad/result.ts:389-395 | `wrapRes(x).res() = x` for every non-null x |
| `Encodings.ToResThenWrapRes` | src/monad/result.ts:245-247 | `wrapRes(r.res()) = r` for every result that has an unwrapped form |
| `Encodings.OkHoldingErrorBecomesErr` | src/monad/res.ts:2 | an `Ok` that holds an `Error` comes back from the unwrapped form as an `Err` (the accepted restriction of `T \| Error`) |
| `Encodings.DiscriminatorsAgree` | src/monad/res.ts:198-214 | `isOk`, `isErr` and `isMissing` of `wrapRes(x)` equal `Res.isOk/isErr/isMissing(x)` |
| `Encodings.ProjectionsAgree` | src/monad/res.ts:220-238 | corrected `ok()`/`err()` of `wrapRes(x)` equal `Res.ok(x)`/`Res.err(x)` |
| `Encodings.ProjectionAsWrittenDisagreesOnZero` | src/monad/result.ts:189-191 | as written, `wrapRes(0).ok()` throws where `Res.ok(0)` returns 0 |
| `Encodings.MapAgrees` | src/monad/res.ts:245-251 | `wrapRes(Res.map(x, f)) = wrapRes(x).map(f)` when `f` returns no `Error` |
| `Encodings.MapErrAgrees` | src/monad/res.ts:257-263 | `wrapRes(Res.mapErr(x, f)) = wrapRes(x).mapErr(f)` for error-to-error `f` |
| `Encodings.AndOrAgree` | src/monad/res.ts:268-298 | `Res.and`/`Res.or` equal the wrapped `and`/`or` through `wrapRes` |
| `Encodings.AndThenAgrees` | src/monad/res.ts:280-286 | `Res.andThen` equals the wrapped `andThen` for continuations that agree through `wrapRes` |
| `Encodings.OrElseAgrees` | src/monad/res.ts:305-311 | `Res.orElse` equals the wrapped `orElse` for recovery functions that agree through `wrapRes` |
| `Encodings.UnwrapAgrees` | src/monad/res.ts:316-347 | both `unwrap`s succeed on the same inputs with the same value, and on failure both hold the same original error; `unwrapOr`/`unwrapOrElse` agree |
| `Encodings.MissingAgrees` | src/monad/res.ts:349-355 | `wrapRes(Res.missing(v, msg, info))` equals both `ResultE.missing(v, () => msg, info)` and `ResultE.missing(v, msg, info)` for non-error `v` |
| `Encodings.AllAgrees` | src/monad/res.ts:357-368 | `wrapRes(Res.all(xs)) = ResultE.all(xs mapped by wrapRes)` |
| `Futures.SettledValue` | src/monad/future.ts:66-70 | `complete` stores a Result argument as it is and wraps any other argument as `Ok`, which throws on null/undefined |
| `Futures.CompleteWithFalsyValueStoresOk` | src/monad/future.ts:66-70 | `isResult`'s falsy guard only turns plain values away: completing with `false`, `0` or `""` stores `Ok` of that value |
| `Futures.NotifyCallsEachOnceInOrder` | src/monad/future.ts:74-77 | notification makes one call per queued subscriber, the i-th call to the i-th subscriber, each with the settled value |
| `Futures.Future.constructor` | src/monad/future.ts:6-9 | a new future is pending with no subscribers and no deliveries |
| `Futures.Future.Ready` | src/monad/future.ts:35-41 | settled: the callback is called at once with the value and `subs` is untouched; pending: it is appended to `subs` and not called; value and flag never change |
| `Futures.Future.Complete` | src/monad/future.ts:60-81 | on a settled future a no-op; otherwise fixes the value, sets `completed`, calls the old `subs` in order with that value and empties `subs`; if wrapping throws, nothing changes; the invariant (completed ⇒ `subs` empty, each registration delivered once in order with the final value) is kept |
| `Futures.SettledDeliveredEachRegistrationOnce` | src/monad/future.ts:74-80 | in a settled future, the i-th subscriber queued before settlement received the i-th call, with the settled value |
| `Futures.Future.Unit` | src/monad/future.ts:15-19 | `Future.unit(v)` is settled with `Ok(v)` when it returns (throws for null/undefined) |
| `Futures.Future.ErrorOf` | src/monad/future.ts:21-25 | `Future.error(e)` is settled with `Err(e)` when it returns |
| `Futures.Future.Fmap` | src/monad/future.ts:43-58 | the relay subscriber goes through `ready`: on a settled future it is called at once (logged once, with the settled value), and the new future settles with the reply or the call throws, following the corrected step `FmapStep` (a settled inner future is adopted, where the code as written throws, see `FmapStepAsWritten`); on a pending future the relay is queued and the new future is pending; the invariant is kept |
| `Futures.FmapAdoptionAsWrittenThrows` | src/monad/future.ts:51-52 | as written, adopting a settled inner future throws `Result.ok(undefined)`'s error; the corrected step settles to the inner value and otherwise agrees |

## Left out

- `src/clone.ts`, `src/manifest.ts` and `src/typings/*.d.ts` are not part of this model: they are CLI wiring, file and YAML I/O, and ambient declarations.
- Callbacks are total, pure Dafny functions. Callbacks that throw, have side effects, or re-enter a future while it is notifying are not modelled.
- A subscriber is an opaque identifier; calling it is recorded in a ghost log.
- Numbers are integers. NaN, -0, fractions and bigint are not modelled. In particular, `Maybe.just(NaN)` also throws, because NaN is falsy.
- The `eq` value equality of the library is a parameter; its definition is not part of this model.
- `toString`, `unsafeCast`/`cast`, the `Nothing` singleton instance and the `console.error` call in `Nothing.unwrap` are not modelled. They are runtime identities or output.
- The message text and stack capture of `ResultUnwrapError`/`ResUnwrapError` are not modelled. Only "the thrown error holds the original" is.
- `new Ok(this.value)` / `new Err(this.error)` in `mapErr`, `and`, `andThen` and `orElse` re-wrap a payload a constructor already accepted. They are written as plain construction and cannot throw.
- `Results.Result` does not itself enforce non-null payloads. Lemmas that need it assume `Valid()`, which every constructed result satisfies.
- `Result.ok`, `Result.err`, `Result.all`, `Result.missing` and `Result.isResult` are the same functions as their `ResultE` counterparts and share their members.
- `Maybe.okOr`/`okOrElse` are defined in `Results`, because they build results.
- Results.All: returns the first `Err`'s error directly, as corrected. The code as written throws when that error is falsy, because `err()` goes through `Maybe.just`. Only `Results.AllOfAsWritten` and its two lemmas capture that. The same holds for `Results.AllOf` and `Results.AllOfFirstErrorWins`.
- The `Future` setup routine is represented by calls to `Complete`. A synchronous setup is a `Complete` call right after construction.
- Real asynchrony is not modelled.
- `Future.isFuture` is the distinction between the `Adopt…` replies and the others.
- `Future.lift1(fn)` is `fut => fut.fmap(fn)`: a closure, modelled by `Fmap` itself.
- Futures.Future.Fmap: uses the corrected adoption `FmapStep`. For a settled future-valued reply the code as written throws `Result.ok(undefined)`'s error out of `fmap`; only `FmapStepAsWritten` and `FmapAdoptionAsWrittenThrows` capture that. The method also models only what happens before `fmap` returns. When `this` is pending, it does not model how the relay subscriber later settles the new future. When the reply is a pending inner future, it does not model how the new future later adopts it.

## Findings

| source | as written | input that shows it | evidently intended | confidence | as-written member | corrected member |
|---|---|---|---|---|---|---|
| src/monad/maybe.ts:107 | `Maybe.just` tests truthiness, so it throws "Cannot create Just with null or undefined value" for false, 0 and "". `Ok.ok()` and `Err.err()` go through it, and so do `ResultE.all`'s `err().unwrap()` and the `okOr` round trip | `new Ok(0).ok()` throws; `Just(0).okOr(e).ok()` throws | reject only null and undefined (the message says so; `maybe`, `wrapNull`, `Ok` and `Err` all test `!= null`), so `Ok(v).ok()` is `Just(v)`; the model's projections and `all` use this | medium, not executed | `Maybes.JustAsWritten` | `Maybes.JustNonNull` |
| src/monad/future.ts:52 | for a future-valued reply, `fmap` runs `res.fmap(complete)`. The relaying future is then completed with what `complete` returns, which is `undefined`, and `Result.ok(undefined)` throws. When the inner future settles later, that throw escapes inside its notification loop. | `Future.unit(1).fmap(_ => Future.unit(2))` throws synchronously, although the new future was already settled with `Ok(2)` | the new future adopts the inner future's settlement, and no exception is raised | high, not executed | `Futures.FmapStepAsWritten` | `Futures.FmapStep` |
| src/monad/result.ts:130 | `all` returns `ResultE.err(res.err().unwrap())`, and `Err.err()` is `Maybe.just(this.error)`, which throws on a falsy error | `ResultE.all([new Err("")])` throws "Cannot create Just with null or undefined value" instead of returning `Err("")` | return the first `Err`'s error as it is | medium, not executed | `Results.AllOfAsWritten` | `Results.All` |
