/**
 * `Future<T>`: a single-assignment cell that eventually holds one `Result`.
 *
 * The object keeps a list of pending subscribers, the settled value and a
 * completed flag. `ready` either calls a subscriber at once (settled) or
 * queues it (pending); the first `complete` fixes the value, calls the queued
 * subscribers in registration order and clears the list; later calls do
 * nothing. Nothing runs in parallel: it is a sequential state machine.
 *
 * Subscribers are callbacks; here each is an opaque identifier, and calling
 * one is recorded in the ghost log `delivered` as the pair (subscriber,
 * value). The setup routine handed to the source's constructor only ever
 * calls `complete`, so the model exposes `Complete` as a method and a setup
 * that settles synchronously is a `Complete` call right after construction.
 */
module Futures {
  import opened JsValues
  import opened Results

  type SubId = nat

  /** The calls made when `subs` are notified with `v`: each subscriber once, in order. */
  function Notify(subs: seq<SubId>, v: Result): seq<(SubId, Result)> {
    if subs == [] then [] else [(subs[0], v)] + Notify(subs[1..], v)
  }

  /** Notifying calls the i-th queued subscriber i-th, with the one settled value, and nobody else. */
  lemma {:induction false} NotifyCallsEachOnceInOrder(subs: seq<SubId>, v: Result)
    ensures |Notify(subs, v)| == |subs|
    ensures forall i :: 0 <= i < |subs| ==> Notify(subs, v)[i] == (subs[i], v)
  {
    if subs != [] {
      NotifyCallsEachOnceInOrder(subs[1..], v);
    }
  }

  /** Notifying a list extended by one subscriber calls that subscriber last. */
  lemma {:induction false} NotifySnoc(subs: seq<SubId>, s: SubId, v: Result)
    ensures Notify(subs + [s], v) == Notify(subs, v) + [(s, v)]
  {
    if subs == [] {
      assert [s][1..] == [];
    } else {
      assert (subs + [s])[1..] == subs[1..] + [s];
      NotifySnoc(subs[1..], s, v);
    }
  }

  /** Every call in the log received `v`. */
  ghost predicate AllCarry(log: seq<(SubId, Result)>, v: Result) {
    forall i :: 0 <= i < |log| ==> log[i].1 == v
  }

  /**
   * The value `complete` stores: an argument that is a Result is kept as it
   * is; anything else is wrapped by `Result.ok`, which throws on null and
   * undefined.
   */
  function SettledValue(arg: ResultOrValue): (r: Outcome<Result>)
    ensures arg.AResult? ==> r == Returned(arg.r)
    ensures arg.AValue? ==> (r.Returned? <==> !IsNullish(arg.v))
    ensures arg.AValue? && r.Returned? ==> r.value == Ok(arg.v)
  {
    if IsResult(arg) then Returned(arg.r) else NewOk(arg.v)
  }

  /**
   * `isResult`'s falsy guard only ever turns plain values away: completing
   * with `0`, `false` or `""` stores `Ok` of that value, as for any other
   * non-null plain value.
   */
  lemma CompleteWithFalsyValueStoresOk(v: Value)
    requires !Truthy(v) && !IsNullish(v)
    ensures !IsResult(AValue(v))
    ensures SettledValue(AValue(v)) == Returned(Ok(v))
    ensures v == Bool(false) || v == Num(0) || v == Str("")
  {
    FalsyIncludesNullish(v);
  }

  /** What `fmap`'s function returned: a plain value or Result, or another future (settled or pending). */
  datatype Reply = Settle(arg: ResultOrValue) | AdoptSettled(inner: Result) | AdoptPending

  /** The state of `fmap`'s new future when `fmap` returns. */
  datatype Sync = SettledWith(r: Result) | StillPending

  /**
   * `fmap` on a settled future, AS WRITTEN: for a future-valued reply it runs
   * `res.fmap(complete)`, whose function is the new future's `complete`; that
   * settles the new future and returns undefined, which the relaying future
   * then completes with, and `Result.ok(undefined)` throws out of `fmap`.
   */
  function FmapStepAsWritten(reply: Reply): Outcome<Sync> {
    match reply
    case Settle(arg) =>
      (match SettledValue(arg)
       case Returned(r) => Returned(SettledWith(r))
       case Threw(t) => Threw(t))
    case AdoptSettled(inner) =>
      var relay := SettledValue(AValue(Undefined));
      if relay.Threw? then Threw(relay.thrown) else Returned(SettledWith(inner))
    case AdoptPending => Returned(StillPending)
  }

  /** `fmap` on a settled future as evidently intended: a future-valued reply is adopted. */
  function FmapStep(reply: Reply): Outcome<Sync> {
    match reply
    case Settle(arg) =>
      (match SettledValue(arg)
       case Returned(r) => Returned(SettledWith(r))
       case Threw(t) => Threw(t))
    case AdoptSettled(inner) => Returned(SettledWith(inner))
    case AdoptPending => Returned(StillPending)
  }

  /**
   * Flattening: adopting an already settled future throws as written; the
   * corrected step settles to the inner future's value, and the two agree on
   * every other reply.
   */
  lemma FmapAdoptionAsWrittenThrows(inner: Result, reply: Reply)
    ensures FmapStepAsWritten(AdoptSettled(inner)) == Threw(Error(Generic(OkNullMessage)))
    ensures FmapStep(AdoptSettled(inner)) == Returned(SettledWith(inner))
    ensures !reply.AdoptSettled? ==> FmapStepAsWritten(reply) == FmapStep(reply)
  {
  }

  class Future {
    var subs: seq<SubId>
    var value: Option<Result>
    var completed: bool

    /** The subscribers queued by `ready` before settlement, in order. */
    ghost var registered: seq<SubId>
    /** Every subscriber call made so far, in order, with the value passed. */
    ghost var delivered: seq<(SubId, Result)>

    /**
     * Pending: nothing has been delivered and `subs` is everything queued.
     * Settled: `subs` is empty, every queued subscriber was called exactly
     * once in registration order first, and every call carried the settled value.
     */
    ghost predicate Valid()
      reads this
    {
      && (!completed ==> value == None && subs == registered && delivered == [])
      && (completed ==>
            && value.Some?
            && subs == []
            && |registered| <= |delivered|
            && delivered[..|registered|] == Notify(registered, value.value)
            && AllCarry(delivered, value.value))
    }

    /** A pending future whose setup kept `complete` for later. */
    constructor ()
      ensures Valid() && !completed
      ensures subs == [] && registered == [] && delivered == []
    {
      subs := [];
      value := None;
      completed := false;
      registered := [];
      delivered := [];
    }

    /** `ready(cb)`: call `cb` now if settled, otherwise queue it at the end. */
    method Ready(cb: SubId)
      requires Valid()
      modifies this
      ensures Valid()
      ensures completed == old(completed) && value == old(value)
      ensures old(completed) ==> subs == old(subs) && registered == old(registered)
                                 && delivered == old(delivered) + [(cb, value.value)]
      ensures !old(completed) ==> subs == old(subs) + [cb] && registered == old(registered) + [cb]
                                  && delivered == old(delivered)
    {
      if completed {
        delivered := delivered + [(cb, value.value)];
        assert delivered[..|registered|] == old(delivered)[..|registered|];
      } else {
        subs := subs + [cb];
        registered := registered + [cb];
      }
    }

    /**
     * `complete(arg)`: the first call that gets a value fixes it, notifies the
     * queued subscribers in order and empties the list; a call on a settled
     * future does nothing. If wrapping a plain argument throws, the future
     * stays pending and the exception is returned.
     */
    method Complete(arg: ResultOrValue) returns (thrown: Option<Value>)
      requires Valid()
      modifies this
      ensures Valid()
      ensures old(completed) ==> unchanged(this) && thrown == None
      ensures !old(completed) && SettledValue(arg).Threw? ==>
                unchanged(this) && thrown == Some(SettledValue(arg).thrown)
      ensures !old(completed) && SettledValue(arg).Returned? ==>
                && thrown == None
                && completed && value == Some(SettledValue(arg).value)
                && subs == [] && registered == old(registered)
                && delivered == old(delivered) + Notify(old(subs), value.value)
    {
      if completed {
        return None;
      }
      var settled := SettledValue(arg);
      if settled.Threw? {
        return Some(settled.thrown);
      }
      var v := settled.value;
      value := Some(v);
      completed := true;
      for i := 0 to |subs|
        invariant completed && value == Some(v)
        invariant subs == old(subs) && registered == old(registered)
        invariant delivered == old(delivered) + Notify(subs[..i], v)
      {
        NotifySnoc(subs[..i], subs[i], v);
        assert subs[..i + 1] == subs[..i] + [subs[i]];
        delivered := delivered + [(subs[i], v)];
      }
      assert subs[..|subs|] == subs;
      NotifyCallsEachOnceInOrder(subs, v);
      assert delivered[..|registered|] == Notify(registered, v);
      subs := [];
      thrown := None;
    }

    /** `Future.unit(v)`: settled with `Ok(v)` before the constructor returns; `Result.ok` throws on null. */
    static method Unit(v: Value) returns (r: Outcome<Future>)
      ensures r.Returned? <==> !IsNullish(v)
      ensures r.Threw? ==> r.thrown == Error(Generic(OkNullMessage))
      ensures r.Returned? ==> fresh(r.value) && r.value.Valid() && r.value.completed
                              && r.value.value == Some(Ok(v)) && r.value.delivered == []
    {
      var f := new Future();
      var res := NewOk(v);
      if res.Threw? {
        return Threw(res.thrown);
      }
      var t := f.Complete(AResult(res.value));
      r := Returned(f);
    }

    /** `Future.error(e)`: settled with `Err(e)` before the constructor returns. */
    static method ErrorOf(e: Value) returns (r: Outcome<Future>)
      ensures r.Returned? <==> !IsNullish(e)
      ensures r.Threw? ==> r.thrown == Error(Generic(ErrNullMessage))
      ensures r.Returned? ==> fresh(r.value) && r.value.Valid() && r.value.completed
                              && r.value.value == Some(Err(e)) && r.value.delivered == []
    {
      var f := new Future();
      var res := NewErr(e);
      if res.Threw? {
        return Threw(res.thrown);
      }
      var t := f.Complete(AResult(res.value));
      r := Returned(f);
    }

    /**
     * `fmap(fun)`, synchronous part, with the corrected flattening. On a
     * settled future `fun` runs at once and the new future settles (or the
     * call throws); on a pending one the relaying subscriber `relay` is queued
     * and the new future is pending.
     */
    method Fmap(fun: Result -> Reply, relay: SubId) returns (r: Outcome<Future>)
      requires Valid()
      modifies this
      ensures Valid()
      ensures completed == old(completed) && value == old(value)
      ensures old(completed) ==> subs == old(subs) && registered == old(registered)
                                 && delivered == old(delivered) + [(relay, value.value)]
      ensures old(completed) ==>
                (r.Threw? <==> FmapStep(fun(value.value)).Threw?)
      ensures old(completed) && FmapStep(fun(value.value)).Returned? ==>
                && r.Returned? && fresh(r.value) && r.value.Valid()
                && (FmapStep(fun(value.value)).value.SettledWith? ==>
                      r.value.completed && r.value.value == Some(FmapStep(fun(value.value)).value.r))
                && (FmapStep(fun(value.value)).value.StillPending? ==> !r.value.completed)
      ensures !old(completed) ==>
                && subs == old(subs) + [relay] && registered == old(registered) + [relay]
                && delivered == old(delivered)
                && r.Returned? && fresh(r.value) && r.value.Valid() && !r.value.completed
    {
      var g := new Future();
      var wasCompleted := completed;
      Ready(relay);
      if !wasCompleted {
        return Returned(g);
      }
      var step := FmapStep(fun(value.value));
      if step.Threw? {
        return Threw(step.thrown);
      }
      if step.value.SettledWith? {
        var t := g.Complete(AResult(step.value.r));
      }
      r := Returned(g);
    }
  }

  /**
   * In a settled future, the i-th subscriber queued before settlement was the
   * i-th call made, and it received the settled value.
   */
  lemma SettledDeliveredEachRegistrationOnce(f: Future, i: nat)
    requires f.Valid() && f.completed && i < |f.registered|
    ensures f.delivered[i] == (f.registered[i], f.value.value)
  {
    NotifyCallsEachOnceInOrder(f.registered, f.value.value);
    assert f.delivered[..|f.registered|][i] == f.delivered[i];
  }

  /**
   * A client: subscribers a, b, c queued on a pending future are called in
   * that order with the first completion's value; a second completion and a
   * later subscriber d see the same value.
   */
  method SettleOnceInOrder(a: SubId, b: SubId, c: SubId, d: SubId)
  {
    var f := new Future();
    f.Ready(a);
    f.Ready(b);
    f.Ready(c);
    var first := f.Complete(AValue(Num(1)));
    NotifyCallsEachOnceInOrder([a, b, c], Ok(Num(1)));
    assert f.delivered == [(a, Ok(Num(1))), (b, Ok(Num(1))), (c, Ok(Num(1)))];
    var second := f.Complete(AResult(Ok(Num(2))));
    assert f.value == Some(Ok(Num(1))) && second == None;
    f.Ready(d);
    assert f.delivered[3] == (d, Ok(Num(1)));
  }
}
