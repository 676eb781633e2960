/** `notify` and `_do_dispatch`: the wildcard listeners and then the event's
    own listeners are called in order, and each call that raises an
    `Exception` is counted as a failure without stopping the ones after it. */
module Dispatch {
  import opened Wrappers
  import opened Listeners
  import opened Notifiers

  /** `_Notified(total, successes, failures)`. */
  datatype Notified = Notified(total: nat, successes: nat, failures: nat)

  /** The counts together with the callback calls made, in order. */
  datatype Dispatched = Dispatched(calls: seq<Invocation>, counts: Notified)

  datatype NotifyError = NotTriggerable(event: Event)

  /** The payload the listeners receive: the given details, or the empty
      map when none were given. */
  function Payload(details: Option<Details>): (r: Details)
    ensures forall k :: k in r <==> details.Some? && k in details.value
    ensures forall k :: k in r ==> r[k] == details.value[k]
  {
    if details.Some? then details.value else map[]
  }

  /** The callback calls that calling the listeners in order makes. */
  function Invocations(ls: seq<Listener>, e: Event, d: Details, w: World): (r: seq<Invocation>)
    ensures |r| <= |ls|
    decreases |ls|
  {
    if |ls| == 0 then []
    else
      var o := Fire(ls[|ls| - 1], e, d, w);
      Invocations(ls[..|ls| - 1], e, d, w) + (if o.Invoked? then [o.call] else [])
  }

  /** How many of the listeners raise when called in order. */
  function FailureCount(ls: seq<Listener>, e: Event, d: Details, w: World): (r: nat)
    ensures r <= |ls|
    decreases |ls|
  {
    if |ls| == 0 then 0
    else FailureCount(ls[..|ls| - 1], e, d, w) + (if Failed(Fire(ls[|ls| - 1], e, d, w)) then 1 else 0)
  }

  /** Calling two lists back to back makes the calls of the first and then
      those of the second. */
  lemma {:induction false} InvocationsAppend(a: seq<Listener>, b: seq<Listener>, e: Event, d: Details, w: World)
    ensures Invocations(a + b, e, d, w) == Invocations(a, e, d, w) + Invocations(b, e, d, w)
    decreases |b|
  {
    if |b| == 0 {
      assert a + b == a;
    } else {
      var b' := b[..|b| - 1];
      assert (a + b)[..|a + b| - 1] == a + b';
      InvocationsAppend(a, b', e, d, w);
    }
  }

  /** Failures of two lists called back to back add up. */
  lemma {:induction false} FailureCountAppend(a: seq<Listener>, b: seq<Listener>, e: Event, d: Details, w: World)
    ensures FailureCount(a + b, e, d, w) == FailureCount(a, e, d, w) + FailureCount(b, e, d, w)
    decreases |b|
  {
    if |b| == 0 {
      assert a + b == a;
    } else {
      var b' := b[..|b| - 1];
      assert (a + b)[..|a + b| - 1] == a + b';
      FailureCountAppend(a, b', e, d, w);
    }
  }

  /** No failure is reported exactly when no listener raises; in particular
      dead listeners and listeners whose filter rejects the payload never
      count as failures. */
  lemma {:induction false} NoFailureIffNoneRaises(ls: seq<Listener>, e: Event, d: Details, w: World)
    ensures FailureCount(ls, e, d, w) == 0 <==> forall i :: 0 <= i < |ls| ==> !Failed(Fire(ls[i], e, d, w))
    decreases |ls|
  {
    if |ls| > 0 {
      var ls' := ls[..|ls| - 1];
      NoFailureIffNoneRaises(ls', e, d, w);
      assert forall i :: 0 <= i < |ls'| ==> ls'[i] == ls[i];
    }
  }

  /** Every listener is reported as a failure exactly when every one raises. */
  lemma {:induction false} AllFailIffAllRaise(ls: seq<Listener>, e: Event, d: Details, w: World)
    ensures FailureCount(ls, e, d, w) == |ls| <==> forall i :: 0 <= i < |ls| ==> Failed(Fire(ls[i], e, d, w))
    decreases |ls|
  {
    if |ls| > 0 {
      var ls' := ls[..|ls| - 1];
      AllFailIffAllRaise(ls', e, d, w);
      assert forall i :: 0 <= i < |ls'| ==> ls'[i] == ls[i];
    }
  }

  /** A list of dead listeners and listeners whose filter is falsy for the
      payload calls nothing. */
  lemma {:induction false} SilentListenersCallNothing(ls: seq<Listener>, e: Event, d: Details, w: World)
    requires forall i :: 0 <= i < |ls| ==>
               Dead(ls[i]) || (ls[i].filter.Some? && w.verdict(ls[i].filter.value, d) == Falsy)
    ensures Invocations(ls, e, d, w) == []
    ensures FailureCount(ls, e, d, w) == 0
    decreases |ls|
  {
    if |ls| > 0 {
      var ls' := ls[..|ls| - 1];
      assert forall i :: 0 <= i < |ls'| ==> ls'[i] == ls[i];
      SilentListenersCallNothing(ls', e, d, w);
    }
  }

  /** `_do_dispatch`: calls every listener in order with its own copy of the
      payload, catching and counting what raises. */
  method DoDispatch(ls: seq<Listener>, e: Event, d: Details, w: World) returns (r: Dispatched)
    ensures r.counts.total == |ls|
    ensures r.counts.failures == FailureCount(ls, e, d, w)
    ensures r.counts.successes + r.counts.failures == r.counts.total
    ensures r.calls == Invocations(ls, e, d, w)
  {
    var failures := 0;
    var calls := [];
    for i := 0 to |ls|
      invariant failures == FailureCount(ls[..i], e, d, w)
      invariant calls == Invocations(ls[..i], e, d, w)
    {
      assert ls[..i + 1][..i] == ls[..i];
      var o := Fire(ls[i], e, d, w);
      if o.Invoked? {
        calls := calls + [o.call];
      }
      if Failed(o) {
        failures := failures + 1;
      }
    }
    assert ls[..|ls|] == ls;
    r := Dispatched(calls, Notified(|ls|, |ls| - failures, failures));
  }

  /** `notify`: refuses the wildcard; otherwise dispatches to a snapshot made
      of the wildcard's listeners followed by the event's own. */
  method Notify(n: Notifier, e: Event, details: Option<Details>, w: World) returns (r: Result<Dispatched, NotifyError>)
    ensures r.Failure? <==> e == Any
    ensures r.Failure? ==> r.error == NotTriggerable(e)
    ensures r.Success? ==>
              var d := Payload(details);
              var wildcard := ListenersOf(n, Any);
              var own := ListenersOf(n, e);
              && r.value.counts.total == |wildcard| + |own|
              && r.value.calls == Invocations(wildcard, e, d, w) + Invocations(own, e, d, w)
              && r.value.counts.failures == FailureCount(wildcard, e, d, w) + FailureCount(own, e, d, w)
              && r.value.counts.successes + r.value.counts.failures == r.value.counts.total
  {
    if !CanTriggerNotification(e) {
      return Failure(NotTriggerable(e));
    }
    var wildcard := ListenersOf(n, Any);
    var own := ListenersOf(n, e);
    var d := Payload(details);
    var dispatched := DoDispatch(wildcard + own, e, d, w);
    InvocationsAppend(wildcard, own, e, d, w);
    FailureCountAppend(wildcard, own, e, d, w);
    r := Success(dispatched);
  }
}
