/** The `Notifier` registry and its restricted variant: a mapping from event
    types to ordered listener lists, with registration, deregistration and
    the registration policy. Every operation returns the new registry next
    to the value the Python method returns. */
module Notifiers {
  import opened Wrappers
  import opened Seqs
  import opened Listeners
  import opened Topics

  /** Which events accept registrations: any event for `Notifier`; for
      `RestrictedNotifier`, the watchable events and, when `allowAny`,
      the wildcard. */
  datatype Policy = Open | Restricted(watchable: set<Event>, allowAny: bool)

  datatype Notifier = Notifier(topics: Topics, policy: Policy)

  /** `Notifier()`. */
  function New(): Notifier {
    Notifier(map[], Open)
  }

  /** `RestrictedNotifier(watchable_events, allow_any)`. */
  function NewRestricted(watchable: set<Event>, allowAny: bool): Notifier {
    Notifier(map[], Restricted(watchable, allowAny))
  }

  /** The listeners registered for `e`, in registration order; none when
      the event has no list. */
  function ListenersOf(n: Notifier, e: Event): seq<Listener> {
    if e in n.topics then n.topics[e] else []
  }

  /** The number of listeners across all events, as `len()` reports it. */
  ghost function Size(n: Notifier): nat {
    Count(n.topics)
  }

  /** Events that can never trigger a notification. */
  const DisallowedNotificationEvents: set<Event> := {Any}

  /** `can_be_registered`, with the override of `RestrictedNotifier`. */
  function CanBeRegistered(p: Policy, e: Event): (r: bool)
    ensures p.Open? ==> r
    ensures p.Restricted? ==> (r <==> e in p.watchable || (e == Any && p.allowAny))
  {
    match p
    case Open => true
    case Restricted(watchable, allowAny) => e in watchable || (e == Any && allowAny)
  }

  /** `can_trigger_notification`: every event but the wildcard. */
  function CanTriggerNotification(e: Event): (r: bool)
    ensures r <==> e != Any
  {
    e !in DisallowedNotificationEvents
  }

  /** `six.callable` on an optional argument: `None` is not callable. */
  predicate IsCallable(o: Option<Obj>) {
    o.Some? && o.value.callable
  }

  /** `is_registered`: some listener of the event is equivalent to the pair. */
  function IsRegistered(n: Notifier, e: Event, callback: Option<Obj>, filter: Option<Obj>): (r: bool)
    ensures r <==> exists i :: 0 <= i < |ListenersOf(n, e)| && IsEquivalent(ListenersOf(n, e)[i], callback, filter)
  {
    IndexOfFirst(ListenersOf(n, e), l => IsEquivalent(l, callback, filter)).Some?
  }

  datatype RegisterError =
    | CallbackNotCallable
    | FilterNotCallable
    | DisallowedEvent
    | ReservedKey(key: string)
    | AlreadyRegistered
    | NotWeakReferenceable

  /** The argument checks `register` makes before taking its lock. */
  predicate Admissible(n: Notifier, e: Event, callback: Option<Obj>, kwargs: map<string, Obj>, filter: Option<Obj>) {
    && IsCallable(callback)
    && (filter.None? || filter.value.callable)
    && CanBeRegistered(n.policy, e)
    && DetailsKey !in kwargs
  }

  /** Whether `_make_ref` can hold the callback as asked: `weakref.ref`
      raises `TypeError` for an object it cannot refer to. */
  predicate Referenceable(callback: Option<Obj>, weak: bool) {
    !weak || (callback.Some? && callback.value.weakrefable)
  }

  /** `register`: validates the arguments, refuses a pair that is already
      registered for the event, and otherwise appends a new listener to the
      event's list. A failed registration leaves the registry as it was. */
  function Register(n: Notifier, e: Event, callback: Option<Obj>, args: seq<Obj>, kwargs: map<string, Obj>,
                    filter: Option<Obj>, weak: bool, uuid: Uuid): (r: (Notifier, Result<Listener, RegisterError>))
    ensures r.1.Success? <==>
              Admissible(n, e, callback, kwargs, filter) && !IsRegistered(n, e, callback, filter) && Referenceable(callback, weak)
    ensures r.1.Failure? ==> r.0 == n
    ensures r.1 == Failure(CallbackNotCallable) <==> !IsCallable(callback)
    ensures r.1 == Failure(FilterNotCallable) <==> IsCallable(callback) && filter.Some? && !filter.value.callable
    ensures r.1 == Failure(DisallowedEvent) <==>
              IsCallable(callback) && (filter.None? || filter.value.callable) && !CanBeRegistered(n.policy, e)
    ensures r.1 == Failure(ReservedKey(DetailsKey)) <==>
              IsCallable(callback) && (filter.None? || filter.value.callable) && CanBeRegistered(n.policy, e) && DetailsKey in kwargs
    ensures r.1 == Failure(AlreadyRegistered) <==>
              Admissible(n, e, callback, kwargs, filter) && IsRegistered(n, e, callback, filter)
    ensures r.1 == Failure(NotWeakReferenceable) <==>
              Admissible(n, e, callback, kwargs, filter) && !IsRegistered(n, e, callback, filter) && !Referenceable(callback, weak)
    ensures r.1.Success? ==>
              var l := r.1.value;
              && l.uuid == uuid && l.args == args && l.kwargs == kwargs && l.filter == filter
              && Callback(l) == callback && (l.ref.Weak? <==> weak)
    ensures r.1.Success? ==>
              && e in r.0.topics
              && r.0.topics[e] == ListenersOf(n, e) + [r.1.value]
              && r.0.topics.Keys == n.topics.Keys + {e}
              && (forall e' :: e' in n.topics && e' != e ==> r.0.topics[e'] == n.topics[e'])
              && r.0.policy == n.policy
  {
    if !IsCallable(callback) then (n, Failure(CallbackNotCallable))
    else if filter.Some? && !filter.value.callable then (n, Failure(FilterNotCallable))
    else if !CanBeRegistered(n.policy, e) then (n, Failure(DisallowedEvent))
    else if DetailsKey in kwargs then (n, Failure(ReservedKey(DetailsKey)))
    else if IsRegistered(n, e, callback, filter) then (n, Failure(AlreadyRegistered))
    else if !Referenceable(callback, weak) then (n, Failure(NotWeakReferenceable))
    else
      var l := Listener(uuid, MakeRef(callback.value, weak), args, kwargs, filter);
      (n.(topics := n.topics[e := ListenersOf(n, e) + [l]]), Success(l))
  }

  /** `i` is the position of the first listener of `s` matching the pair. */
  ghost predicate FirstEquivalentAt(s: seq<Listener>, i: int, callback: Option<Obj>, filter: Option<Obj>) {
    && 0 <= i < |s|
    && IsEquivalent(s[i], callback, filter)
    && forall j :: 0 <= j < i ==> !IsEquivalent(s[j], callback, filter)
  }

  /** `deregister`: removes the first listener of the event equivalent to the
      pair and reports whether there was one. */
  function Deregister(n: Notifier, e: Event, callback: Option<Obj>, filter: Option<Obj>): (r: (Notifier, bool))
    ensures r.1 <==> IsRegistered(n, e, callback, filter)
    ensures !r.1 ==> r.0 == n
    ensures r.1 ==>
              && e in n.topics
              && r.0.policy == n.policy
              && r.0.topics.Keys == n.topics.Keys
              && (forall e' :: e' in n.topics && e' != e ==> r.0.topics[e'] == n.topics[e'])
              && exists i :: FirstEquivalentAt(n.topics[e], i, callback, filter)
                             && r.0.topics[e] == n.topics[e][..i] + n.topics[e][i + 1..]
  {
    var ls := ListenersOf(n, e);
    match IndexOfFirst(ls, l => IsEquivalent(l, callback, filter))
    case None => (n, false)
    case Some(i) =>
      assert FirstEquivalentAt(ls, i, callback, filter);
      (n.(topics := n.topics[e := RemoveAt(ls, i)]), true)
  }

  /** `i` is the position of the first listener of `s` with the uuid. */
  ghost predicate FirstWithUuidAt(s: seq<Listener>, i: int, uuid: Uuid) {
    && 0 <= i < |s|
    && s[i].uuid == uuid
    && forall j :: 0 <= j < i ==> s[j].uuid != uuid
  }

  /** `deregister_by_uuid`: removes the first listener of the event with the
      uuid and reports whether there was one. */
  function DeregisterByUuid(n: Notifier, e: Event, uuid: Uuid): (r: (Notifier, bool))
    ensures r.1 <==> exists i :: 0 <= i < |ListenersOf(n, e)| && ListenersOf(n, e)[i].uuid == uuid
    ensures !r.1 ==> r.0 == n
    ensures r.1 ==>
              && e in n.topics
              && r.0.policy == n.policy
              && r.0.topics.Keys == n.topics.Keys
              && (forall e' :: e' in n.topics && e' != e ==> r.0.topics[e'] == n.topics[e'])
              && exists i :: FirstWithUuidAt(n.topics[e], i, uuid)
                             && r.0.topics[e] == n.topics[e][..i] + n.topics[e][i + 1..]
  {
    var ls := ListenersOf(n, e);
    match IndexOfFirst(ls, (l: Listener) => l.uuid == uuid)
    case None => (n, false)
    case Some(i) =>
      assert FirstWithUuidAt(ls, i, uuid);
      (n.(topics := n.topics[e := RemoveAt(ls, i)]), true)
  }

  /** `deregister_event`: drops the event's whole list and reports how many
      listeners it held; the other events keep theirs. */
  function DeregisterEvent(n: Notifier, e: Event): (r: (Notifier, nat))
    ensures r.1 == |ListenersOf(n, e)|
    ensures r.0.topics.Keys == n.topics.Keys - {e}
    ensures forall e' :: e' in r.0.topics ==> r.0.topics[e'] == n.topics[e']
    ensures r.0.policy == n.policy
  {
    (n.(topics := n.topics - {e}), |ListenersOf(n, e)|)
  }

  /** `reset`: forgets every listener; the policy is kept. */
  function Reset(n: Notifier): (r: Notifier)
    ensures r.topics == map[]
    ensures forall e :: ListenersOf(r, e) == []
    ensures r.policy == n.policy
  {
    n.(topics := map[])
  }

  /** `__len__`: visits the events one at a time and adds up their list
      lengths. */
  method Len(n: Notifier) returns (count: nat)
    ensures count == Size(n)
  {
    count := 0;
    var remaining := n.topics.Keys;
    while remaining != {}
      invariant remaining <= n.topics.Keys
      invariant count + SumLengths(n.topics, remaining) == Size(n)
      decreases remaining
    {
      var e :| e in remaining;
      SumLengthsPick(n.topics, remaining, e);
      count := count + |n.topics[e]|;
      remaining := remaining - {e};
    }
  }

  /** `copy`: builds a new mapping event by event, with the same listeners
      in the same order, under the same policy. */
  method Copy(n: Notifier) returns (c: Notifier)
    ensures c == n
  {
    var topics: Topics := map[];
    var remaining := n.topics.Keys;
    while remaining != {}
      invariant remaining <= n.topics.Keys
      invariant topics.Keys == n.topics.Keys - remaining
      invariant forall e :: e in topics ==> topics[e] == n.topics[e]
      decreases remaining
    {
      var e :| e in remaining;
      topics := topics[e := n.topics[e]];
      remaining := remaining - {e};
    }
    assert topics == n.topics;
    c := Notifier(topics, n.policy);
  }
}
