/** The `Listener` record of the notifier: one subscription, holding a
    callback (strongly or weakly referenced), fixed arguments and an optional
    details filter, together with what calling it does. */
module Listeners {
  import opened Wrappers

  /** A Python object as the notifier sees it: an identity, which is what
      `reflection.is_same_callback` compares, whether it is callable, and
      whether `weakref` can refer to it (objects with `__slots__` and many
      built-in callables cannot). */
  datatype Obj = Obj(id: nat, callable: bool, weakrefable: bool)

  /** Event types: the `ANY` wildcard or a named event. */
  datatype Event = Any | Named(name: string)

  /** Listener identifiers; fresh ones are supplied by the caller. */
  type Uuid = nat

  /** The details payload handed to `notify`. */
  type Details = map<string, Obj>

  /** The keyword under which a listener's callback receives the details;
      it is the notifier's only reserved keyword. */
  const DetailsKey: string := "details"

  /** How a listener holds its callback. A weak reference whose target has
      been collected no longer resolves. */
  datatype Ref = Strong(target: Obj) | Weak(target: Obj, alive: bool)

  datatype Listener = Listener(
    uuid: Uuid,
    ref: Ref,
    args: seq<Obj>,
    kwargs: map<string, Obj>,
    filter: Option<Obj>)

  /** The `dead` property: only a weakly held callback can die. */
  function Dead(l: Listener): (r: bool)
    ensures l.ref.Strong? ==> !r
    ensures l.ref.Weak? ==> (r <==> !l.ref.alive)
  {
    l.ref.Weak? && !l.ref.alive
  }

  /** The `callback` property: the resolved callback, or `None` once a weak
      reference has been collected. */
  function Callback(l: Listener): (r: Option<Obj>)
    ensures r.None? <==> Dead(l)
    ensures r.Some? ==> r.value == l.ref.target
  {
    match l.ref
    case Strong(cb) => Some(cb)
    case Weak(cb, alive) => if alive then Some(cb) else None
  }

  /** `_make_ref`: the callback itself, or a weak reference to it, which
      starts out alive. `register` refuses a weak registration of an object
      `weakref` cannot refer to before it gets here. */
  function MakeRef(cb: Obj, weak: bool): (r: Ref)
    ensures r.target == cb
    ensures r.Weak? <==> weak
    ensures r.Weak? ==> r.alive
  {
    if weak then Weak(cb, true) else Strong(cb)
  }

  /** `is_equivalent`: the listener's resolved callback and its filter are the
      given ones; a dead listener matches only a `None` callback. */
  function IsEquivalent(l: Listener, callback: Option<Obj>, filter: Option<Obj>): (r: bool)
    ensures r <==> Callback(l) == callback && l.filter == filter
  {
    var cb := Callback(l);
    if cb.None? && callback.Some? then false
    else if cb.Some? && callback.None? then false
    else if cb.Some? && callback.Some? && cb.value != callback.value then false
    else if filter.Some? then l.filter.Some? && l.filter.value == filter.value
    else l.filter.None?
  }

  /** `__eq__`: `a` is equivalent to `b`'s resolved callback and filter. */
  function Equivalent(a: Listener, b: Listener): (r: bool)
    ensures r <==> Callback(a) == Callback(b) && a.filter == b.filter
  {
    IsEquivalent(a, Callback(b), b.filter)
  }

  /** Equality of listeners is a symmetric relation that ignores the uuid,
      the fixed arguments and the fixed keyword arguments. */
  lemma EquivalenceIgnoresIdentityAndArguments(a: Listener, b: Listener, u: Uuid, args: seq<Obj>, kwargs: map<string, Obj>)
    ensures Equivalent(a, b) <==> Equivalent(b, a)
    ensures Equivalent(a, b) <==> Equivalent(a.(uuid := u, args := args, kwargs := kwargs), b)
    ensures Equivalent(a, a.(uuid := u, args := args, kwargs := kwargs))
  {
  }

  /** Two dead listeners with the same filter compare equal whatever their
      callbacks were, and a dead listener never matches a live callback. So
      garbage collection alone can put two equal listeners into one list. */
  lemma DeadListenersCollapse(a: Listener, b: Listener, cb: Obj)
    requires Dead(a) && Dead(b) && a.filter == b.filter
    ensures Equivalent(a, b)
    ensures !IsEquivalent(a, Some(cb), a.filter)
    ensures IsEquivalent(a, None, a.filter)
  {
  }

  /** What a details filter returns for a payload: a truthy value, a falsy
      value, or it raises. */
  datatype Verdict = Truthy | Falsy | Raises

  /** One call of a callback: `cb(event_type, *args, details=details, **kwargs)`.
      `kwargs` here excludes the `details` keyword, which always carries the
      payload. */
  datatype Invocation = Invocation(
    callback: Obj,
    event: Event,
    args: seq<Obj>,
    kwargs: map<string, Obj>,
    details: Details)

  /** The behaviour of the application's callables, which the notifier cannot
      see: what each filter says about a payload and whether a call raises. */
  datatype World = World(verdict: (Obj, Details) -> Verdict, raises: Invocation -> bool)

  /** What happens when a listener is called. */
  datatype Outcome =
    | SkippedDead
    | SkippedByFilter
    | FilterRaised
    | Invoked(call: Invocation, raised: bool)

  /** Whether the call raised out of the listener, which dispatch counts as a
      failure. */
  predicate Failed(o: Outcome) {
    o.FilterRaised? || (o.Invoked? && o.raised)
  }

  /** `Listener.__call__`: nothing happens for a dead listener or one whose
      filter rejects the payload; otherwise the callback is called with the
      fixed arguments and the payload under the `details` keyword. */
  function Fire(l: Listener, e: Event, d: Details, w: World): (r: Outcome)
    ensures r.SkippedDead? <==> Dead(l)
    ensures r.Invoked? <==> !Dead(l) && (l.filter.None? || w.verdict(l.filter.value, d) == Truthy)
    ensures r.SkippedByFilter? <==> !Dead(l) && l.filter.Some? && w.verdict(l.filter.value, d) == Falsy
    ensures r.Invoked? ==> r.call.callback == l.ref.target && r.call.event == e && r.call.details == d
    ensures r.Invoked? ==> r.call.args == l.args && r.call.kwargs.Keys == l.kwargs.Keys - {DetailsKey}
    ensures r.Invoked? ==> forall k :: k in r.call.kwargs ==> r.call.kwargs[k] == l.kwargs[k]
    ensures r.Invoked? ==> r.raised == w.raises(r.call)
    ensures Failed(r) ==> !Dead(l)
  {
    match Callback(l)
    case None => SkippedDead
    case Some(cb) =>
      var verdict := if l.filter.Some? then w.verdict(l.filter.value, d) else Truthy;
      match verdict
      case Raises => FilterRaised
      case Falsy => SkippedByFilter
      case Truthy =>
        var call := Invocation(cb, e, l.args, l.kwargs - {DetailsKey}, d);
        Invoked(call, w.raises(call))
  }
}
