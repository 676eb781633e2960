/** `register_deregister`: a context manager that registers a callback on
    entry and deregisters it on exit, whichever way the block ends. Entry and
    exit are modelled as two functions around the caller's block. */
module Scoped {
  import opened Wrappers
  import opened Listeners
  import opened Notifiers
  import opened RegistryLemmas

  /** Entering the block: with no callback nothing is registered (unlike
      `register`, which refuses `None`); otherwise the callback is
      registered, and a refused registration raises before the block runs. */
  function Enter(n: Notifier, e: Event, callback: Option<Obj>, args: seq<Obj>, kwargs: map<string, Obj>,
                 filter: Option<Obj>, weak: bool, uuid: Uuid): (r: (Notifier, Result<Option<Listener>, RegisterError>))
    ensures callback.None? ==> r == (n, Success(None))
    ensures r.1.Failure? ==> callback.Some? && r.0 == n
    ensures callback.Some? ==>
              (r.1.Success? <==>
                 Admissible(n, e, callback, kwargs, filter) && !IsRegistered(n, e, callback, filter) && Referenceable(callback, weak))
    ensures callback.Some? && r.1.Success? ==>
              && r.1.value.Some? && r.1.value.value.uuid == uuid
              && IsRegistered(r.0, e, callback, filter)
              && Size(r.0) == Size(n) + 1
  {
    if callback.None? then (n, Success(None))
    else
      var reg := Register(n, e, callback, args, kwargs, filter, weak, uuid);
      RegisterIncrementsSize(n, e, callback, args, kwargs, filter, weak, uuid);
      if reg.1.Failure? then (reg.0, Failure(reg.1.error))
      else
        RegisterThenIsRegistered(n, e, callback, args, kwargs, filter, weak, uuid);
        (reg.0, Success(Some(reg.1.value)))
  }

  /** Leaving the block, normally or by an exception: the pair is
      deregistered when a callback was given. */
  function Exit(n: Notifier, e: Event, callback: Option<Obj>, filter: Option<Obj>): (r: Notifier)
    ensures callback.None? ==> r == n
    ensures !IsRegistered(n, e, callback, filter) ==> r == n
    ensures Size(r) + (if callback.Some? && IsRegistered(n, e, callback, filter) then 1 else 0) == Size(n)
  {
    if callback.None? then n
    else
      DeregisterDecrementsSize(n, e, callback, filter);
      Deregister(n, e, callback, filter).0
  }

  /** While no event holds two equal listeners, leaving the block leaves the
      pair unregistered and keeps the invariant. */
  lemma ExitUnregisters(n: Notifier, e: Event, callback: Obj, filter: Option<Obj>)
    requires NoDuplicates(n)
    ensures !IsRegistered(Exit(n, e, Some(callback), filter), e, Some(callback), filter)
    ensures NoDuplicates(Exit(n, e, Some(callback), filter))
  {
    DeregisterLeavesNoMatch(n, e, Some(callback), filter);
    DeregisterPreservesNoDuplicates(n, e, Some(callback), filter);
  }

  /** A block that leaves the registry alone ends with every event holding
      the listeners it held before the block, and with the same count. */
  lemma {:induction false} ScopeRestores(n: Notifier, e: Event, callback: Option<Obj>, args: seq<Obj>, kwargs: map<string, Obj>,
                                         filter: Option<Obj>, weak: bool, uuid: Uuid)
    requires Enter(n, e, callback, args, kwargs, filter, weak, uuid).1.Success?
    ensures var after := Exit(Enter(n, e, callback, args, kwargs, filter, weak, uuid).0, e, callback, filter);
            && (forall e' :: ListenersOf(after, e') == ListenersOf(n, e'))
            && Size(after) == Size(n)
  {
    if callback.Some? {
      var n1 := Enter(n, e, callback, args, kwargs, filter, weak, uuid).0;
      RegisterThenDeregister(n, e, callback, args, kwargs, filter, weak, uuid);
      DeregisterDecrementsSize(n1, e, callback, filter);
    }
  }
}
