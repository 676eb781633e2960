# Notifier: a Dafny model of an in-process publish/subscribe registry

The repository is a small web API. Its only component with behaviour of its
own is the vendored `notifier` package. A `Notifier` maps event types to
ordered lists of `Listener`s. Listeners are registered and deregistered one
at a time. `notify` calls the wildcard (`ANY`) listeners and then the event's
own listeners, and reports how many it called, how many succeeded and how
many raised. `RestrictedNotifier` accepts registrations only for a fixed set
of events. `register_deregister` keeps a callback registered for the length
of a block.

The model is functional. A registry is an immutable value
`Notifier(topics: map<Event, seq<Listener>>, policy)`. Each operation
returns the new registry next to the value the Python method returns. The
modules follow the structure of `_notifier.py`:

- `wrappers.dfy` (`Wrappers`): `Option` (Python's `None`) and `Result` (a value or a raised error).
- `seqs.dfy` (`Seqs`): the first-match scan used by `deregister*` and `is_registered`, and `list.pop(i)`.
- `listener.dfy` (`Listeners`): the `Listener` record, strong and weak references, equivalence, and what calling a listener does.
- `topics.dfy` (`Topics`): the total listener count that `len()` reports, and how updating one event changes it.
- `notifier.dfy` (`Notifiers`): the registry, the two registration policies, and `register`, `deregister`, `deregister_by_uuid`, `deregister_event`, `reset`, `is_registered`, `__len__` and `copy`.
- `dispatch.dfy` (`Dispatch`): `notify` and `_do_dispatch`.
- `invariants.dfy` (`RegistryLemmas`): counts, the no-duplicates invariant, and register/deregister round trips.
- `scoped.dfy` (`Scoped`): entry and exit of `register_deregister`.

Abstractions:

- Python objects (callbacks, filters, argument values) are `Obj(id, callable, weakrefable)`. `reflection.is_same_callback` becomes equality of `Obj`. `six.callable` reads the `callable` tag, and `None` is `Option.None`. The `weakrefable` tag says whether `weakref` can refer to the object; objects with `__slots__` and many built-in callables cannot.
- A weak reference is `Weak(target, alive)`. A listener is dead exactly when its reference is weak and no longer alive.
- What filters return and whether callbacks raise is outside the notifier's control. A `World` value supplies both as oracles. A filter may return a truthy or a falsy value, or it may raise. A raising filter escapes `Listener.__call__` and is counted as a failure, just like a raising callback.
- Event types are `Any` (the value of the class attribute `ANY`) or `Named(name)`. The model assumes that no named event equals `ANY`.
- Listener uuids are a parameter of `Register`. Where a property needs freshness, the lemma requires it.

The code and its documentation disagree in a few places. The model follows
the code:

- The `notify` docstring says that `can_be_registered` checks the event. The code checks `can_trigger_notification`. So a `RestrictedNotifier` still notifies events outside its allow-list; only `ANY` is refused.
- `deregister` and `deregister_by_uuid` leave an emptied list in the mapping. Only `register` creates an event's list. So a register/deregister round trip restores every event's listeners, but it restores the registry value itself only when the event already had a list (`RegisterThenDeregister`).
- `__eq__` treats two dead listeners with the same filter as equal, whatever their callbacks were. Garbage collection alone can therefore put two equal listeners in one list. The no-duplicates invariant is proved for the registry's own operations only (`DeadListenersCollapse`).
- `deregister(e, None, f)` can remove a dead listener, because a dead listener's callback is `None`. `deregister` with a live callback never removes a dead listener.

## Model

| member | source | states |
|---|---|---|
| Listeners.Callback | venv/lib/python3.10/site-packages/notifier/_notifier.py:90-125 | the resolved callback is absent exactly when the listener is dead, and otherwise it is the referenced callback |
| Listeners.Dead | venv/lib/python3.10/site-packages/notifier/_notifier.py:112-125 | a strongly held callback is never dead; a weakly held one is dead exactly when its referent has been collected |
| Listeners.MakeRef | venv/lib/python3.10/site-packages/notifier/_notifier.py:44-50 | the reference points at the given callback, is weak exactly when `weak` is set, and a new weak reference is alive |
| Listeners.IsEquivalent | venv/lib/python3.10/site-packages/notifier/_notifier.py:168-191 | `is_equivalent` holds exactly when the resolved callback (absent for a dead listener) and the filter are the given ones |
| Listeners.Equivalent | venv/lib/python3.10/site-packages/notifier/_notifier.py:193-204 | two listeners are equal exactly when their resolved callbacks and their filters coincide; uuid, args and kwargs play no part |
| Listeners.EquivalenceIgnoresIdentityAndArguments | venv/lib/python3.10/site-packages/notifier/_notifier.py:193-204 | equality is symmetric, and changing a listener's uuid, args or kwargs neither makes nor breaks it |
| Listeners.DeadListenersCollapse | venv/lib/python3.10/site-packages/notifier/_notifier.py:168-191 | dead listeners with the same filter are equal to each other, match a `None` callback, and never match a live callback |
| Listeners.Fire | venv/lib/python3.10/site-packages/notifier/_notifier.py:137-152 | a dead listener does nothing; a listener whose filter is falsy does nothing; a raising filter raises; otherwise the callback is called with the event, the fixed args, the fixed kwargs without `details`, and the payload as `details`; only a live listener can raise |
| Notifiers.CanBeRegistered | venv/lib/python3.10/site-packages/notifier/_notifier.py:469-532 | a plain notifier accepts every event; a restricted one accepts exactly the allow-listed events, plus `ANY` when `allow_any` |
| Notifiers.CanTriggerNotification | venv/lib/python3.10/site-packages/notifier/_notifier.py:477-487 | every event except `ANY` can trigger a notification |
| Notifiers.IsRegistered | venv/lib/python3.10/site-packages/notifier/_notifier.py:267-282 | true exactly when some listener of the event is equivalent to the (callback, filter) pair; an unknown event has none |
| Notifiers.Register | venv/lib/python3.10/site-packages/notifier/_notifier.py:336-387 | the checks in order: callback not callable, filter not callable, event not allowed, reserved `details` key, equivalent pair present, and last a weak registration of an object `weakref` cannot refer to (the `TypeError` that `_make_ref` raises). Each failure leaves the registry unchanged. Success appends exactly one listener, carrying the given uuid, args, kwargs and filter, at the end of that event's list. It creates the list if needed and changes no other event or the policy |
| Notifiers.Deregister | venv/lib/python3.10/site-packages/notifier/_notifier.py:389-407 | returns true exactly when the pair is registered. It then removes the first equivalent listener and keeps the rest in order. No other event changes and the emptied list stays. Otherwise the registry is unchanged |
| Notifiers.DeregisterByUuid | venv/lib/python3.10/site-packages/notifier/_notifier.py:409-424 | the same as `deregister`, matching the first listener with the uuid |
| Notifiers.DeregisterEvent | venv/lib/python3.10/site-packages/notifier/_notifier.py:426-434 | returns the length of the event's list (0 when absent), drops that key and keeps every other event's list |
| Notifiers.Reset | venv/lib/python3.10/site-packages/notifier/_notifier.py:284-286 | after `reset` the mapping holds no event at all, so every event has no listeners, and the registration policy is unchanged |
| Notifiers.Len | venv/lib/python3.10/site-packages/notifier/_notifier.py:250-265 | the event-by-event loop returns the total number of listeners across all events |
| Notifiers.Copy | venv/lib/python3.10/site-packages/notifier/_notifier.py:436-449 | the copy built event by event has the same listener sequences under the same events, and the same policy |
| Dispatch.Payload | venv/lib/python3.10/site-packages/notifier/_notifier.py:330-331 | the payload handed to the listeners holds exactly the entries of the given details, and none when no details were given |
| Dispatch.FailureCount | venv/lib/python3.10/site-packages/notifier/_notifier.py:288-303 | the number of failures never exceeds the number of listeners called |
| Dispatch.InvocationsAppend | venv/lib/python3.10/site-packages/notifier/_notifier.py:328-329 | calling the wildcard list then the event list makes the wildcard calls first and then the event's, each in list order |
| Dispatch.FailureCountAppend | venv/lib/python3.10/site-packages/notifier/_notifier.py:290-303 | the failures of two lists dispatched back to back add up |
| Dispatch.NoFailureIffNoneRaises | venv/lib/python3.10/site-packages/notifier/_notifier.py:292-300 | zero failures are reported exactly when no listener raises |
| Dispatch.AllFailIffAllRaise | venv/lib/python3.10/site-packages/notifier/_notifier.py:292-303 | every listener is reported as failed exactly when every one raises |
| Dispatch.SilentListenersCallNothing | venv/lib/python3.10/site-packages/notifier/_notifier.py:144-149 | dead listeners and listeners whose filter rejects the payload make no call and count as successes |
| Dispatch.DoDispatch | venv/lib/python3.10/site-packages/notifier/_notifier.py:288-303 | total is the number of listeners, failures is the number that raise, successes plus failures is total, and the calls are made in list order; a raising listener does not stop the ones after it, provided it raises an `Exception` subclass |
| Dispatch.Notify | venv/lib/python3.10/site-packages/notifier/_notifier.py:305-334 | `ANY` is refused and every other event is accepted. The snapshot is the wildcard listeners followed by the event's own listeners, and total is its length. The calls are the wildcard calls then the event's. Successes plus failures equals total |
| RegistryLemmas.NewIsEmpty | venv/lib/python3.10/site-packages/notifier/_notifier.py:233-237 | a new notifier, plain or restricted, holds no listener |
| RegistryLemmas.RegisterIncrementsSize | venv/lib/python3.10/site-packages/notifier/_notifier.py:376-387 | a successful registration raises `len` by exactly one; a failed one leaves it unchanged |
| RegistryLemmas.DeregisterDecrementsSize | venv/lib/python3.10/site-packages/notifier/_notifier.py:400-407 | a successful `deregister` lowers `len` by exactly one; an unsuccessful one leaves it unchanged |
| RegistryLemmas.DeregisterByUuidDecrementsSize | venv/lib/python3.10/site-packages/notifier/_notifier.py:418-424 | the same for `deregister_by_uuid` |
| RegistryLemmas.DeregisterEventSize | venv/lib/python3.10/site-packages/notifier/_notifier.py:426-434 | `len` drops by exactly the count `deregister_event` returns, and the event is gone |
| RegistryLemmas.ResetEmpties | venv/lib/python3.10/site-packages/notifier/_notifier.py:284-286 | after `reset` the count is 0, no pair is registered for any event, and the policy is kept |
| RegistryLemmas.RegisterThenIsRegistered | venv/lib/python3.10/site-packages/notifier/_notifier.py:376-387 | after a successful registration, `is_registered` holds for the pair and the event |
| RegistryLemmas.RegisterTwiceRejected | venv/lib/python3.10/site-packages/notifier/_notifier.py:376-380 | registering an equivalent pair for the same event again fails as a duplicate and changes nothing, whatever the args, reference kind or uuid. The new kwargs must not hold the reserved `details` key, because that check runs before the duplicate check and fails first |
| RegistryLemmas.RegisterOtherPairIndependent | venv/lib/python3.10/site-packages/notifier/_notifier.py:376-380 | registering a pair does not block the same callback for another event or with another filter: that succeeds afterwards exactly when it would have before |
| RegistryLemmas.RegisterPreservesNoDuplicates | venv/lib/python3.10/site-packages/notifier/_notifier.py:376-387 | `register` keeps every event's list free of equal listeners |
| RegistryLemmas.DeregisterPreservesNoDuplicates | venv/lib/python3.10/site-packages/notifier/_notifier.py:400-407 | `deregister` keeps every event's list free of equal listeners |
| RegistryLemmas.DeregisterByUuidPreservesNoDuplicates | venv/lib/python3.10/site-packages/notifier/_notifier.py:418-424 | `deregister_by_uuid` keeps every event's list free of equal listeners |
| RegistryLemmas.DeregisterEventPreservesNoDuplicates | venv/lib/python3.10/site-packages/notifier/_notifier.py:426-434 | `deregister_event` and `reset` keep the invariant |
| RegistryLemmas.DeregisterLeavesNoMatch | venv/lib/python3.10/site-packages/notifier/_notifier.py:400-407 | while no list holds equal listeners, after `deregister` the pair is no longer registered for the event |
| RegistryLemmas.DeregisterByUuidLeavesNoMatch | venv/lib/python3.10/site-packages/notifier/_notifier.py:418-424 | while an event's uuids are unique, after `deregister_by_uuid` no listener of the event has that uuid |
| RegistryLemmas.RegisterPreservesUniqueUuids | venv/lib/python3.10/site-packages/notifier/_notifier.py:381-386 | registering under a uuid fresh for the event keeps the event's uuids unique |
| RegistryLemmas.RegisterThenDeregister | venv/lib/python3.10/site-packages/notifier/_notifier.py:376-407 | deregistering the pair just registered succeeds and gives every event its old list back. The registry equals the old one exactly when the event already had a list |
| RegistryLemmas.RegisterThenDeregisterByUuid | venv/lib/python3.10/site-packages/notifier/_notifier.py:376-424 | the same round trip through `deregister_by_uuid`, when the new uuid was fresh for the event |
| Scoped.Enter | venv/lib/python3.10/site-packages/notifier/_notifier.py:535-551 | with no callback nothing is registered and the block runs. Otherwise the block runs exactly when `register` accepts the pair, and the pair is then registered with the count one higher. A refused registration leaves the registry unchanged |
| Scoped.Exit | venv/lib/python3.10/site-packages/notifier/_notifier.py:552-556 | with no callback, or an unregistered pair, nothing changes; otherwise exactly one listener is removed |
| Scoped.ExitUnregisters | venv/lib/python3.10/site-packages/notifier/_notifier.py:552-556 | while no list holds equal listeners, the pair is unregistered after the block and the invariant still holds |
| Scoped.ScopeRestores | venv/lib/python3.10/site-packages/notifier/_notifier.py:545-556 | around a block that leaves the registry alone, every event ends with the listeners it had before, and the count is unchanged |

## Left out

- Locking: `threading.Lock` is not modelled. Each operation is one atomic step. The `KeyError` handlers in `__len__` and `copy` only matter under concurrent removal, so they are unreachable here.
- Executors and futures: `notify` returns its counts directly rather than a future from `futurist.SynchronousExecutor`.
- Logging of listener failures in `_do_dispatch`: I/O.
- Dispatch.Notify: callbacks and filters do not call back into the notifier. A callback that registers or deregisters listeners on the same notifier while `notify` runs is not modelled, and neither is the isolation the `list(...)` snapshot at the start of `notify` gives the in-flight dispatch from such changes; `Notify` returns no registry, so the registry after a notification is the one before it.
- Dispatch.DoDispatch: "raises" means raises an `Exception` subclass, which `_do_dispatch` catches and counts. A `BaseException` that is not an `Exception` (`KeyboardInterrupt`, `SystemExit`, `GeneratorExit`) ends the loop in the source, so no later listener runs and no counts are returned; the model has no such outcome.
- Listeners.Fire: callbacks and filters are stateless oracles of the `World`. A filter that answers differently for the same payload on a second call, or a callback that raises only on its second call, cannot be represented. This matters when one dispatch calls the same callback twice, for instance once under `ANY` and once under the event.
- The `ANY` constant: `_constants.ANY` is not part of this model. The model assumes that no named event equals it.
- Pickling and `__repr__`: `__getstate__`/`__setstate__` serialise state for a foreign library; `__repr__` is formatting.
- Uuid generation: `uuidutils.generate_uuid` is randomness. The uuid is a parameter, and freshness appears as a lemma precondition.
- Garbage collection: nothing in the model kills a weak reference. The `alive` flag stands for the collector's decision, which happens outside the notifier.
- `WeakMethod` vs `weakref.ref`: both are one `Weak` reference. For a bound method the `weakrefable` tag stands for whether its `__self__` can be weakly referenced.
- `frozendict` and the tuple conversion of `args`: these become immutable Dafny maps and sequences. Values are immutable, so the shallow `details.copy()` each listener gets is the same value.
- Aliasing between a notifier and its copy: values cannot be mutated, so the independence that `copy` makes by building fresh lists holds by construction. `Copy` proves only that the copy has the same contents.
- `listeners_iter` and `events_iter`: generators over unordered set snapshots that only expose the mapping or the allow-list.
- The class attribute `LOG` and the logger: configuration for logging only.
- Falsy payloads other than `None` and `{}`: `notify` turns a missing payload into `{}`; other falsy non-dict values are not modelled.
- The application around the package: `main/models.py`, `main/serializers.py`, `main/views.py`, `main/urls.py`, `main/admin.py` and `order/serializers.py` are declarations with no behaviour of their own. `order/views.py` formats a message and hands it to `order.bot`; `order.bot` is not part of this model.
