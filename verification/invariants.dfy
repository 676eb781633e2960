/** Properties relating the registry operations to one another: the listener
    count each changes, the no-duplicates invariant, and the round trips
    between registering and deregistering. */
module RegistryLemmas {
  import opened Wrappers
  import opened Seqs
  import opened Listeners
  import opened Topics
  import opened Notifiers

  /** No two listeners of a list are equal (`__eq__`). */
  ghost predicate Distinct(s: seq<Listener>) {
    forall i, j :: 0 <= i < j < |s| ==> !Equivalent(s[i], s[j])
  }

  /** No event's list holds two equal listeners. */
  ghost predicate NoDuplicates(n: Notifier) {
    forall e :: e in n.topics ==> Distinct(n.topics[e])
  }

  /** No two listeners of a list share a uuid. */
  ghost predicate UniqueUuids(s: seq<Listener>) {
    forall i, j :: 0 <= i < j < |s| ==> s[i].uuid != s[j].uuid
  }

  /** `Notifier()` holds no listener. */
  lemma NewIsEmpty(watchable: set<Event>, allowAny: bool)
    ensures Size(New()) == 0 && NoDuplicates(New())
    ensures Size(NewRestricted(watchable, allowAny)) == 0 && NoDuplicates(NewRestricted(watchable, allowAny))
  {
  }

  // ----- the listener count -------------------------------------------------

  /** A successful registration adds exactly one listener to the count. */
  lemma RegisterIncrementsSize(n: Notifier, e: Event, callback: Option<Obj>, args: seq<Obj>, kwargs: map<string, Obj>,
                               filter: Option<Obj>, weak: bool, uuid: Uuid)
    ensures var r := Register(n, e, callback, args, kwargs, filter, weak, uuid);
            Size(r.0) == if r.1.Success? then Size(n) + 1 else Size(n)
  {
    var r := Register(n, e, callback, args, kwargs, filter, weak, uuid);
    if r.1.Success? {
      assert r.0.topics == n.topics[e := ListenersOf(n, e) + [r.1.value]];
      CountUpdate(n.topics, e, ListenersOf(n, e) + [r.1.value]);
    }
  }

  /** A successful deregistration removes exactly one listener from the
      count; an unsuccessful one changes nothing. */
  lemma DeregisterDecrementsSize(n: Notifier, e: Event, callback: Option<Obj>, filter: Option<Obj>)
    ensures var r := Deregister(n, e, callback, filter);
            Size(r.0) + (if r.1 then 1 else 0) == Size(n)
  {
    var r := Deregister(n, e, callback, filter);
    if r.1 {
      var s := n.topics[e];
      var i :| FirstEquivalentAt(s, i, callback, filter) && r.0.topics[e] == s[..i] + s[i + 1..];
      assert r.0.topics == n.topics[e := s[..i] + s[i + 1..]];
      CountUpdate(n.topics, e, s[..i] + s[i + 1..]);
    }
  }

  /** The same for removal by uuid. */
  lemma DeregisterByUuidDecrementsSize(n: Notifier, e: Event, uuid: Uuid)
    ensures var r := DeregisterByUuid(n, e, uuid);
            Size(r.0) + (if r.1 then 1 else 0) == Size(n)
  {
    var r := DeregisterByUuid(n, e, uuid);
    if r.1 {
      var s := n.topics[e];
      var i :| FirstWithUuidAt(s, i, uuid) && r.0.topics[e] == s[..i] + s[i + 1..];
      assert r.0.topics == n.topics[e := s[..i] + s[i + 1..]];
      CountUpdate(n.topics, e, s[..i] + s[i + 1..]);
    }
  }

  /** `deregister_event` lowers the count by the number it returns. */
  lemma DeregisterEventSize(n: Notifier, e: Event)
    ensures var r := DeregisterEvent(n, e);
            Size(r.0) + r.1 == Size(n) && e !in r.0.topics
  {
    var r := DeregisterEvent(n, e);
    assert r.0.topics == n.topics - {e};
    CountRemove(n.topics, e);
  }

  /** `reset` leaves no listener, keeps the policy and registers nothing
      for any event. */
  lemma ResetEmpties(n: Notifier, e: Event, callback: Option<Obj>, filter: Option<Obj>)
    ensures Size(Reset(n)) == 0
    ensures Reset(n).policy == n.policy
    ensures !IsRegistered(Reset(n), e, callback, filter)
  {
  }

  // ----- registration -------------------------------------------------------

  /** After a successful registration the pair is registered for the event. */
  lemma RegisterThenIsRegistered(n: Notifier, e: Event, callback: Option<Obj>, args: seq<Obj>, kwargs: map<string, Obj>,
                                 filter: Option<Obj>, weak: bool, uuid: Uuid)
    requires Register(n, e, callback, args, kwargs, filter, weak, uuid).1.Success?
    ensures IsRegistered(Register(n, e, callback, args, kwargs, filter, weak, uuid).0, e, callback, filter)
  {
    var r := Register(n, e, callback, args, kwargs, filter, weak, uuid);
    var s := ListenersOf(r.0, e);
    assert s[|s| - 1] == r.1.value;
    assert IsEquivalent(s[|s| - 1], callback, filter);
  }

  /** Registering an equal pair for the same event again is refused, whatever
      the arguments, the reference kind and the uuid. */
  lemma RegisterTwiceRejected(n: Notifier, e: Event, callback: Option<Obj>, args: seq<Obj>, kwargs: map<string, Obj>,
                              filter: Option<Obj>, weak: bool, uuid: Uuid,
                              args': seq<Obj>, kwargs': map<string, Obj>, weak': bool, uuid': Uuid)
    requires Register(n, e, callback, args, kwargs, filter, weak, uuid).1.Success?
    requires DetailsKey !in kwargs'
    ensures var n' := Register(n, e, callback, args, kwargs, filter, weak, uuid).0;
            Register(n', e, callback, args', kwargs', filter, weak', uuid') == (n', Failure(AlreadyRegistered))
  {
    RegisterThenIsRegistered(n, e, callback, args, kwargs, filter, weak, uuid);
  }

  /** A registration does not stand in the way of registering the same
      callback for another event or with another filter: that succeeds after
      it exactly when it would have succeeded before it. */
  lemma RegisterOtherPairIndependent(n: Notifier, e: Event, callback: Option<Obj>, args: seq<Obj>, kwargs: map<string, Obj>,
                                     filter: Option<Obj>, weak: bool, uuid: Uuid,
                                     e': Event, filter': Option<Obj>, args': seq<Obj>, kwargs': map<string, Obj>, weak': bool, uuid': Uuid)
    requires Register(n, e, callback, args, kwargs, filter, weak, uuid).1.Success?
    requires e' != e || filter' != filter
    ensures var n' := Register(n, e, callback, args, kwargs, filter, weak, uuid).0;
            var after := Register(n', e', callback, args', kwargs', filter', weak', uuid').1;
            var before := Register(n, e', callback, args', kwargs', filter', weak', uuid').1;
            after.Success? <==> before.Success?
  {
    var n' := Register(n, e, callback, args, kwargs, filter, weak, uuid).0;
    if e' == e {
      var s := ListenersOf(n, e);
      var l := n'.topics[e][|s|];
      assert !IsEquivalent(l, callback, filter');
      assert forall i :: 0 <= i < |s| ==> ListenersOf(n', e)[i] == s[i];
      assert IsRegistered(n', e, callback, filter') <==> IsRegistered(n, e, callback, filter');
    } else {
      assert ListenersOf(n', e') == ListenersOf(n, e');
    }
  }

  // ----- no duplicates ------------------------------------------------------

  /** Removing one element keeps a list free of equal listeners. */
  lemma DistinctRemoveAt(s: seq<Listener>, i: nat)
    requires i < |s| && Distinct(s)
    ensures Distinct(s[..i] + s[i + 1..])
  {
    var s' := s[..i] + s[i + 1..];
    forall a, b | 0 <= a < b < |s'|
      ensures !Equivalent(s'[a], s'[b])
    {
      var a0 := if a < i then a else a + 1;
      var b0 := if b < i then b else b + 1;
      assert s'[a] == s[a0] && s'[b] == s[b0];
    }
  }

  /** `register` keeps every event's list free of equal listeners. */
  lemma RegisterPreservesNoDuplicates(n: Notifier, e: Event, callback: Option<Obj>, args: seq<Obj>, kwargs: map<string, Obj>,
                                      filter: Option<Obj>, weak: bool, uuid: Uuid)
    requires NoDuplicates(n)
    ensures NoDuplicates(Register(n, e, callback, args, kwargs, filter, weak, uuid).0)
  {
    var r := Register(n, e, callback, args, kwargs, filter, weak, uuid);
    if r.1.Success? {
      var s := ListenersOf(n, e);
      var s' := r.0.topics[e];
      forall i, j | 0 <= i < j < |s'|
        ensures !Equivalent(s'[i], s'[j])
      {
        if j < |s| {
          assert s'[i] == s[i] && s'[j] == s[j];
        } else {
          assert s'[i] == s[i] && s'[j] == r.1.value;
          assert !IsEquivalent(s[i], callback, filter);
        }
      }
    }
  }

  /** `deregister` keeps every event's list free of equal listeners. */
  lemma DeregisterPreservesNoDuplicates(n: Notifier, e: Event, callback: Option<Obj>, filter: Option<Obj>)
    requires NoDuplicates(n)
    ensures NoDuplicates(Deregister(n, e, callback, filter).0)
  {
    var r := Deregister(n, e, callback, filter);
    if r.1 {
      var s := n.topics[e];
      var i :| FirstEquivalentAt(s, i, callback, filter) && r.0.topics[e] == s[..i] + s[i + 1..];
      DistinctRemoveAt(s, i);
    }
  }

  /** `deregister_by_uuid` keeps every event's list free of equal listeners. */
  lemma DeregisterByUuidPreservesNoDuplicates(n: Notifier, e: Event, uuid: Uuid)
    requires NoDuplicates(n)
    ensures NoDuplicates(DeregisterByUuid(n, e, uuid).0)
  {
    var r := DeregisterByUuid(n, e, uuid);
    if r.1 {
      var s := n.topics[e];
      var i :| FirstWithUuidAt(s, i, uuid) && r.0.topics[e] == s[..i] + s[i + 1..];
      DistinctRemoveAt(s, i);
    }
  }

  /** `deregister_event` and `reset` keep the invariant too. */
  lemma DeregisterEventPreservesNoDuplicates(n: Notifier, e: Event)
    requires NoDuplicates(n)
    ensures NoDuplicates(DeregisterEvent(n, e).0)
    ensures NoDuplicates(Reset(n))
  {
  }

  /** While the invariant holds, a successful `deregister` removes the only
      listener equal to the pair, so the pair is no longer registered. */
  lemma DeregisterLeavesNoMatch(n: Notifier, e: Event, callback: Option<Obj>, filter: Option<Obj>)
    requires NoDuplicates(n)
    ensures !IsRegistered(Deregister(n, e, callback, filter).0, e, callback, filter)
  {
    var r := Deregister(n, e, callback, filter);
    if r.1 {
      var s := n.topics[e];
      var i :| FirstEquivalentAt(s, i, callback, filter) && r.0.topics[e] == s[..i] + s[i + 1..];
      var s' := r.0.topics[e];
      forall k | 0 <= k < |s'|
        ensures !IsEquivalent(s'[k], callback, filter)
      {
        var k0 := if k < i then k else k + 1;
        assert s'[k] == s[k0] && k0 != i;
        if i < k0 {
          assert !Equivalent(s[i], s[k0]);
        }
      }
    }
  }

  // ----- uuids --------------------------------------------------------------

  /** While an event's uuids are unique, `deregister_by_uuid` leaves no
      listener with that uuid in it. */
  lemma DeregisterByUuidLeavesNoMatch(n: Notifier, e: Event, uuid: Uuid)
    requires UniqueUuids(ListenersOf(n, e))
    ensures forall l :: l in ListenersOf(DeregisterByUuid(n, e, uuid).0, e) ==> l.uuid != uuid
  {
    var r := DeregisterByUuid(n, e, uuid);
    if r.1 {
      var s := n.topics[e];
      var i :| FirstWithUuidAt(s, i, uuid) && r.0.topics[e] == s[..i] + s[i + 1..];
      var s' := r.0.topics[e];
      forall k | 0 <= k < |s'|
        ensures s'[k].uuid != uuid
      {
        var k0 := if k < i then k else k + 1;
        assert s'[k] == s[k0] && k0 != i;
      }
    }
  }

  /** A registration under a fresh uuid keeps the event's uuids unique. */
  lemma RegisterPreservesUniqueUuids(n: Notifier, e: Event, callback: Option<Obj>, args: seq<Obj>, kwargs: map<string, Obj>,
                                     filter: Option<Obj>, weak: bool, uuid: Uuid)
    requires UniqueUuids(ListenersOf(n, e))
    requires forall l :: l in ListenersOf(n, e) ==> l.uuid != uuid
    ensures UniqueUuids(ListenersOf(Register(n, e, callback, args, kwargs, filter, weak, uuid).0, e))
  {
    var r := Register(n, e, callback, args, kwargs, filter, weak, uuid);
    if r.1.Success? {
      var s := ListenersOf(n, e);
      var s' := r.0.topics[e];
      forall i, j | 0 <= i < j < |s'|
        ensures s'[i].uuid != s'[j].uuid
      {
        assert s'[i] == s[i];
        if j == |s| {
          assert s'[j].uuid == uuid && s[i] in s;
        }
      }
    }
  }

  // ----- round trips --------------------------------------------------------

  /** Dropping the element appended last gives the list back. */
  lemma RemoveAppended(s: seq<Listener>, l: Listener)
    ensures (s + [l])[..|s|] + (s + [l])[|s| + 1..] == s
  {
    assert (s + [l])[..|s|] == s;
    assert (s + [l])[|s| + 1..] == [];
  }

  /** A registry whose mapping differs from `n`'s only by setting `e` to
      its old listener list holds the same listeners as `n`, and is `n`
      exactly when `e` already had a list. */
  lemma RestoredListeners(n: Notifier, m: Notifier, e: Event)
    requires m.policy == n.policy && m.topics == n.topics[e := ListenersOf(n, e)]
    ensures forall e' :: ListenersOf(m, e') == ListenersOf(n, e')
    ensures m == n <==> e in n.topics
  {
    if e in n.topics {
      assert m.topics == n.topics;
    } else {
      assert e in m.topics;
    }
  }

  /** Deregistering the pair just registered gives every event its old list
      back; the registry is the old one exactly when the event already had a
      list, since `register` creates the list and `deregister` keeps it. */
  lemma RegisterThenDeregister(n: Notifier, e: Event, callback: Option<Obj>, args: seq<Obj>, kwargs: map<string, Obj>,
                               filter: Option<Obj>, weak: bool, uuid: Uuid)
    requires Register(n, e, callback, args, kwargs, filter, weak, uuid).1.Success?
    ensures var r := Deregister(Register(n, e, callback, args, kwargs, filter, weak, uuid).0, e, callback, filter);
            && r.1
            && (forall e' :: ListenersOf(r.0, e') == ListenersOf(n, e'))
            && (r.0 == n <==> e in n.topics)
  {
    var r1 := Register(n, e, callback, args, kwargs, filter, weak, uuid);
    var n1, l := r1.0, r1.1.value;
    var s := ListenersOf(n, e);
    var r := Deregister(n1, e, callback, filter);
    assert r.0.policy == n.policy;
    assert r.0.topics == n.topics[e := s] by {
      assert n1.topics == n.topics[e := s + [l]];
      assert IsEquivalent(l, callback, filter);
      assert forall j :: 0 <= j < |s| ==> !IsEquivalent((s + [l])[j], callback, filter);
      assert r.1 by {
        assert (s + [l])[|s|] == l;
      }
      var i :| FirstEquivalentAt(s + [l], i, callback, filter) && r.0.topics[e] == (s + [l])[..i] + (s + [l])[i + 1..];
      assert i == |s|;
      RemoveAppended(s, l);
    }
    RestoredListeners(n, r.0, e);
  }

  /** Deregistering by the uuid of the listener just registered, when that
      uuid was fresh for the event, gives every event its old list back. */
  lemma RegisterThenDeregisterByUuid(n: Notifier, e: Event, callback: Option<Obj>, args: seq<Obj>, kwargs: map<string, Obj>,
                                     filter: Option<Obj>, weak: bool, uuid: Uuid)
    requires Register(n, e, callback, args, kwargs, filter, weak, uuid).1.Success?
    requires forall l :: l in ListenersOf(n, e) ==> l.uuid != uuid
    ensures var r := DeregisterByUuid(Register(n, e, callback, args, kwargs, filter, weak, uuid).0, e, uuid);
            && r.1
            && (forall e' :: ListenersOf(r.0, e') == ListenersOf(n, e'))
            && (r.0 == n <==> e in n.topics)
  {
    var r1 := Register(n, e, callback, args, kwargs, filter, weak, uuid);
    var n1, l := r1.0, r1.1.value;
    var s := ListenersOf(n, e);
    var r := DeregisterByUuid(n1, e, uuid);
    assert r.0.policy == n.policy;
    assert r.0.topics == n.topics[e := s] by {
      assert n1.topics == n.topics[e := s + [l]];
      assert forall j :: 0 <= j < |s| ==> (s + [l])[j].uuid != uuid by {
        forall j | 0 <= j < |s|
          ensures (s + [l])[j].uuid != uuid
        {
          assert (s + [l])[j] == s[j] && s[j] in s;
        }
      }
      assert r.1 by {
        assert (s + [l])[|s|] == l;
      }
      var i :| FirstWithUuidAt(s + [l], i, uuid) && r.0.topics[e] == (s + [l])[..i] + (s + [l])[i + 1..];
      assert i == |s|;
      RemoveAppended(s, l);
    }
    RestoredListeners(n, r.0, e);
  }
}
