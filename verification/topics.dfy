/** The registry's event-to-listeners mapping and its total listener count,
    the quantity `Notifier.__len__` computes. */
module Topics {
  import opened Listeners

  type Topics = map<Event, seq<Listener>>

  /** Sum of the list lengths of the events in `keys`. */
  ghost function SumLengths(t: Topics, keys: set<Event>): nat
    requires keys <= t.Keys
    decreases keys
  {
    if keys == {} then 0
    else
      var k :| k in keys;
      |t[k]| + SumLengths(t, keys - {k})
  }

  /** The number of listeners registered across all events. */
  ghost function Count(t: Topics): nat {
    SumLengths(t, t.Keys)
  }

  /** The sum may be taken by removing any event first. */
  lemma {:induction false} SumLengthsPick(t: Topics, keys: set<Event>, k: Event)
    requires keys <= t.Keys && k in keys
    ensures SumLengths(t, keys) == |t[k]| + SumLengths(t, keys - {k})
    decreases keys
  {
    var k0 :| k0 in keys && SumLengths(t, keys) == |t[k0]| + SumLengths(t, keys - {k0});
    if k0 != k {
      SumLengthsPick(t, keys - {k0}, k);
      SumLengthsPick(t, keys - {k}, k0);
      assert keys - {k0} - {k} == keys - {k} - {k0};
    }
  }

  /** The sum only depends on the lists of the events summed over. */
  lemma {:induction false} SumLengthsFrame(t1: Topics, t2: Topics, keys: set<Event>)
    requires keys <= t1.Keys && keys <= t2.Keys
    requires forall k :: k in keys ==> t1[k] == t2[k]
    ensures SumLengths(t1, keys) == SumLengths(t2, keys)
    decreases keys
  {
    if keys != {} {
      var k :| k in keys;
      SumLengthsPick(t1, keys, k);
      SumLengthsPick(t2, keys, k);
      SumLengthsFrame(t1, t2, keys - {k});
    }
  }

  /** Replacing (or adding) one event's list changes the count by the
      difference of the lengths. */
  lemma CountUpdate(t: Topics, k: Event, v: seq<Listener>)
    ensures Count(t[k := v]) + (if k in t then |t[k]| else 0) == Count(t) + |v|
  {
    var t' := t[k := v];
    SumLengthsPick(t', t'.Keys, k);
    assert t'.Keys - {k} == t.Keys - {k};
    SumLengthsFrame(t', t, t.Keys - {k});
    if k in t {
      SumLengthsPick(t, t.Keys, k);
    } else {
      assert t.Keys - {k} == t.Keys;
    }
  }

  /** Removing one event's list lowers the count by its length. */
  lemma CountRemove(t: Topics, k: Event)
    ensures Count(t - {k}) + (if k in t then |t[k]| else 0) == Count(t)
  {
    var t' := t - {k};
    assert t'.Keys == t.Keys - {k};
    SumLengthsFrame(t', t, t'.Keys);
    if k in t {
      SumLengthsPick(t, t.Keys, k);
    } else {
      assert t' == t;
    }
  }
}
