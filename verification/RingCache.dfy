/** The bounded cache behind the language server's lookups: a map and an insertion queue under one
    lock, released while a missing value is computed. */
module RingCache {
  import opened Common

  /** A shared value; `id` tells one allocation from another. */
  datatype Arc<+V> = Arc(id: nat, value: V)

  datatype Ring<K, V> = Ring(entries: map<K, Arc<V>>, order: seq<K>)

  /** Even with capacity zero the newest entry stays. */
  function Slots(n: nat): nat {
    if n == 0 then 1 else n
  }

  function Lookup<K, V>(r: Ring<K, V>, key: K): Option<Arc<V>> {
    if key in r.entries then Some(r.entries[key]) else None
  }

  function Evicted<K, V>(n: nat, r: Ring<K, V>): Ring<K, V> {
    if |r.entries| >= n && r.order != [] then Ring(r.entries - {r.order[0]}, r.order[1..]) else r
  }

  /** The second locked section: an entry that appeared meanwhile wins. */
  function Publish<K, V>(n: nat, r: Ring<K, V>, key: K, arc: Arc<V>): Ring<K, V> {
    if key in r.entries then r else
    var room := Evicted(n, r);
    Ring(room.entries[key := arc], room.order + [key])
  }

  ghost predicate NoDuplicates<K>(s: seq<K>) {
    forall i, j :: 0 <= i < j < |s| ==> s[i] != s[j]
  }

  /** Map and queue hold the same keys, the queue each of them once. */
  ghost predicate Agree<K, V>(r: Ring<K, V>) {
    && NoDuplicates(r.order)
    && (forall k :: k in r.order ==> k in r.entries)
    && (forall k :: k in r.entries ==> k in r.order)
  }

  /** The queue is the recent end of the insert log, as long as the slots allow. */
  ghost predicate RecentEnd<K>(n: nat, order: seq<K>, log: seq<K>) {
    && |order| == (if |log| < Slots(n) then |log| else Slots(n))
    && order == log[|log| - |order|..]
  }

  ghost predicate Coherent<K, V>(n: nat, r: Ring<K, V>, log: seq<K>) {
    Agree(r) && RecentEnd(n, r.order, log)
  }

  ghost predicate AllComputed<K, V>(f: K -> V, r: Ring<K, V>) {
    forall k :: k in r.entries ==> r.entries[k].value == f(k)
  }

  lemma EvictOldest<K, V>(r: Ring<K, V>)
    requires Agree(r) && r.order != []
    ensures Agree(Ring(r.entries - {r.order[0]}, r.order[1..])) && r.order[0] in r.entries
  {
    assert forall k :: k in r.order <==> k == r.order[0] || k in r.order[1..];
  }

  lemma {:induction false} KeyCount<K, V>(r: Ring<K, V>)
    requires Agree(r)
    ensures |r.entries| == |r.order|
    decreases |r.order|
  {
    if r.order == [] {
      assert r.entries == map[];
    } else {
      EvictOldest(r);
      var rest := Ring(r.entries - {r.order[0]}, r.order[1..]);
      KeyCount(rest);
      assert r.entries.Keys == rest.entries.Keys + {r.order[0]};
    }
  }

  lemma PublishAgrees<K, V>(n: nat, r: Ring<K, V>, key: K, arc: Arc<V>)
    requires Agree(r) && key !in r.entries
    ensures Agree(Publish(n, r, key, arc))
    ensures forall k :: k in Publish(n, r, key, arc).entries && k != key ==>
      k in r.entries && Publish(n, r, key, arc).entries[k] == r.entries[k]
  {
    if r.order != [] {
      EvictOldest(r);
    }
    var room := Evicted(n, r);
    assert Agree(room) && key !in room.order;
    assert forall k :: k in room.order + [key] <==> k in room.order || k == key;
  }

  lemma PublishRecent<K, V>(n: nat, r: Ring<K, V>, log: seq<K>, key: K, arc: Arc<V>)
    requires Agree(r) && RecentEnd(n, r.order, log) && key !in r.entries
    ensures RecentEnd(n, Publish(n, r, key, arc).order, log + [key])
  {
    KeyCount(r);
    RecentSnoc(n, r.order, log, key);
  }

  lemma RecentSnoc<K>(n: nat, order: seq<K>, log: seq<K>, key: K)
    requires RecentEnd(n, order, log)
    ensures RecentEnd(n, (if |order| >= n && order != [] then order[1..] else order) + [key], log + [key])
  {
    var start := |log| - |order|;
    if |order| >= n && order != [] {
      assert (log + [key])[start + 1..] == log[start..][1..] + [key];
    } else {
      assert (log + [key])[start..] == log[start..] + [key];
    }
  }

  class Cache<K(==), V> {
    const capacity: nat
    var entries: map<K, Arc<V>>
    var insertionOrder: seq<K>

    ghost function Contents(): Ring<K, V>
      reads this
    {
      Ring(entries, insertionOrder)
    }

    constructor (capacity: nat)
      ensures this.capacity == capacity && Contents() == Ring(map[], [])
    {
      this.capacity := capacity;
      entries, insertionOrder := map[], [];
    }

    /** First locked section. */
    method Get(key: K) returns (hit: Option<Arc<V>>)
      ensures hit == Lookup(Contents(), key)
    {
      hit := if key in entries then Some(entries[key]) else None;
    }

    /** Second locked section. */
    method Put(key: K, value: Arc<V>) returns (shared: Arc<V>)
      modifies this
      ensures Contents() == Publish(capacity, old(Contents()), key, value)
      ensures key in entries && shared == entries[key]
    {
      if key in entries {
        return entries[key];
      }
      if |entries| >= capacity && insertionOrder != [] {
        var oldest := insertionOrder[0];
        insertionOrder := insertionOrder[1..];
        entries := entries - {oldest};
      }
      entries := entries[key := value];
      insertionOrder := insertionOrder + [key];
      return value;
    }

    /** A call nobody interrupts. `id` is the address the new allocation would get. */
    method GetOrCompute(key: K, compute: K -> V, id: nat) returns (shared: Arc<V>)
      modifies this
      ensures key in entries && shared == entries[key]
      ensures Contents() == if key in old(entries) then old(Contents())
        else Publish(capacity, old(Contents()), key, Arc(id, compute(key)))
    {
      var hit := Get(key);
      if hit.Some? {
        return hit.value;
      }
      shared := Put(key, Arc(id, compute(key)));
    }
  }

  // ---------------------------------------------------------------- interleaved calls

  datatype Call<K, V> =
    | Idle
    | Missed(key: K)
    | Computed(key: K, arc: Arc<V>)
    | Returned(key: K, arc: Arc<V>)

  /** `log` records every insertion, oldest first; no step reads it. */
  datatype State<K, V> = State(ring: Ring<K, V>, calls: seq<Call<K, V>>, nextId: nat, log: seq<K>)

  datatype Event<K> =
    | Start(t: nat, key: K)
    | Compute(t: nat)
    | Finish(t: nat)

  /** One atomic section of one thread's `get_or_compute`. Events out of turn change nothing. */
  function Step<K, V>(n: nat, f: K -> V, s: State<K, V>, e: Event<K>): State<K, V> {
    if e.t >= |s.calls| then s else
    var c := s.calls[e.t];
    match e
    case Start(t, key) =>
      if c.Missed? || c.Computed? then s else
      var hit := Lookup(s.ring, key);
      s.(calls := s.calls[t := if hit.Some? then Returned(key, hit.value) else Missed(key)])
    case Compute(t) =>
      if !c.Missed? then s
      else s.(calls := s.calls[t := Computed(c.key, Arc(s.nextId, f(c.key)))], nextId := s.nextId + 1)
    case Finish(t) =>
      if !c.Computed? then s else
      var ring := Publish(n, s.ring, c.key, c.arc);
      State(ring, s.calls[t := Returned(c.key, if c.key in ring.entries then ring.entries[c.key] else c.arc)], s.nextId,
            if c.key in s.ring.entries then s.log else s.log + [c.key])
  }

  function Run<K, V>(n: nat, f: K -> V, s: State<K, V>, events: seq<Event<K>>): (t: State<K, V>)
    ensures |t.calls| == |s.calls|
    decreases |events|
  {
    if events == [] then s else Run(n, f, Step(n, f, s, events[0]), events[1..])
  }

  ghost predicate CallComputed<K, V>(f: K -> V, c: Call<K, V>) {
    c.Computed? || c.Returned? ==> c.arc.value == f(c.key)
  }

  ghost predicate RingInv<K, V>(n: nat, f: K -> V, r: Ring<K, V>, log: seq<K>) {
    Coherent(n, r, log) && AllComputed(f, r)
  }

  ghost predicate Inv<K, V>(n: nat, f: K -> V, s: State<K, V>) {
    && RingInv(n, f, s.ring, s.log)
    && forall t :: 0 <= t < |s.calls| ==> CallComputed(f, s.calls[t])
  }

  lemma PublishInv<K, V>(n: nat, f: K -> V, r: Ring<K, V>, log: seq<K>, key: K, arc: Arc<V>)
    requires RingInv(n, f, r, log) && arc.value == f(key)
    ensures RingInv(n, f, Publish(n, r, key, arc), if key in r.entries then log else log + [key])
    ensures key in Publish(n, r, key, arc).entries && Publish(n, r, key, arc).entries[key].value == f(key)
  {
    if key !in r.entries {
      PublishAgrees(n, r, key, arc);
      PublishRecent(n, r, log, key, arc);
    }
  }

  lemma CallsKept<K, V>(f: K -> V, calls: seq<Call<K, V>>, t: nat, c: Call<K, V>)
    requires forall i :: 0 <= i < |calls| ==> CallComputed(f, calls[i])
    requires t < |calls| && CallComputed(f, c)
    ensures var next := calls[t := c]; forall i :: 0 <= i < |next| ==> CallComputed(f, next[i])
  {
  }

  lemma StepInv<K, V>(n: nat, f: K -> V, s: State<K, V>, e: Event<K>)
    requires Inv(n, f, s)
    ensures Inv(n, f, Step(n, f, s, e))
  {
    if e.t < |s.calls| {
      var c := s.calls[e.t];
      assert CallComputed(f, c);
      if e.Finish? && c.Computed? {
        PublishInv(n, f, s.ring, s.log, c.key, c.arc);
      }
      CallsKept(f, s.calls, e.t, Step(n, f, s, e).calls[e.t]);
    }
  }

  ghost predicate Initial<K, V>(s: State<K, V>) {
    s.ring == Ring(map[], []) && s.log == [] && forall t :: 0 <= t < |s.calls| ==> s.calls[t].Idle?
  }

  lemma {:induction false} RunInv<K, V>(n: nat, f: K -> V, s: State<K, V>, events: seq<Event<K>>)
    requires Inv(n, f, s)
    ensures Inv(n, f, Run(n, f, s, events))
    decreases |events|
  {
    if events != [] {
      StepInv(n, f, s, events[0]);
      RunInv(n, f, Step(n, f, s, events[0]), events[1..]);
    }
  }

  /** In every interleaving map and queue hold the same keys once each, never more than the slots
      allow; the queue is exactly the end of the insert log; and every returned value is the one
      the plain computation gives for its key. */
  lemma EveryRunCoherent<K, V>(n: nat, f: K -> V, s: State<K, V>, events: seq<Event<K>>)
    requires Initial(s)
    ensures
      var t := Run(n, f, s, events);
      && Coherent(n, t.ring, t.log)
      && |t.ring.entries| == |t.ring.order| <= Slots(n)
      && forall i :: 0 <= i < |t.calls| && t.calls[i].Returned? ==> t.calls[i].arc.value == f(t.calls[i].key)
  {
    RunInv(n, f, s, events);
    var t := Run(n, f, s, events);
    KeyCount(t.ring);
    assert forall i :: 0 <= i < |t.calls| ==> CallComputed(f, t.calls[i]);
  }

  // ---------------------------------------------------------------- residencies

  /** The event ends a call on `key`. */
  predicate Ends<K(==), V>(s: State<K, V>, e: Event<K>, key: K) {
    && e.t < |s.calls|
    && ((e.Start? && e.key == key && !s.calls[e.t].Missed? && !s.calls[e.t].Computed? && key in s.ring.entries)
        || (e.Finish? && s.calls[e.t].Computed? && s.calls[e.t].key == key))
  }

  /** `key` is cached in the state reached after every prefix of the events. */
  ghost predicate Resident<K, V>(n: nat, f: K -> V, s: State<K, V>, events: seq<Event<K>>, key: K)
    decreases |events|
  {
    key in s.ring.entries && (events != [] ==> Resident(n, f, Step(n, f, s, events[0]), events[1..], key))
  }

  lemma StepKeepsArc<K, V>(n: nat, f: K -> V, s: State<K, V>, e: Event<K>, key: K)
    requires key in s.ring.entries && key in Step(n, f, s, e).ring.entries
    ensures Step(n, f, s, e).ring.entries[key] == s.ring.entries[key]
    ensures Ends(s, e, key) ==> Step(n, f, s, e).calls[e.t] == Returned(key, s.ring.entries[key])
  {
  }

  /** Calls that end while one residency of a key lasts all return the same shared object. */
  lemma {:induction false} OneObjectPerResidency<K, V>(n: nat, f: K -> V, s: State<K, V>, events: seq<Event<K>>, key: K,
      i: nat)
    requires Resident(n, f, s, events, key) && i < |events|
    requires Ends(Run(n, f, s, events[..i]), events[i], key)
    ensures Run(n, f, s, events[..i + 1]).calls[events[i].t] == Returned(key, s.ring.entries[key])
    decreases |events|
  {
    var s1 := Step(n, f, s, events[0]);
    StepKeepsArc(n, f, s, events[0], key);
    if i == 0 {
      assert events[..1][1..] == [];
    } else {
      assert events[..i][1..] == events[1..][..i - 1] && events[..i + 1][1..] == events[1..][..i];
      OneObjectPerResidency(n, f, s1, events[1..], key, i - 1);
    }
  }

  /** The call whose insertion starts a residency returns the object it made resident. */
  lemma InsertionReturnsItsObject<K, V>(n: nat, f: K -> V, s: State<K, V>, e: Event<K>, key: K)
    requires Ends(s, e, key)
    ensures key in Step(n, f, s, e).ring.entries
    ensures Step(n, f, s, e).calls[e.t] == Returned(key, Step(n, f, s, e).ring.entries[key])
  {
  }
}
