/** Pending changes: for each key the view last flushed and the present one, kept only while they differ. */
module Coalescing {
  import opened Options
  import opened Indexes

  /** One update of a change map: the first previous view of a key is kept, the current one replaced. */
  function Updated<K, V(==)>(items: map<K, Change<V>>, key: K, previous: V, current: V): map<K, Change<V>> {
    var first := if key in items then items[key].previous else previous;
    if first == current then items - {key} else items[key := Change(first, current)]
  }

  function Find<K, O>(store: map<K, O>, key: K): Option<O> {
    if key in store then Some(store[key]) else None
  }

  function Stored<K, O>(store: map<K, O>, key: K, current: Option<O>): map<K, O> {
    if current.None? then store - {key} else store[key := current.value]
  }

  /**
   * A key is pending exactly when its built view differs from the one last flushed, and then its
   * change leads from the flushed view to the present one.
   */
  ghost predicate Coalesced<K(!new), O(!new),
      V(!new)>(items: map<K, Change<V>>, flushed: map<K, O>, store: map<K, O>, build: Option<O> -> V) {
    forall k :: if build(Find(flushed, k)) == build(Find(store, k)) then k !in items
                else k in items && items[k] == Change(build(Find(flushed, k)), build(Find(store, k)))
  }

  lemma UpdateCoalesces<K(!new), O(!new), V(!new)>(items: map<K, Change<V>>, flushed: map<K, O>, store: map<K, O>,
                          build: Option<O> -> V, key: K, current: Option<O>)
    requires Coalesced(items, flushed, store, build)
    ensures Coalesced(Updated(items, key, build(Find(store, key)), build(current)), flushed,
                Stored(store, key, current), build)
  {
    var store' := Stored(store, key, current);
    assert Find(store', key) == current;
    forall k | k != key ensures Find(store', k) == Find(store, k) {}
  }

  // ---------- runs ----------

  datatype Event<K, O> = Event(key: K, current: Option<O>)

  ghost function StoreAfter<K, O>(store: map<K, O>, events: seq<Event<K, O>>): map<K, O> {
    if events == [] then store else
      var n := |events| - 1;
      Stored(StoreAfter(store, events[..n]), events[n].key, events[n].current)
  }

  /** The change map after a run of events in which each reports what the store held before it. */
  ghost function ItemsAfter<K, O, V>(items: map<K, Change<V>>, store: map<K, O>, events: seq<Event<K, O>>,
                                     build: Option<O> -> V): map<K, Change<V>> {
    if events == [] then items else
      var n := |events| - 1;
      var before := StoreAfter(store, events[..n]);
      Updated(ItemsAfter(items, store, events[..n], build), events[n].key, build(Find(before, events[n].key)),
          build(events[n].current))
  }

  /** Conservation: over any run, what was flushed and what is pending together give the store. */
  lemma {:induction false} Conservation<K(!new), O(!new),
      V(!new)>(items: map<K, Change<V>>, flushed: map<K, O>, store: map<K, O>,
                                                                  events: seq<Event<K, O>>, build: Option<O> -> V)
    requires Coalesced(items, flushed, store, build)
    ensures Coalesced(ItemsAfter(items, store, events, build), flushed, StoreAfter(store, events), build)
  {
    if events != [] {
      var n := |events| - 1;
      Conservation(items, flushed, store, events[..n], build);
      UpdateCoalesces(ItemsAfter(items, store, events[..n], build), flushed, StoreAfter(store, events[..n]), build,
          events[n].key, events[n].current);
    }
  }

  /** Nothing is pending exactly when every view is the flushed one. */
  lemma NothingPending<K(!new), O(!new), V(!new)>(items: map<K, Change<V>>, flushed: map<K, O>, store: map<K, O>,
                         build: Option<O> -> V)
    requires Coalesced(items, flushed, store, build)
    ensures items == map[] <==> forall k :: build(Find(flushed, k)) == build(Find(store, k))
  {
    if items == map[] {
      assert forall k :: k !in items;
    } else {
      var k :| k in items;
    }
  }
}
