/**
 * The label and namespace indexes: pods by key and address, patched by taking a pod's previous
 * view out and putting its current view in.
 */
module Indexes {
  import opened Orders

  /** A Go map that may be nil; reflect.DeepEqual tells nil from empty. */
  datatype GoMap<K, V> = NilMap | MapOf(entries: map<K, V>) {
    function Entries(): map<K, V> { if NilMap? then map[] else entries }
  }

  datatype PodInfo = PodInfo(ip: string, name: string, ns: string, labels: GoMap<string, string>)

  type PodInfos = map<string, PodInfo>

  type Index<K> = map<K, PodInfos>

  datatype Change<V> = Change(previous: V, current: V)

  function Get<K>(m: map<K, PodInfos>, k: K): PodInfos {
    if k in m then m[k] else map[]
  }

  // ---------- merging and unmerging ----------

  /** Adds a view: a key of the view enters the index even when its pods were there already. */
  function Merged<K>(idx: Index<K>, view: map<K, PodInfos>): Index<K> {
    map k | k in idx.Keys + view.Keys :: Get(idx, k) + Get(view, k)
  }

  /** Takes a view's addresses out; keys stay, possibly with no pod left. */
  function Unmerged<K>(idx: Index<K>, view: map<K, PodInfos>): Index<K> {
    map k | k in idx :: idx[k] - Get(view, k).Keys
  }

  function Patched<K>(idx: Index<K>, change: Change<map<K, PodInfos>>): Index<K> {
    Merged(Unmerged(idx, change.previous), change.current)
  }

  /** All pending changes, applied in some order. */
  function Flush<O, K>(idx: Index<K>, order: seq<O>, changes: map<O, Change<map<K, PodInfos>>>): Index<K>
    requires forall o :: o in order ==> o in changes
  {
    if order == [] then idx else
      var n := |order| - 1;
      assert order[n] in order;
      assert forall o :: o in order[..n] ==> o in order;
      Patched(Flush(idx, order[..n], changes), changes[order[n]])
  }

  // ---------- what an index should hold ----------

  /** Who contributes what: each owner's view. */
  type Snapshot<O, K> = map<O, map<K, PodInfos>>

  function View<O, K>(snap: Snapshot<O, K>, o: O): map<K, PodInfos> {
    if o in snap then snap[o] else map[]
  }

  ghost predicate Has<O, K>(snap: Snapshot<O, K>, o: O, k: K, ip: string) {
    ip in Get(View(snap, o), k)
  }

  /** Every address under a key is there because of an owner, with that owner's pod. */
  ghost predicate Agrees<O(!new), K(!new)>(idx: Index<K>, snap: Snapshot<O, K>) {
    && (forall k, ip :: ip in Get(idx, k) ==> exists o :: Has(snap, o, k, ip))
    && (forall o, k, ip :: Has(snap, o, k, ip) ==> ip in Get(idx, k) && Get(idx, k)[ip] == View(snap, o)[k][ip])
  }

  /** No address stands under one key for two owners. */
  ghost predicate Unique<O(!new), K(!new)>(snap: Snapshot<O, K>) {
    forall o, o', k, ip :: Has(snap, o, k, ip) && Has(snap, o', k, ip) ==> o == o'
  }

  /** The changes lead from one snapshot to the other. */
  ghost predicate Leads<O(!new), K(!new)>(changes: map<O, Change<map<K, PodInfos>>>, before: Snapshot<O, K>,
                          after: Snapshot<O, K>) {
    forall o ::
      if o in changes then changes[o] == Change(View(before, o), View(after, o)) else View(before, o) == View(after, o)
  }

  /** No address leaves one changed owner and reaches another under the same key. */
  ghost predicate NoMoves<O(!new), K(!new)>(changes: map<O, Change<map<K, PodInfos>>>) {
    forall o, o', k, ip :: o in changes && o' in changes && o != o'
      ==> !(ip in Get(changes[o].previous, k) && ip in Get(changes[o'].current, k))
  }

  lemma PatchedGet<K>(idx: Index<K>, change: Change<map<K, PodInfos>>, k: K)
    ensures Get(Patched(idx, change), k) == (Get(idx, k) - Get(change.previous, k).Keys) + Get(change.current, k)
  {}

  lemma PatchAgrees<O(!new), K(!new)>(idx: Index<K>, snap: Snapshot<O, K>, o: O, change: Change<map<K, PodInfos>>)
    requires Agrees(idx, snap) && Unique(snap) && Unique(snap[o := change.current])
    requires View(snap, o) == change.previous
    ensures Agrees(Patched(idx, change), snap[o := change.current])
  {
    var next, idx' := snap[o := change.current], Patched(idx, change);
    forall k, ip | ip in Get(idx', k) ensures exists p :: Has(next, p, k, ip) {
      PatchedGet(idx, change, k);
      if ip in Get(change.current, k) {
        assert Has(next, o, k, ip);
      } else {
        var p :| Has(snap, p, k, ip);
        assert Has(next, p, k, ip);
      }
    }
    forall p, k, ip | Has(next, p, k, ip)
      ensures ip in Get(idx', k) && Get(idx', k)[ip] == View(next, p)[k][ip]
    {
      PatchedGet(idx, change, k);
      if p != o {
        assert Has(snap, p, k, ip);
        assert !Has(snap, o, k, ip) && !Has(next, o, k, ip);
      }
    }
  }

  /** The snapshot in which the owners in `done` have changed already. */
  ghost function Mixed<O(!new), K(!new)>(before: Snapshot<O, K>, after: Snapshot<O, K>, done: set<O>): Snapshot<O, K> {
    map o | o in before.Keys + after.Keys + done :: if o in done then View(after, o) else View(before, o)
  }

  lemma MixedUnique<O(!new), K(!new)>(changes: map<O, Change<map<K, PodInfos>>>, before: Snapshot<O, K>,
                      after: Snapshot<O, K>, done: set<O>)
    requires Leads(changes, before, after) && Unique(before) && Unique(after) && NoMoves(changes)
             && done <= changes.Keys
    ensures Unique(Mixed(before, after, done))
  {
    var mixed := Mixed(before, after, done);
    forall o, o', k, ip | Has(mixed, o, k, ip) && Has(mixed, o', k, ip) ensures o == o' {
      MixedApart(changes, before, after, done, o, o', k, ip);
      MixedApart(changes, before, after, done, o', o, k, ip);
    }
  }

  lemma MixedApart<O(!new), K(!new)>(changes: map<O, Change<map<K, PodInfos>>>, before: Snapshot<O, K>,
                     after: Snapshot<O, K>, done: set<O>, o: O, o': O, k: K, ip: string)
    requires Leads(changes, before, after) && Unique(before) && Unique(after) && NoMoves(changes)
             && done <= changes.Keys
    ensures o != o' && (o !in done || o' in done)
            ==> !(Has(Mixed(before, after, done), o, k, ip) && Has(Mixed(before, after, done), o', k, ip))
  {
    assert View(Mixed(before, after, done), o) == if o in done then View(after, o) else View(before, o);
    assert View(Mixed(before, after, done), o') == if o' in done then View(after, o') else View(before, o');
    if o != o' {
      assert !(Has(after, o, k, ip) && Has(after, o', k, ip));
      assert !(Has(before, o, k, ip) && Has(before, o', k, ip));
      if o !in done && o' in done && o in changes {
        assert !(ip in Get(changes[o].previous, k) && ip in Get(changes[o'].current, k));
      }
    }
  }

  ghost function Done<O>(order: seq<O>): set<O> {
    set o | o in order
  }

  lemma SplitLast<O(!new)>(order: seq<O>)
    requires order != [] && forall i, j :: 0 <= i < j < |order| ==> order[i] != order[j]
    ensures var o, rest := order[|order| - 1], order[..|order| - 1];
            && o in order && (forall p :: p in rest ==> p in order)
            && Done(order) == Done(rest) + {o} && o !in Done(rest)
  {
    assert order == order[..|order| - 1] + [order[|order| - 1]];
  }

  lemma FlushLast<O(!new), K(!new)>(idx: Index<K>, order: seq<O>, changes: map<O, Change<map<K, PodInfos>>>)
    requires order != [] && forall o :: o in order ==> o in changes
    ensures var o, rest := order[|order| - 1], order[..|order| - 1];
            && o in changes && (forall p :: p in rest ==> p in changes)
            && Flush(idx, order, changes) == Patched(Flush(idx, rest, changes), changes[o])
  {
    var o, rest := order[|order| - 1], order[..|order| - 1];
    assert o in order;
    assert forall p :: p in rest ==> p in order;
  }

  lemma {:induction false} FlushMixed<O(!new),
      K(!new)>(idx: Index<K>, order: seq<O>, changes: map<O, Change<map<K, PodInfos>>>,
                                                        before: Snapshot<O, K>, after: Snapshot<O, K>)
    requires Agrees(idx, before) && Unique(before) && Unique(after) && Leads(changes, before, after) && NoMoves(changes)
    requires forall i, j :: 0 <= i < j < |order| ==> order[i] != order[j]
    requires forall o :: o in order ==> o in changes
    ensures Agrees(Flush(idx, order, changes), Mixed(before, after, Done(order)))
  {
    if order == [] {
      assert Done(order) == {};
      SameViews(idx, before, Mixed(before, after, {}));
    } else {
      var o, rest := order[|order| - 1], order[..|order| - 1];
      SplitLast(order);
      FlushLast(idx, order, changes);
      FlushMixed(idx, rest, changes, before, after);
      MixedStep(Flush(idx, rest, changes), changes, before, after, Done(rest), o);
    }
  }

  lemma MixedStep<O(!new), K(!new)>(idx: Index<K>, changes: map<O, Change<map<K, PodInfos>>>, before: Snapshot<O, K>,
                    after: Snapshot<O, K>, done: set<O>, o: O)
    requires Unique(before) && Unique(after) && Leads(changes, before, after) && NoMoves(changes)
    requires done <= changes.Keys && o in changes && o !in done
    requires Agrees(idx, Mixed(before, after, done))
    ensures Agrees(Patched(idx, changes[o]), Mixed(before, after, done + {o}))
  {
    MixedUnique(changes, before, after, done);
    MixedUnique(changes, before, after, done + {o});
    var mixed, target := Mixed(before, after, done), Mixed(before, after, done + {o});
    var next := mixed[o := changes[o].current];
    assert changes[o] == Change(View(before, o), View(after, o));
    forall p ensures View(next, p) == View(target, p) {}
    UniqueSameViews(target, next);
    assert View(mixed, o) == changes[o].previous;
    PatchAgrees(idx, mixed, o, changes[o]);
    SameViews(Patched(idx, changes[o]), next, target);
  }

  lemma SameViews<O(!new), K(!new)>(idx: Index<K>, a: Snapshot<O, K>, b: Snapshot<O, K>)
    requires Agrees(idx, a) && forall o :: View(a, o) == View(b, o)
    ensures Agrees(idx, b)
  {
    forall k, ip | ip in Get(idx, k) ensures exists o :: Has(b, o, k, ip) {
      var o :| Has(a, o, k, ip);
      assert Has(b, o, k, ip);
    }
    forall o, k, ip | Has(b, o, k, ip) ensures ip in Get(idx, k) && Get(idx, k)[ip] == View(b, o)[k][ip] {
      assert Has(a, o, k, ip);
    }
  }

  lemma UniqueSameViews<O(!new), K(!new)>(a: Snapshot<O, K>, b: Snapshot<O, K>)
    requires Unique(a) && forall o :: View(a, o) == View(b, o)
    ensures Unique(b)
  {
    forall o, o', k, ip | Has(b, o, k, ip) && Has(b, o', k, ip) ensures o == o' {
      assert Has(a, o, k, ip) && Has(a, o', k, ip);
    }
  }

  lemma FlushAgrees<O(!new), K(!new)>(idx: Index<K>, order: seq<O>, changes: map<O, Change<map<K, PodInfos>>>,
                      before: Snapshot<O, K>, after: Snapshot<O, K>)
    requires Agrees(idx, before) && Unique(before) && Unique(after) && Leads(changes, before, after) && NoMoves(changes)
    requires Enumerates(order, changes.Keys)
    ensures Agrees(Flush(idx, order, changes), after)
  {
    FlushMixed(idx, order, changes, before, after);
    SameViews(Flush(idx, order, changes), Mixed(before, after, Done(order)), after);
  }

  /** When an address moves, the order that puts it in before taking it out loses it. */
  lemma MoveLosesAddress<O(!new), K(!new)>(idx: Index<K>, changes: map<O, Change<map<K, PodInfos>>>,
                           before: Snapshot<O, K>, after: Snapshot<O, K>, o: O, o': O, k: K, ip: string)
    returns (order: seq<O>)
    requires Unique(after) && Leads(changes, before, after)
    requires o in changes && o' in changes && o != o' && ip in Get(changes[o].previous, k)
             && ip in Get(changes[o'].current, k)
    ensures Enumerates(order, changes.Keys) && !Agrees(Flush(idx, order, changes), after)
  {
    var rest := AnyOrder(changes.Keys - {o});
    EnumeratesMore(rest, changes.Keys - {o}, o);
    order := rest + [o];
    assert changes.Keys - {o} + {o} == changes.Keys;
    assert order[..|order| - 1] == rest;
    var idx' := Flush(idx, rest, changes);
    PatchedGet(idx', changes[o], k);
    assert Has(after, o', k, ip);
    assert !Has(after, o, k, ip);
    assert ip !in Get(Flush(idx, order, changes), k);
  }

  /**
   * Batch rebuild. From an index that agrees with the old snapshot, the pending changes lead to
   * one that agrees with the new snapshot in every iteration order, exactly when no address moves
   * from one changed owner to another under the same key.
   */
  lemma BatchRebuild<O(!new), K(!new)>(idx: Index<K>, changes: map<O, Change<map<K, PodInfos>>>,
                       before: Snapshot<O, K>, after: Snapshot<O, K>)
    requires Agrees(idx, before) && Unique(before) && Unique(after) && Leads(changes, before, after)
    ensures (forall order :: Enumerates(order, changes.Keys) ==> Agrees(Flush(idx, order, changes), after))
            <==> NoMoves(changes)
  {
    if NoMoves(changes) {
      forall order | Enumerates(order, changes.Keys) ensures Agrees(Flush(idx, order, changes), after) {
        FlushAgrees(idx, order, changes, before, after);
      }
    } else {
      var o, o', k, ip :| o in changes && o' in changes && o != o'
        && ip in Get(changes[o].previous, k) && ip in Get(changes[o'].current, k);
      var order := MoveLosesAddress(idx, changes, before, after, o, o', k, ip);
    }
  }

  // ---------- keys and untouched entries ----------

  ghost predicate Touches<O(!new), K>(changes: map<O, Change<map<K, PodInfos>>>, k: K) {
    exists o :: o in changes && (k in changes[o].previous || k in changes[o].current)
  }

  ghost predicate Enters<O(!new), K>(changes: map<O, Change<map<K, PodInfos>>>, order: seq<O>, k: K) {
    exists o :: o in order && o in changes && k in changes[o].current
  }

  /** Keys are never lost: the keys of an index are the old ones and those of the current views. */
  lemma {:induction false} FlushKeys<O(!new),
      K(!new)>(idx: Index<K>, order: seq<O>, changes: map<O, Change<map<K, PodInfos>>>, k: K)
    requires forall o :: o in order ==> o in changes
    ensures k in Flush(idx, order, changes) <==> k in idx || Enters(changes, order, k)
  {
    if order != [] {
      var n := |order| - 1;
      assert order == order[..n] + [order[n]];
      assert forall o :: o in order <==> o in order[..n] || o == order[n];
      FlushKeys(idx, order[..n], changes, k);
    }
  }

  lemma {:induction false} FlushUntouched<O(!new),
      K(!new)>(idx: Index<K>, order: seq<O>, changes: map<O, Change<map<K, PodInfos>>>, k: K)
    requires forall o :: o in order ==> o in changes
    requires !Touches(changes, k)
    ensures k in Flush(idx, order, changes) <==> k in idx
    ensures Get(Flush(idx, order, changes), k) == Get(idx, k)
  {
    if order != [] {
      var n := |order| - 1;
      var o, rest := order[n], order[..n];
      assert o in order;
      assert forall p :: p in rest ==> p in order;
      FlushUntouched(idx, rest, changes, k);
      PatchedUntouched(Flush(idx, rest, changes), changes[o], k);
    }
  }

  lemma PatchedUntouched<K>(idx: Index<K>, change: Change<map<K, PodInfos>>, k: K)
    requires k !in change.previous && k !in change.current
    ensures k in Patched(idx, change) <==> k in idx
    ensures Get(Patched(idx, change), k) == Get(idx, k)
  {
    PatchedGet(idx, change, k);
  }

  /** Whatever the order, the flushed index is the same map. */
  lemma FlushOrderFree<O(!new), K(!new)>(idx: Index<K>, order: seq<O>, order': seq<O>,
                         changes: map<O, Change<map<K, PodInfos>>>, before: Snapshot<O, K>, after: Snapshot<O, K>)
    requires Agrees(idx, before) && Unique(before) && Unique(after) && Leads(changes, before, after) && NoMoves(changes)
    requires Enumerates(order, changes.Keys) && Enumerates(order', changes.Keys)
    ensures Flush(idx, order, changes) == Flush(idx, order', changes)
  {
    FlushAgrees(idx, order, changes, before, after);
    FlushAgrees(idx, order', changes, before, after);
    var a, b := Flush(idx, order, changes), Flush(idx, order', changes);
    forall k ensures k in a <==> k in b {
      FlushKeys(idx, order, changes, k);
      FlushKeys(idx, order', changes, k);
      EntersOrderFree(changes, order, order', k);
    }
    forall k ensures Get(a, k) == Get(b, k) {
      AgreeingGet(a, b, after, k);
    }
    SameIndexes(a, b);
  }

  lemma SameIndexes<K(!new)>(a: Index<K>, b: Index<K>)
    requires forall k :: k in a <==> k in b
    requires forall k :: Get(a, k) == Get(b, k)
    ensures a == b
  {
    assert forall k :: k in a ==> a[k] == Get(a, k) == Get(b, k) == b[k];
  }

  lemma EntersOrderFree<O(!new), K(!new)>(changes: map<O, Change<map<K, PodInfos>>>, order: seq<O>, order': seq<O>,
                          k: K)
    requires Enumerates(order, changes.Keys) && Enumerates(order', changes.Keys)
    ensures Enters(changes, order, k) <==> Enters(changes, order', k)
  {}

  lemma AgreeingGet<O(!new), K(!new)>(a: Index<K>, b: Index<K>, snap: Snapshot<O, K>, k: K)
    requires Agrees(a, snap) && Agrees(b, snap)
    ensures Get(a, k) == Get(b, k)
  {
    forall ip ensures ip in Get(a, k) <==> ip in Get(b, k) {
      if ip in Get(a, k) {
        var o :| Has(snap, o, k, ip);
      }
      if ip in Get(b, k) {
        var o :| Has(snap, o, k, ip);
      }
    }
    forall ip | ip in Get(a, k) ensures Get(a, k)[ip] == Get(b, k)[ip] {
      var o :| Has(snap, o, k, ip);
    }
  }
}
