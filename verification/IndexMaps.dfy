/** The maps the controller keeps, with the loops that patch them in place. */
module IndexMaps {
  import opened Options
  import opened Orders
  import opened Policies
  import opened Indexes
  import opened Joins
  import opened Coalescing
  import opened Pods
  import opened Syncs

  /** Any key of a set of keys still to be visited. */
  method Pick<K(!new)>(keys: set<K>) returns (k: K)
    requires keys != {}
    ensures k in keys
  {
    k :| k in keys;
  }

  method PutPods(pods: PodInfos, more: PodInfos) returns (r: PodInfos)
    ensures r == pods + more
  {
    r := pods;
    var rest := more.Keys;
    while rest != {}
      invariant rest <= more.Keys
      invariant r == pods + (more - rest)
      decreases rest
    {
      var ip := Pick(rest);
      r := r[ip := more[ip]];
      rest := rest - {ip};
    }
  }

  method DeletePods(pods: PodInfos, gone: PodInfos) returns (r: PodInfos)
    ensures r == pods - gone.Keys
  {
    r := pods;
    var rest := gone.Keys;
    while rest != {}
      invariant rest <= gone.Keys
      invariant r == pods - (gone.Keys - rest)
      decreases rest
    {
      var ip := Pick(rest);
      if ip in r {
        r := r - {ip};
      }
      rest := rest - {ip};
    }
  }

  lemma PutNothing(pods: PodInfos)
    ensures pods + map[] == pods && pods - {} == pods
  {}

  lemma MergedNothing<K>(idx: Index<K>)
    ensures Merged(idx, map[]) == idx && Unmerged(idx, map[]) == idx
  {
    var none: Index<K> := map[];
    assert Merged(idx, none).Keys == idx.Keys && Unmerged(idx, none).Keys == idx.Keys;
    forall k | k in idx ensures Merged(idx, none)[k] == idx[k] && Unmerged(idx, none)[k] == idx[k] {
      PutNothing(idx[k]);
    }
  }

  lemma MergedStep<K>(idx: Index<K>, other: Index<K>, rest: set<K>, k: K, now: Index<K>)
    requires k in rest && rest <= other.Keys && now == Merged(idx, other - rest)
    ensures now[k := Get(now, k) + other[k]] == Merged(idx, other - (rest - {k}))
  {
    var next, target := now[k := Get(now, k) + other[k]], Merged(idx, other - (rest - {k}));
    assert (other - (rest - {k})).Keys == (other - rest).Keys + {k};
    assert next.Keys == target.Keys;
    PutNothing(Get(idx, k));
    forall x | x in next ensures next[x] == target[x] {
      if x == k {
        assert Get(now, k) == Get(idx, k);
      } else {
        assert Get(other - (rest - {k}), x) == Get(other - rest, x);
      }
    }
  }

  lemma UnmergedStep<K>(idx: Index<K>, other: Index<K>, rest: set<K>, k: K, now: Index<K>)
    requires k in rest && rest <= other.Keys && now == Unmerged(idx, other - rest)
    ensures (if k in now then now[k := now[k] - other[k].Keys] else now) == Unmerged(idx, other - (rest - {k}))
  {
    var next := if k in now then now[k := now[k] - other[k].Keys] else now;
    var target := Unmerged(idx, other - (rest - {k}));
    assert (other - (rest - {k})).Keys == (other - rest).Keys + {k};
    assert next.Keys == target.Keys;
    forall x | x in next ensures next[x] == target[x] {
      if x == k {
        assert now[k] == idx[k];
      }
    }
  }

  /** PodMatchLabelMap, NamespacePodMap and NamespaceMatchLabelMap: pods by address under each key. */
  class PodIndex<K(!new, ==)> {
    var entries: Index<K>

    constructor ()
      ensures entries == map[]
    {
      entries := map[];
    }

    method Merge(other: Index<K>)
      modifies this
      ensures entries == Merged(old(entries), other)
    {
      var rest := other.Keys;
      assert other - rest == map[];
      MergedNothing(entries);
      while rest != {}
        invariant rest <= other.Keys
        invariant entries == Merged(old(entries), other - rest)
        decreases rest
      {
        var k := Pick(rest);
        MergedStep(old(entries), other, rest, k, entries);
        MergeKey(k, other[k]);
        rest := rest - {k};
      }
      assert other - rest == other;
    }

    method MergeKey(k: K, infoMap: PodInfos)
      modifies this
      ensures entries == old(entries)[k := Get(old(entries), k) + infoMap]
    {
      if k !in entries {
        var tempInfoMap := PutPods(map[], infoMap);
        entries := entries[k := tempInfoMap];
      } else {
        var oldInfoMap := PutPods(entries[k], infoMap);
        entries := entries[k := oldInfoMap];
      }
    }

    method Unmerge(other: Index<K>)
      modifies this
      ensures entries == Unmerged(old(entries), other)
    {
      var rest := other.Keys;
      assert other - rest == map[];
      MergedNothing(entries);
      while rest != {}
        invariant rest <= other.Keys
        invariant entries == Unmerged(old(entries), other - rest)
        decreases rest
      {
        var k := Pick(rest);
        UnmergedStep(old(entries), other, rest, k, entries);
        UnmergeKey(k, other[k]);
        rest := rest - {k};
      }
      assert other - rest == other;
    }

    method UnmergeKey(k: K, infoMap: PodInfos)
      modifies this
      ensures entries == if k in old(entries) then old(entries)[k := old(entries)[k] - infoMap.Keys] else old(entries)
    {
      if k in entries {
        var oldInfoMap := DeletePods(entries[k], infoMap);
        entries := entries[k := oldInfoMap];
      }
    }
  }

  // ---------- pod labels and namespaces ----------

  /** One more change of a batch applied, in whatever order. */
  lemma FlushMore<O(!new), K(!new)>(idx: Index<K>, order: seq<O>, o: O, changes: map<O, Change<Index<K>>>)
    requires (forall p :: p in order ==> p in changes) && o in changes
    ensures forall p :: p in order + [o] ==> p in changes
    ensures Flush(idx, order + [o], changes) == Patched(Flush(idx, order, changes), changes[o])
  {
    assert (order + [o])[..|order|] == order;
  }

  method UpdatePodMatchLabelMap(podMatchLabelMap: PodIndex<NsLabel>, changes: PodChangeMap)
                                returns (ghost order: seq<Key>)
    modifies podMatchLabelMap
    ensures Enumerates(order, changes.podItems.Keys)
    ensures podMatchLabelMap.entries == Flush(old(podMatchLabelMap.entries), order, Opened(changes.podItems))
  {
    var items := changes.podItems;
    var rest := items.Keys;
    order := [];
    assert Opened(items).Keys == items.Keys;
    while rest != {}
      invariant rest <= items.Keys && Enumerates(order, items.Keys - rest)
      invariant podMatchLabelMap.entries == Flush(old(podMatchLabelMap.entries), order, Opened(items))
      decreases rest
    {
      var key := Pick(rest);
      FlushMore(old(podMatchLabelMap.entries), order, key, Opened(items));
      EnumeratesMore(order, items.Keys - rest, key);
      assert items.Keys - (rest - {key}) == items.Keys - rest + {key};
      podMatchLabelMap.Unmerge(items[key].previous.Entries());
      podMatchLabelMap.Merge(items[key].current.Entries());
      rest := rest - {key};
      order := order + [key];
    }
    assert items.Keys - rest == items.Keys;
  }

  method UpdateNamespacePodMap(namespacePodMap: PodIndex<string>, changes: PodChangeMap) returns (ghost order: seq<Key>)
    modifies namespacePodMap
    ensures Enumerates(order, changes.namespacePodItems.Keys)
    ensures namespacePodMap.entries == Flush(old(namespacePodMap.entries), order, Opened(changes.namespacePodItems))
  {
    var items := changes.namespacePodItems;
    var rest := items.Keys;
    order := [];
    assert Opened(items).Keys == items.Keys;
    while rest != {}
      invariant rest <= items.Keys && Enumerates(order, items.Keys - rest)
      invariant namespacePodMap.entries == Flush(old(namespacePodMap.entries), order, Opened(items))
      decreases rest
    {
      var key := Pick(rest);
      FlushMore(old(namespacePodMap.entries), order, key, Opened(items));
      EnumeratesMore(order, items.Keys - rest, key);
      assert items.Keys - (rest - {key}) == items.Keys - rest + {key};
      namespacePodMap.Unmerge(items[key].previous.Entries());
      namespacePodMap.Merge(items[key].current.Entries());
      rest := rest - {key};
      order := order + [key];
    }
    assert items.Keys - rest == items.Keys;
  }

  // ---------- namespace labels ----------

  lemma PairsOfLabels(labels: map<string, string>, rest: set<string>, k: string)
    requires k in rest && rest <= labels.Keys
    ensures Pairs(labels - (rest - {k})) == Pairs(labels - rest) + {Label(k, labels[k])}
  {
    var less, more := labels - rest, labels - (rest - {k});
    assert more.Keys == less.Keys + {k};
    forall pair ensures pair in Pairs(more) <==> pair in Pairs(less) || pair == Label(k, labels[k]) {
      assert pair in Pairs(more) <==> pair.key in more && pair.value == more[pair.key];
      assert pair in Pairs(less) <==> pair.key in less && pair.value == less[pair.key];
    }
  }

  /** Some pods under each label of a namespace. */
  function SpreadOver(pods: PodInfos, labels: map<string, string>): Index<Label> {
    map pair | pair in Pairs(labels) :: pods
  }

  lemma SpreadStep(pods: PodInfos, labels: map<string, string>, rest: set<string>, k: string)
    requires k in rest && rest <= labels.Keys
    ensures var pair := Label(k, labels[k]);
            && SpreadOver(pods, labels - (rest - {k})) == SpreadOver(pods, labels - rest)[pair := pods]
            && pair !in SpreadOver(pods, labels - rest)
  {
    PairsOfLabels(labels, rest, k);
    var pair := Label(k, labels[k]);
    assert pair !in Pairs(labels - rest);
    var a, b := SpreadOver(pods, labels - (rest - {k})), SpreadOver(pods, labels - rest)[pair := pods];
    assert a.Keys == b.Keys;
  }

  lemma MergedOne<K>(idx: Index<K>, view: Index<K>, k: K, pods: PodInfos)
    requires k !in view
    ensures Merged(idx, view[k := pods]) == Merged(idx, view)[k := Get(Merged(idx, view), k) + pods]
  {
    var a, b := Merged(idx, view[k := pods]), Merged(idx, view)[k := Get(Merged(idx, view), k) + pods];
    assert a.Keys == b.Keys;
    PutNothing(Get(idx, k));
    assert Get(Merged(idx, view), k) == Get(idx, k);
  }

  lemma UnmergedOne<K>(idx: Index<K>, view: Index<K>, k: K, pods: PodInfos)
    requires k !in view
    ensures var now := Unmerged(idx, view);
            Unmerged(idx, view[k := pods]) == if k in now then now[k := now[k] - pods.Keys] else now
  {
    var now := Unmerged(idx, view);
    var a, b := Unmerged(idx, view[k := pods]), if k in now then now[k := now[k] - pods.Keys] else now;
    assert a.Keys == b.Keys;
    if k in idx {
      PutNothing(idx[k]);
      assert now[k] == idx[k];
    }
  }

  /** mergePodInfoMap: the pods enter under each label of the namespace. */
  method MergeUnderLabels(namespaceMatchLabelMap: PodIndex<Label>, podInfoMap: PodInfos, info: NsInfo)
    modifies namespaceMatchLabelMap
    ensures namespaceMatchLabelMap.entries == Merged(old(namespaceMatchLabelMap.entries), Spread(podInfoMap, info))
  {
    var labels := info.labels.Entries();
    var rest := labels.Keys;
    ghost var before := namespaceMatchLabelMap.entries;
    assert SpreadOver(podInfoMap, labels - rest) == map[];
    MergedNothing(before);
    while rest != {}
      invariant rest <= labels.Keys
      invariant namespaceMatchLabelMap.entries == Merged(before, SpreadOver(podInfoMap, labels - rest))
      decreases rest
    {
      var k := Pick(rest);
      SpreadStep(podInfoMap, labels, rest, k);
      MergedOne(before, SpreadOver(podInfoMap, labels - rest), Label(k, labels[k]), podInfoMap);
      namespaceMatchLabelMap.MergeKey(Label(k, labels[k]), podInfoMap);
      rest := rest - {k};
    }
    assert labels - rest == labels;
  }

  /** unmergePodInfoMap. */
  method UnmergeUnderLabels(namespaceMatchLabelMap: PodIndex<Label>, podInfoMap: PodInfos, info: NsInfo)
    modifies namespaceMatchLabelMap
    ensures namespaceMatchLabelMap.entries == Unmerged(old(namespaceMatchLabelMap.entries), Spread(podInfoMap, info))
  {
    var labels := info.labels.Entries();
    var rest := labels.Keys;
    ghost var before := namespaceMatchLabelMap.entries;
    assert SpreadOver(podInfoMap, labels - rest) == map[];
    MergedNothing(before);
    while rest != {}
      invariant rest <= labels.Keys
      invariant namespaceMatchLabelMap.entries == Unmerged(before, SpreadOver(podInfoMap, labels - rest))
      decreases rest
    {
      var k := Pick(rest);
      SpreadStep(podInfoMap, labels, rest, k);
      UnmergedOne(before, SpreadOver(podInfoMap, labels - rest), Label(k, labels[k]), podInfoMap);
      namespaceMatchLabelMap.UnmergeKey(Label(k, labels[k]), podInfoMap);
      rest := rest - {k};
    }
    assert labels - rest == labels;
  }

  method MergeNamespace(namespaceMatchLabelMap: PodIndex<Label>, namespacePodMap: Index<string>, other: Option<NsInfo>)
    modifies namespaceMatchLabelMap
    ensures namespaceMatchLabelMap.entries == Merged(old(namespaceMatchLabelMap.entries),
                NsView(namespacePodMap, other))
  {
    MergedNothing(namespaceMatchLabelMap.entries);
    if |namespacePodMap| == 0 || other.None? || other.value.name !in namespacePodMap {
      return;
    }
    MergeUnderLabels(namespaceMatchLabelMap, namespacePodMap[other.value.name], other.value);
  }

  method UnmergeNamespace(namespaceMatchLabelMap: PodIndex<Label>, namespacePodMap: Index<string>,
                          other: Option<NsInfo>)
    modifies namespaceMatchLabelMap
    ensures namespaceMatchLabelMap.entries == Unmerged(old(namespaceMatchLabelMap.entries),
                NsView(namespacePodMap, other))
  {
    MergedNothing(namespaceMatchLabelMap.entries);
    if |namespacePodMap| == 0 || other.None? || other.value.name !in namespacePodMap {
      return;
    }
    UnmergeUnderLabels(namespaceMatchLabelMap, namespacePodMap[other.value.name], other.value);
  }

  method UpdateNamespaceMatchLabelMap(namespaceMatchLabelMap: PodIndex<Label>, namespacePodMap: PodIndex<string>,
                                      changes: NamespaceChangeMap) returns (ghost order: seq<string>)
    modifies namespaceMatchLabelMap
    ensures Enumerates(order, changes.items.Keys)
    ensures namespacePodMap.entries == old(namespacePodMap.entries)
    ensures namespaceMatchLabelMap.entries == Flush(old(namespaceMatchLabelMap.entries), order,
                NsChanges(changes.items, namespacePodMap.entries))
  {
    var items, npm := changes.items, namespacePodMap.entries;
    var rest := items.Keys;
    order := [];
    ghost var before, patches := namespaceMatchLabelMap.entries, NsChanges(items, npm);
    assert patches.Keys == items.Keys;
    while rest != {}
      invariant rest <= items.Keys && Enumerates(order, items.Keys - rest)
      invariant namespaceMatchLabelMap.entries == Flush(before, order, patches)
      decreases rest
    {
      var key := Pick(rest);
      FlushMore(before, order, key, patches);
      EnumeratesMore(order, items.Keys - rest, key);
      assert items.Keys - (rest - {key}) == items.Keys - rest + {key};
      UnmergeNamespace(namespaceMatchLabelMap, npm, items[key].previous);
      MergeNamespace(namespaceMatchLabelMap, npm, items[key].current);
      rest := rest - {key};
      order := order + [key];
    }
    assert items.Keys - rest == items.Keys;
  }

  // ---------- namespace labels, by pods ----------

  /** What the namespaces of a view put under their labels, as far as the view has been visited. */
  function ViewSpread(view: Index<string>, infos: Infos, ns: string): Index<Label>
    requires ns in view
  {
    if ns in infos && view[ns] != map[] then Spread(view[ns], infos[ns]) else map[]
  }

  method UnmergeByPod(namespaceMatchLabelMap: PodIndex<Label>, infos: Infos, view: Index<string>)
    requires Single(view)
    modifies namespaceMatchLabelMap
    ensures namespaceMatchLabelMap.entries == Unmerged(old(namespaceMatchLabelMap.entries), LabelView(view, infos))
  {
    ghost var before := namespaceMatchLabelMap.entries;
    MergedNothing(before);
    var rest := view.Keys;
    while rest != {}
      invariant rest <= view.Keys && (rest == {} || rest == view.Keys)
      invariant namespaceMatchLabelMap.entries == Unmerged(before, if rest == {} then LabelView(view, infos) else map[])
      decreases rest
    {
      var ns := Pick(rest);
      assert forall other :: other in view ==> other == ns;
      assert LabelView(view, infos) == ViewSpread(view, infos, ns);
      if ns in infos && |view[ns]| > 0 {
        UnmergeUnderLabels(namespaceMatchLabelMap, view[ns], infos[ns]);
      }
      rest := rest - {ns};
      assert rest == {};
    }
  }

  method MergeByPod(namespaceMatchLabelMap: PodIndex<Label>, infos: Infos, view: Index<string>)
    requires Single(view)
    modifies namespaceMatchLabelMap
    ensures namespaceMatchLabelMap.entries == Merged(old(namespaceMatchLabelMap.entries), LabelView(view, infos))
  {
    ghost var before := namespaceMatchLabelMap.entries;
    MergedNothing(before);
    var rest := view.Keys;
    while rest != {}
      invariant rest <= view.Keys && (rest == {} || rest == view.Keys)
      invariant namespaceMatchLabelMap.entries == Merged(before, if rest == {} then LabelView(view, infos) else map[])
      decreases rest
    {
      var ns := Pick(rest);
      assert forall other :: other in view ==> other == ns;
      assert LabelView(view, infos) == ViewSpread(view, infos, ns);
      if ns in infos && |view[ns]| > 0 {
        MergeUnderLabels(namespaceMatchLabelMap, view[ns], infos[ns]);
      }
      rest := rest - {ns};
      assert rest == {};
    }
  }

  /** A pod is in one namespace, before and after. */
  ghost predicate SingleItems(items: NamespaceItems) {
    forall k :: k in items ==> Single(items[k].previous.Entries()) && Single(items[k].current.Entries())
  }

  method UpdateNamespaceMatchLabelMapByPod(namespaceMatchLabelMap: PodIndex<Label>, infos: Infos, changes: PodChangeMap)
    returns (ghost order: seq<Key>)
    requires SingleItems(changes.namespaceLabelItems)
    modifies namespaceMatchLabelMap
    ensures Enumerates(order, changes.namespaceLabelItems.Keys)
    ensures namespaceMatchLabelMap.entries
         == Flush(old(namespaceMatchLabelMap.entries), order, LabelChanges(Opened(changes.namespaceLabelItems), infos))
  {
    var items := changes.namespaceLabelItems;
    var rest := items.Keys;
    order := [];
    ghost var before, patches := namespaceMatchLabelMap.entries, LabelChanges(Opened(items), infos);
    assert patches.Keys == items.Keys;
    while rest != {}
      invariant rest <= items.Keys && Enumerates(order, items.Keys - rest)
      invariant namespaceMatchLabelMap.entries == Flush(before, order, patches)
      decreases rest
    {
      var key := Pick(rest);
      FlushMore(before, order, key, patches);
      EnumeratesMore(order, items.Keys - rest, key);
      assert items.Keys - (rest - {key}) == items.Keys - rest + {key};
      UnmergeByPod(namespaceMatchLabelMap, infos, items[key].previous.Entries());
      MergeByPod(namespaceMatchLabelMap, infos, items[key].current.Entries());
      rest := rest - {key};
      order := order + [key];
    }
    assert items.Keys - rest == items.Keys;
  }

  // ---------- namespaces and policies by name ----------

  /** A keyed map after a batch: previous entries out, current entries in. */
  function Replaced<K, V>(m: map<K, V>, items: map<K, Change<Option<V>>>): map<K, V> {
    map k | k in m.Keys + items.Keys && (if k in items then items[k].current.Some?
        || (k in m && items[k].previous.None?) else k in m)
      :: if k in items && items[k].current.Some? then items[k].current.value else m[k]
  }

  /** With coalesced changes the map becomes the store. */
  lemma ReplacedIsStore<K(!new), V(!new)>(items: map<K, Change<Option<V>>>, flushed: map<K, V>, store: map<K, V>,
                          build: Option<V> -> Option<V>)
    requires Coalesced(items, flushed, store, build) && forall o :: build(o) == o
    ensures Replaced(flushed, items) == store
  {
    var r := Replaced(flushed, items);
    forall k ensures (k in r <==> k in store) && (k in store ==> r[k] == store[k]) {
      assert build(Find(flushed, k)) == Find(flushed, k) && build(Find(store, k)) == Find(store, k);
    }
    assert r.Keys == store.Keys;
  }

  lemma ReplacedStep<K(!new), V(!new)>(m: map<K, V>, items: map<K, Change<Option<V>>>, rest: set<K>, k: K,
                       now: map<K, V>)
    requires k in rest && rest <= items.Keys && now == Replaced(m, items - rest)
    ensures var out := if items[k].previous.Some? then now - {k} else now;
            (if items[k].current.Some? then out[k := items[k].current.value] else out)
                == Replaced(m, items - (rest - {k}))
  {
    assert (items - (rest - {k})).Keys == (items - rest).Keys + {k};
  }

  class NetworkPolicyMap {
    var entries: map<Key, Policy>

    constructor ()
      ensures entries == map[]
    {
      entries := map[];
    }

    /** The change map is emptied under the same lock. */
    method Update(changes: NetworkPolicyChangeMap)
      modifies this, changes
      ensures entries == Replaced(old(entries), old(changes.items)) && changes.items == map[]
    {
      var items := changes.items;
      var rest := items.Keys;
      assert items - rest == map[];
      while rest != {}
        invariant rest <= items.Keys
        invariant entries == Replaced(old(entries), items - rest)
        decreases rest
      {
        var key := Pick(rest);
        ReplacedStep(old(entries), items, rest, key, entries);
        if items[key].previous.Some? {
          entries := entries - {key};
        }
        if items[key].current.Some? {
          entries := entries[key := items[key].current.value];
        }
        rest := rest - {key};
      }
      assert items - rest == items;
      changes.items := map[];
    }
  }

  class NamespaceInfoMap {
    var entries: Infos

    constructor ()
      ensures entries == map[]
    {
      entries := map[];
    }

    /** Entries are kept under the name of the namespace, which is also the key of its changes. */
    method Update(changes: NamespaceChangeMap)
      requires OwnKeys(changes.items)
      modifies this
      ensures entries == Replaced(old(entries), changes.items)
    {
      var items := changes.items;
      var rest := items.Keys;
      assert items - rest == map[];
      while rest != {}
        invariant rest <= items.Keys
        invariant entries == Replaced(old(entries), items - rest)
        decreases rest
      {
        var key := Pick(rest);
        ReplacedStep(old(entries), items, rest, key, entries);
        if items[key].previous.Some? {
          entries := entries - {items[key].previous.value.name};
        }
        if items[key].current.Some? {
          entries := entries[items[key].current.value.name := items[key].current.value];
        }
        rest := rest - {key};
      }
      assert items - rest == items;
    }
  }

  ghost predicate OwnKeys(items: InfoItems) {
    forall k ::
      k in items
      ==> (items[k].previous.Some? ==> items[k].previous.value.name == k)
          && (items[k].current.Some? ==> items[k].current.value.name == k)
  }
}
