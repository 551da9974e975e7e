/**
 * Whole runs: cluster events and synchronisations in any interleaving. In every reachable state
 * the indexes agree with what was flushed, the tracked sets with the indexes, and the rules with
 * the flushed policies.
 */
module Cluster {
  import opened Options
  import opened Names
  import opened Naming
  import opened Netfilter
  import opened Orders
  import opened Policies
  import opened Indexes
  import opened Joins
  import opened Coalescing
  import opened Pods
  import opened PolicySpecs
  import opened Verdicts
  import opened Entries
  import opened Restoring
  import opened Reconciler
  import opened Syncs
  import opened RuleSync

  datatype Objects = Objects(policies: map<Key, Policy>, pods: map<Key, Pod>, namespaces: map<string, Namespace>)

  type PendingPolicies = map<Key, Change<Option<Policy>>>

  datatype Sys = Sys(
    store: Objects,          // what the cluster holds
    flushed: Objects,        // what has been applied to the controller's maps
    podItems: PodItems,
    nsItems: NamespaceItems,
    labelItems: NamespaceItems,
    infoItems: InfoItems,
    policyItems: PendingPolicies,
    infos: Infos,
    s: State,
    walk: seq<ListedPolicy>, // the walk the rules were made by
    order: seq<Key>,
    started: bool)           // the first synchronisation is over

  function Itself(p: Option<Policy>): Option<Policy> { p }

  function InfosOf(namespaces: map<string, Namespace>): Infos {
    if namespaces == map[] then map[]
    else map ns | ns in namespaces :: NsInfo(namespaces[ns].name, namespaces[ns].labels)
  }

  ghost predicate OwnNames(o: Objects) {
    && (forall ns :: ns in o.namespaces ==> o.namespaces[ns].name == ns)
    && (forall k :: k in o.policies ==> Key(o.policies[k].ns, o.policies[k].name) == k)
  }

  // ---------- policies as reported ----------

  /** The built policies of a store of reported ones: the store of policies of a run. */
  function BuiltAll(specs: map<Key, PolicySpec>): map<Key, Policy> {
    map k | k in specs :: PolicyOf(specs[k])
  }

  /** An event on a reported policy is the event on the built one. */
  lemma BuiltStored(specs: map<Key, PolicySpec>, key: Key, spec: Option<PolicySpec>)
    ensures Find(BuiltAll(specs), key) == PolicyView(Find(specs, key))
    ensures Stored(BuiltAll(specs), key, PolicyView(spec)) == BuiltAll(Stored(specs, key, spec))
  {
    assert Stored(BuiltAll(specs), key, PolicyView(spec)).Keys == BuiltAll(Stored(specs, key, spec)).Keys;
  }

  /** Pending policies coalesce on what is built: an update that changes nothing the controller keeps is no change. */
  lemma BuiltCoalesces(items: PendingPolicies, flushed: map<Key, PolicySpec>, store: map<Key, PolicySpec>)
    ensures Coalesced(items, BuiltAll(flushed), BuiltAll(store), Itself)
            <==> Coalesced(items, flushed, store, PolicyView)
  {
    forall k
      ensures Find(BuiltAll(flushed), k) == PolicyView(Find(flushed, k))
              && Find(BuiltAll(store), k) == PolicyView(Find(store, k))
    {
      BuiltStored(flushed, k, None);
      BuiltStored(store, k, None);
    }
  }

  // ---------- the invariant ----------

  ghost predicate PendingInv(sys: Sys) {
    && Coalesced(sys.podItems, sys.flushed.pods, sys.store.pods, PodLabelView)
    && Coalesced(sys.nsItems, sys.flushed.pods, sys.store.pods, PodNamespaceView)
    && Coalesced(sys.labelItems, sys.flushed.pods, sys.store.pods, PodNamespaceView)
    && Coalesced(sys.infoItems, sys.flushed.namespaces, sys.store.namespaces, NamespaceInfo)
    && Coalesced(sys.policyItems, sys.flushed.policies, sys.store.policies, Itself)
    && OwnNames(sys.store) && OwnNames(sys.flushed)
    && sys.infos == InfosOf(sys.flushed.namespaces)
  }

  ghost predicate IndexInv(sys: Sys) {
    && Agrees(sys.s.pml, LabelViews(sys.flushed.pods))
    && Agrees(sys.s.npm, NamespaceViews(sys.flushed.pods))
    && Joined(sys.s.nmlm, sys.s.npm, sys.infos)
    && PodsApart(sys.flushed.pods, sys.flushed.pods)
  }

  ghost function NameOf(nm: Namer, selectors: map<Key, Scoped>, tag: Tag): SetName
    requires tag.XLabel? ==> tag.k in selectors
  {
    match tag
    case PodLabel(l) => LabelSet(nm, l.ns, l.pair)
    case XLabel(k) => SelectorSet(nm, selectors[k].ns, selectors[k].selector)
    case NamespacePods(ns) => NamespaceSet(nm, ns)
    case NamespaceLabel(pair) => NamespaceLabelSet(nm, pair)
  }

  ghost predicate NamedTag(nm: Namer, selectors: map<Key, Scoped>, tag: Tag, name: SetName) {
    (tag.XLabel? ==> tag.k in selectors) && name == NameOf(nm, selectors, tag)
  }

  ghost predicate Named(nm: Namer, s: State) {
    forall tag :: tag in s.tracked ==> NamedTag(nm, s.selectors, tag, s.tracked[tag])
  }

  ghost predicate Kinds(s: State) {
    forall n: SetName :: n in s.sets && !n.ForeignSet? ==> s.sets[n].kind == KindOf(n)
  }

  ghost predicate SetInv(nm: Namer, mean: Reading, sys: Sys) {
    && Consistent(sys.s, mean)
    && Named(nm, sys.s)
    && Kinds(sys.s)
    && HasConfigSets(nm, sys.s)
  }

  /** The tags whose sets the rules of an item look at. */
  ghost predicate UsesTag(item: Item, tag: Tag) {
    match tag
    case PodLabel(l) => item.Peer? && item.clause.PodPeer? && l == NsLabel(item.ns, item.clause.pair)
    case NamespaceLabel(pair) => item.Peer? && item.clause.NamespacePeer? && pair == item.clause.pair
    case XLabel(k) => item.Begin? && item.selector != map[] && k == Key(item.ns, item.policy)
    case NamespacePods(_) => false
  }

  ghost predicate ItemTracks(s: State, item: Item) {
    && (forall tag :: UsesTag(item, tag) ==> tag in s.tracked)
    && (item.Begin? && item.selector != map[]
        ==> Key(item.ns, item.policy) in s.selectors
            && s.selectors[Key(item.ns, item.policy)] == Scoped(item.ns, item.selector))
  }

  ghost predicate RulesInv(nm: Namer, cfg: Config, sys: Sys) {
    && Walks(sys.walk, sys.order, sys.flushed.policies)
    && NoClash(nm, cfg, WalkItems(sys.walk))
    && CompiledAll(nm, cfg, WalkItems(sys.walk), sys.s.table)
    && Descends(sys.s.table)
    && sys.s.active == ActiveSets(nm, WalkItems(sys.walk))
    && (forall item :: item in WalkItems(sys.walk) ==> ItemTracks(sys.s, item))
  }

  ghost predicate Inv(nm: Namer, cfg: Config, mean: Reading, sys: Sys) {
    && PendingInv(sys)
    && IndexInv(sys)
    && SetInv(nm, mean, sys)
    && (sys.started ==> RulesInv(nm, cfg, sys))
  }

  // ---------- the start ----------

  /** A fresh controller on a kernel with no generated set but the two it makes itself. */
  ghost predicate Init(nm: Namer, sys: Sys) {
    && sys.store == Objects(map[], map[], map[]) && sys.flushed == sys.store
    && sys.podItems == map[] && sys.nsItems == map[] && sys.labelItems == map[] && sys.infoItems == map[]
       && sys.policyItems == map[]
    && sys.infos == map[]
    && sys.s.pml == map[] && sys.s.npm == map[] && sys.s.nmlm == map[]
    && sys.s.tracked == map[] && sys.s.selectors == map[]
    && (forall n: SetName ::
          n in sys.s.sets
          ==> n.ForeignSet?
              || (sys.s.sets[n] == IpSet(KindOf(n), {}) && (n == IpRangeSet(nm) || n == FlannelNetSet(nm))))
    && HasConfigSets(nm, sys.s)
    && !sys.started
  }

  lemma InitInv(nm: Namer, cfg: Config, mean: Reading, sys: Sys)
    requires Init(nm, sys)
    ensures Inv(nm, cfg, mean, sys)
  {
    assert Consistent(sys.s, mean);
    assert IndexInv(sys);
  }

  // ---------- events ----------

  ghost function PodEvent(sys: Sys, key: Key, current: Option<Pod>): Sys {
    var previous := Find(sys.store.pods, key);
    sys.(store := sys.store.(pods := Stored(sys.store.pods, key, current)),
         podItems := Updated(sys.podItems, key, PodLabelView(previous), PodLabelView(current)),
         nsItems := Updated(sys.nsItems, key, PodNamespaceView(previous), PodNamespaceView(current)),
         labelItems := Updated(sys.labelItems, key, PodNamespaceView(previous), PodNamespaceView(current)))
  }

  ghost function NamespaceEvent(sys: Sys, key: string, current: Option<Namespace>): Sys {
    sys.(store := sys.store.(namespaces := Stored(sys.store.namespaces, key, current)),
         infoItems := Updated(sys.infoItems, key, NamespaceInfo(Find(sys.store.namespaces, key)),
             NamespaceInfo(current)))
  }

  ghost function PolicyEvent(sys: Sys, key: Key, current: Option<Policy>): Sys {
    sys.(store := sys.store.(policies := Stored(sys.store.policies, key, current)),
         policyItems := Updated(sys.policyItems, key, Find(sys.store.policies, key), current))
  }

  lemma PodEventInv(nm: Namer, cfg: Config, mean: Reading, sys: Sys, key: Key, current: Option<Pod>)
    requires Inv(nm, cfg, mean, sys)
    ensures Inv(nm, cfg, mean, PodEvent(sys, key, current))
  {
    UpdateCoalesces(sys.podItems, sys.flushed.pods, sys.store.pods, PodLabelView, key, current);
    UpdateCoalesces(sys.nsItems, sys.flushed.pods, sys.store.pods, PodNamespaceView, key, current);
    UpdateCoalesces(sys.labelItems, sys.flushed.pods, sys.store.pods, PodNamespaceView, key, current);
  }

  lemma NamespaceEventInv(nm: Namer, cfg: Config, mean: Reading, sys: Sys, key: string, current: Option<Namespace>)
    requires Inv(nm, cfg, mean, sys) && (current.Some? ==> current.value.name == key)
    ensures Inv(nm, cfg, mean, NamespaceEvent(sys, key, current))
  {
    UpdateCoalesces(sys.infoItems, sys.flushed.namespaces, sys.store.namespaces, NamespaceInfo, key, current);
  }

  lemma PolicyEventInv(nm: Namer, cfg: Config, mean: Reading, sys: Sys, key: Key, current: Option<Policy>)
    requires Inv(nm, cfg, mean, sys) && (current.Some? ==> Key(current.value.ns, current.value.name) == key)
    ensures Inv(nm, cfg, mean, PolicyEvent(sys, key, current))
  {
    UpdateCoalesces(sys.policyItems, sys.flushed.policies, sys.store.policies, Itself, key, current);
  }

  // ---------- synchronisations by pods and by namespaces ----------

  lemma CoalescedUnique<K(!new), O(!new), V(!new)>(a: map<K, Change<V>>, b: map<K, Change<V>>, flushed: map<K, O>,
                          store: map<K, O>, build: Option<O> -> V)
    requires Coalesced(a, flushed, store, build) && Coalesced(b, flushed, store, build)
    ensures a == b
  {
    assert forall k :: k in a <==> k in b;
    assert a.Keys == b.Keys;
  }

  ghost predicate Trackable(s: State) {
    forall tag :: tag in s.tracked ==> HoldsPods(s.tracked[tag])
  }

  /** What visits leave as it was. */
  ghost predicate Preserved(s: State, s': State) {
    && s'.pml == s.pml && s'.npm == s.npm && s'.nmlm == s.nmlm && s'.selectors == s.selectors
    && s'.active == s.active && s'.table == s.table
    && (forall tag :: tag in s'.tracked ==> tag in s.tracked && s'.tracked[tag] == s.tracked[tag])
    && (forall tag :: tag in s.tracked && s.tracked[tag] in s.active && !tag.NamespacePods? ==> tag in s'.tracked)
    && (forall n :: n in s'.sets ==> n in s.sets && s'.sets[n].kind == s.sets[n].kind)
    && (forall n :: n in s.sets && !HoldsPods(n) ==> n in s'.sets && s'.sets[n] == s.sets[n])
  }

  lemma SetPreserves(s: State, name: SetName, members: set<string>)
    requires Trackable(s) && HoldsPods(name)
    ensures Preserved(s, s.(sets := Synced(s.sets, name, members)))
  {}

  lemma DropPreserves(s: State, tag: Tag, sets: Sets)
    requires Trackable(s) && tag in s.tracked && (s.tracked[tag] !in s.active || tag.NamespacePods?)
    requires sets == s.sets || sets == s.sets - {s.tracked[tag]}
    ensures Preserved(s, s.(tracked := s.tracked - {tag}, sets := sets))
            && Trackable(s.(tracked := s.tracked - {tag}, sets := sets))
  {}

  lemma TryPreserves(s: State, v: Visit)
    requires Trackable(s)
    ensures Preserved(s, Try(s, v)) && Trackable(Try(s, v))
  {
    var tag := if v.Sync? then v.tag else NamespacePods(v.ns);
    if tag in s.tracked {
      if v.Drop? {
        DropPreserves(s, tag, Try(s, v).sets);
      } else if s.tracked[tag] !in s.active {
        DropPreserves(s, tag, s.sets);
      } else {
        var wanted := Wanted(s, tag);
        if wanted.Some? {
          SetPreserves(s, s.tracked[tag], wanted.value);
        }
      }
    }
  }

  lemma {:induction false} VisitsKeep(s: State, visits: seq<Visit>)
    requires Trackable(s)
    ensures Preserved(s, TryAll(s, visits)) && Trackable(TryAll(s, visits))
  {
    if visits != [] {
      var n := |visits| - 1;
      VisitsKeep(s, visits[..n]);
      TryPreserves(TryAll(s, visits[..n]), visits[n]);
    }
  }

  lemma ConsistentTrackable(s: State, mean: Reading)
    requires Consistent(s, mean)
    ensures Trackable(s)
  {
    forall tag | tag in s.tracked ensures HoldsPods(s.tracked[tag]) {
      assert TagWell(s.selectors, mean, tag, s.tracked[tag]);
    }
  }

  lemma TracksSame(s: State, s': State, item: Item)
    requires ItemTracks(s, item) && s'.selectors == s.selectors
    requires forall tag :: tag in s.tracked && UsesTag(item, tag) ==> tag in s'.tracked
    ensures ItemTracks(s', item)
  {}

  /** Visits neither untrack what the rules look at nor touch the rules. */
  lemma VisitsKeepRules(nm: Namer, cfg: Config, mean: Reading, sys: Sys, s: State, visits: seq<Visit>)
    requires RulesInv(nm, cfg, sys) && Named(nm, s) && Trackable(s)
    requires s.tracked == sys.s.tracked && s.selectors == sys.s.selectors && s.active == sys.s.active
             && s.table == sys.s.table
    ensures RulesInv(nm, cfg, sys.(s := TryAll(s, visits)))
    ensures Named(nm, TryAll(s, visits))
  {
    VisitsKeep(s, visits);
    var s' := TryAll(s, visits);
    forall item | item in WalkItems(sys.walk) ensures ItemTracks(s', item) {
      assert ItemTracks(sys.s, item);
      forall tag | tag in s.tracked && UsesTag(item, tag) ensures tag in s'.tracked {
        UsedActive(nm, WalkItems(sys.walk), item, s, tag);
      }
      TracksSame(sys.s, s', item);
    }
  }

  lemma UsedActive(nm: Namer, items: seq<Item>, item: Item, s: State, tag: Tag)
    requires item in items && UsesTag(item, tag) && ItemTracks(s, item) && Named(nm, s) && tag in s.tracked
    ensures s.tracked[tag] in ActiveSets(nm, items)
  {
    ActiveSetsOfItem(nm, items, item);
    assert s.tracked[tag] == NameOf(nm, s.selectors, tag);
    assert s.tracked[tag] in SetsOf(nm, item);
  }

  ghost predicate PodOrders(sys: Sys, podOrder: seq<Key>, nsOrder: seq<Key>, labelOrder: seq<Key>) {
    && Enumerates(podOrder, sys.podItems.Keys) && Enumerates(nsOrder, sys.nsItems.Keys)
       && Enumerates(labelOrder, sys.labelItems.Keys)
  }

  ghost function PodSync(sys: Sys, podOrder: seq<Key>, nsOrder: seq<Key>, labelOrder: seq<Key>, visits: seq<Visit>): Sys
    requires PodOrders(sys, podOrder, nsOrder, labelOrder)
  {
    sys.(s := TryAll(PodFlushed(sys.s, sys.infos, sys.podItems, sys.nsItems, sys.labelItems, podOrder, nsOrder,
        labelOrder), visits),
         flushed := sys.flushed.(pods := sys.store.pods), podItems := map[], nsItems := map[], labelItems := map[])
  }

  lemma LabelItemsSame(sys: Sys)
    requires PendingInv(sys)
    ensures sys.labelItems == sys.nsItems
  {
    CoalescedUnique(sys.labelItems, sys.nsItems, sys.flushed.pods, sys.store.pods, PodNamespaceView);
  }

  ghost predicate IndexesFor(s: State, infos: Infos, pods: map<Key, Pod>) {
    Agrees(s.pml, LabelViews(pods)) && Agrees(s.npm, NamespaceViews(pods)) && Joined(s.nmlm, s.npm, infos)
  }

  lemma PodFlushIndexes(sys: Sys, podOrder: seq<Key>, nsOrder: seq<Key>, labelOrder: seq<Key>)
    requires PendingInv(sys) && IndexInv(sys) && PodsApart(sys.flushed.pods, sys.store.pods)
             && PodOrders(sys, podOrder, nsOrder, labelOrder)
    ensures IndexesFor(PodFlushed(sys.s, sys.infos, sys.podItems, sys.nsItems, sys.labelItems, podOrder, nsOrder,
                labelOrder), sys.infos, sys.store.pods)
  {
    LabelItemsSame(sys);
    LabelIndexFlush(sys, podOrder);
    NamespaceIndexFlush(sys, nsOrder, labelOrder);
  }

  lemma ApartAfter(before: map<Key, Pod>, after: map<Key, Pod>)
    requires PodsApart(before, after)
    ensures PodsApart(after, after)
  {
    forall p, q, ip | p != q ensures !(Address(after, p, ip) && Address(after, q, ip)) {
      assert !((Address(before, p, ip) || Address(after, p, ip)) && (Address(before, q, ip) || Address(after, q, ip)));
    }
  }

  lemma NamespaceIndexFlush(sys: Sys, nsOrder: seq<Key>, labelOrder: seq<Key>)
    requires PendingInv(sys) && IndexInv(sys) && PodsApart(sys.flushed.pods, sys.store.pods)
    requires Enumerates(nsOrder, sys.nsItems.Keys) && Enumerates(labelOrder, sys.nsItems.Keys)
    ensures var npm := Flush(sys.s.npm, nsOrder, Opened(sys.nsItems));
            && Agrees(npm, NamespaceViews(sys.store.pods))
            && Joined(Flush(sys.s.nmlm, labelOrder, LabelChanges(Opened(sys.nsItems), sys.infos)), npm, sys.infos)
  {
    var before, after := sys.flushed.pods, sys.store.pods;
    assert Opened(sys.nsItems).Keys == sys.nsItems.Keys by {
      OpenedKeys(sys.nsItems);
    }
    ApartViews(before, after);
    NamespaceItemsLead(sys.nsItems, before, after);
    NamespaceViewsSingle(before);
    NamespaceViewsSingle(after);
    PodFlushJoins(sys.s.nmlm, sys.s.npm, sys.infos, Opened(sys.nsItems), NamespaceViews(before), NamespaceViews(after),
        nsOrder, labelOrder);
  }

  lemma LabelIndexFlush(sys: Sys, podOrder: seq<Key>)
    requires PendingInv(sys) && IndexInv(sys) && PodsApart(sys.flushed.pods, sys.store.pods)
             && Enumerates(podOrder, sys.podItems.Keys)
    ensures Agrees(Flush(sys.s.pml, podOrder, Opened(sys.podItems)), LabelViews(sys.store.pods))
  {
    var before, after := sys.flushed.pods, sys.store.pods;
    assert Opened(sys.podItems).Keys == sys.podItems.Keys by {
      OpenedKeys(sys.podItems);
    }
    ApartViews(before, after);
    PodItemsLead(sys.podItems, before, after);
    ApartFlush(sys.s.pml, podOrder, Opened(sys.podItems), LabelViews(before), LabelViews(after),
        NamespaceViews(before), NamespaceViews(after));
  }

  /** What visits keep of the invariant on sets, once every tracked set is right again. */
  lemma VisitsSetInv(nm: Namer, mean: Reading, sys: Sys, s: State, visits: seq<Visit>)
    requires SetInv(nm, mean, sys) && Consistent(TryAll(s, visits), mean)
    requires s == sys.s.(pml := s.pml, npm := s.npm, nmlm := s.nmlm)
    ensures SetInv(nm, mean, sys.(s := TryAll(s, visits)))
  {
    ConsistentTrackable(sys.s, mean);
    VisitsKeep(s, visits);
    var s' := TryAll(s, visits);
    forall tag | tag in s'.tracked ensures NamedTag(nm, s'.selectors, tag, s'.tracked[tag]) {
      assert NamedTag(nm, sys.s.selectors, tag, sys.s.tracked[tag]);
    }
  }

  lemma VisitsIndexes(s: State, visits: seq<Visit>)
    requires Trackable(s)
    ensures var s' := TryAll(s, visits); s'.pml == s.pml && s'.npm == s.npm && s'.nmlm == s.nmlm
  {
    VisitsKeep(s, visits);
  }

  /** A pod synchronisation keeps the invariant, in whatever order its maps are ranged over. */
  lemma PodSyncInv(nm: Namer, cfg: Config, mean: Reading, sys: Sys, podOrder: seq<Key>, nsOrder: seq<Key>,
                   labelOrder: seq<Key>, visits: seq<Visit>)
    requires Inv(nm, cfg, mean, sys) && PodOrders(sys, podOrder, nsOrder, labelOrder)
             && PodsApart(sys.flushed.pods, sys.store.pods)
    requires VisitsPods(sys.s, sys.infos, sys.podItems, sys.nsItems, sys.labelItems, visits)
    ensures Inv(nm, cfg, mean, PodSync(sys, podOrder, nsOrder, labelOrder, visits))
  {
    var s := PodFlushed(sys.s, sys.infos, sys.podItems, sys.nsItems, sys.labelItems, podOrder, nsOrder, labelOrder);
    PodFlushIndexes(sys, podOrder, nsOrder, labelOrder);
    ApartAfter(sys.flushed.pods, sys.store.pods);
    PodSyncConsistent(sys.s, mean, sys.infos, sys.podItems, sys.nsItems, sys.labelItems, podOrder, nsOrder, labelOrder,
        visits);
    ConsistentTrackable(sys.s, mean);
    VisitsIndexes(s, visits);
    VisitsSetInv(nm, mean, sys, s, visits);
    if sys.started {
      VisitsKeepRules(nm, cfg, mean, sys, s, visits);
    }
    PodSyncParts(nm, cfg, mean, sys, PodSync(sys, podOrder, nsOrder, labelOrder, visits));
  }

  lemma PodSyncParts(nm: Namer, cfg: Config, mean: Reading, sys: Sys, sys': Sys)
    requires PendingInv(sys)
             && sys' == sys.(s := sys'.s, flushed := sys.flushed.(pods := sys.store.pods), podItems := map[],
                    nsItems := map[], labelItems := map[])
    requires IndexesFor(sys'.s, sys.infos, sys.store.pods) && PodsApart(sys.store.pods, sys.store.pods)
    requires SetInv(nm, mean, sys.(s := sys'.s)) && (sys.started ==> RulesInv(nm, cfg, sys.(s := sys'.s)))
    ensures Inv(nm, cfg, mean, sys')
  {}

  ghost function NamespaceSync(sys: Sys, order: seq<string>, visits: seq<Visit>): Sys
    requires Enumerates(order, sys.infoItems.Keys)
  {
    sys.(s := TryAll(NamespaceFlushed(sys.s, sys.infoItems, order), visits), infos := InfosOf(sys.store.namespaces),
         flushed := sys.flushed.(namespaces := sys.store.namespaces), infoItems := map[])
  }

  lemma NamespaceFlushIndexes(sys: Sys, npm: Index<string>, order: seq<string>)
    requires PendingInv(sys) && Joined(sys.s.nmlm, npm, sys.infos) && Enumerates(order, sys.infoItems.Keys)
             && OneNamespace(npm)
    ensures Joined(Flush(sys.s.nmlm, order, NsChanges(sys.infoItems, npm)), npm, InfosOf(sys.store.namespaces))
  {
    var infos, infos' := sys.infos, InfosOf(sys.store.namespaces);
    forall ns
      ensures Lookup(infos, ns) == NamespaceInfo(Find(sys.flushed.namespaces, ns))
      ensures Lookup(infos', ns) == NamespaceInfo(Find(sys.store.namespaces, ns))
    {}
    assert NsLeads(sys.infoItems, infos, infos');
    NamespaceFlushJoins(sys.s.nmlm, npm, infos, infos', sys.infoItems, order);
  }

  lemma FlushedOneNamespace(sys: Sys)
    requires IndexInv(sys)
    ensures OneNamespace(sys.s.npm)
  {
    ApartViews(sys.flushed.pods, sys.flushed.pods);
    NamespaceViewsSingle(sys.flushed.pods);
    PodsOneNamespace(sys.s.npm, NamespaceViews(sys.flushed.pods));
  }

  /** A namespace synchronisation keeps the invariant. */
  lemma NamespaceSyncInv(nm: Namer, cfg: Config, mean: Reading, sys: Sys, order: seq<string>, visits: seq<Visit>)
    requires Inv(nm, cfg, mean, sys) && Enumerates(order, sys.infoItems.Keys) && VisitsNamespaces(sys.infoItems, visits)
    ensures Inv(nm, cfg, mean, NamespaceSync(sys, order, visits))
  {
    var s := NamespaceFlushed(sys.s, sys.infoItems, order);
    FlushedOneNamespace(sys);
    NamespaceFlushIndexes(sys, sys.s.npm, order);
    NamespaceSyncConsistent(sys.s, mean, sys.infoItems, order, visits);
    ConsistentTrackable(sys.s, mean);
    VisitsIndexes(s, visits);
    VisitsSetInv(nm, mean, sys, s, visits);
    if sys.started {
      VisitsKeepRules(nm, cfg, mean, sys, s, visits);
    }
  }

  // ---------- synchronisations of rules ----------

  ghost function TagsOf(item: Item): set<Tag> {
    match item
    case Begin(ns, policy, selector) =>
      {NamespacePods(ns)} + (set pair | pair in Pairs(selector) :: PodLabel(NsLabel(ns, pair)))
      + (if selector == map[] then {} else {XLabel(Key(ns, policy))})
    case Enter(_, _) => {}
    case Peer(ns, _, _, _, clause) =>
      match clause
      case OnlyPorts(_) => {}
      case PodPeer(pair, _) => {PodLabel(NsLabel(ns, pair))}
      case NamespacePeer(pair, _) => {NamespaceLabel(pair)}
      case BlockPeer(_, _) => {}
  }

  lemma ItemTrackedKeys(nm: Namer, item: Item, tracked: map<Tag, SetName>)
    ensures ItemTracked(nm, item, tracked).Keys == tracked.Keys + TagsOf(item)
  {}

  /** An entry an item leaves in the tracking map: an old one, or one of its own with the name it should have. */
  lemma ItemTrackedEntry(nm: Namer, item: Item, tracked: map<Tag, SetName>, tag: Tag)
    requires tag in ItemTracked(nm, item, tracked)
    ensures var name := ItemTracked(nm, item, tracked)[tag];
            || (tag in tracked && name == tracked[tag]
                && !(tag.XLabel? && item.Begin? && item.selector != map[] && tag.k == Key(item.ns, item.policy)))
            || (!tag.XLabel? && name == NameOf(nm, map[], tag))
            || (item.Begin? && item.selector != map[] && tag == XLabel(Key(item.ns, item.policy))
                && name == SelectorSet(nm, item.ns, item.selector))
  {}

  lemma EntryNamed(nm: Namer, item: Item, tracked: map<Tag, SetName>, selectors: map<Key, Scoped>, tag: Tag)
    requires tag in ItemTracked(nm, item, tracked)
    requires tag in tracked ==> NamedTag(nm, selectors, tag, tracked[tag])
    ensures NamedTag(nm, ItemSelectors(item, selectors), tag, ItemTracked(nm, item, tracked)[tag])
  {
    ItemTrackedEntry(nm, item, tracked, tag);
  }

  /** Tracking an item keeps every tracked set under the name of its tag. */
  lemma ItemTracking(nm: Namer, item: Item, s: State)
    requires Named(nm, s)
    ensures var s' := ItemApplied(nm, item, s);
            s'.tracked.Keys == s.tracked.Keys + TagsOf(item) && Named(nm, s')
  {
    ItemTrackedKeys(nm, item, s.tracked);
    forall tag | tag in ItemTracked(nm, item, s.tracked)
      ensures NamedTag(nm, ItemSelectors(item, s.selectors), tag, ItemTracked(nm, item, s.tracked)[tag])
    {
      EntryNamed(nm, item, s.tracked, s.selectors, tag);
    }
  }

  lemma ItemKinds(nm: Namer, item: Item, s: State)
    requires Kinds(s)
    ensures Kinds(ItemApplied(nm, item, s))
  {}

  lemma {:induction false} WalkTracking(nm: Namer, items: seq<Item>, s: State)
    requires Named(nm, s) && Kinds(s)
    ensures var s' := Applied(nm, items, s);
            && Named(nm, s') && Kinds(s') && s.tracked.Keys <= s'.tracked.Keys
            && (forall item, tag :: item in items && tag in TagsOf(item) ==> tag in s'.tracked)
  {
    if items != [] {
      var n := |items| - 1;
      assert items == items[..n] + [items[n]];
      WalkTracking(nm, items[..n], s);
      ItemTracking(nm, items[n], Applied(nm, items[..n], s));
      ItemKinds(nm, items[n], Applied(nm, items[..n], s));
    }
  }

  /** Of one policy there is one Begin in a walk, up to repetition. */
  ghost predicate OneSelector(items: seq<Item>) {
    forall a, b ::
      a in items && b in items && a.Begin? && b.Begin? && a.ns == b.ns && a.policy == b.policy
      ==> a.selector == b.selector
  }

  lemma WalkOneSelector(ls: seq<ListedPolicy>, order: seq<Key>, policies: map<Key, Policy>)
    requires Walks(ls, order, policies)
    requires forall k :: k in policies ==> Key(policies[k].ns, policies[k].name) == k
    ensures OneSelector(WalkItems(ls))
  {
    var items := WalkItems(ls);
    forall a, b | a in items && b in items && a.Begin? && b.Begin? && a.ns == b.ns && a.policy == b.policy
      ensures a.selector == b.selector
    {
      WalkVisits(ls, order, policies, a);
      WalkVisits(ls, order, policies, b);
      var k :| k in policies && ItemOf(policies[k], a);
      var k' :| k' in policies && ItemOf(policies[k'], b);
      assert k == Key(a.ns, a.policy) == k';
    }
  }

  lemma {:induction false} WalkSelectors(nm: Namer, items: seq<Item>, s: State, item: Item)
    requires OneSelector(items) && item in items && item.Begin? && item.selector != map[]
    ensures var s' := Applied(nm, items, s);
            Key(item.ns, item.policy) in s'.selectors
            && s'.selectors[Key(item.ns, item.policy)] == Scoped(item.ns, item.selector)
  {
    var n := |items| - 1;
    assert items == items[..n] + [items[n]];
    assert items[n] in items;
    assert forall x :: x in items[..n] ==> x in items;
    if !(items[n].Begin? && items[n].ns == item.ns && items[n].policy == item.policy) {
      WalkSelectors(nm, items[..n], s, item);
    }
  }

  lemma WalkItemTracks(nm: Namer, items: seq<Item>, s: State, item: Item)
    requires Named(nm, s) && Kinds(s) && OneSelector(items) && item in items
    ensures ItemTracks(Applied(nm, items, s), item)
  {
    WalkTracking(nm, items, s);
    if item.Begin? && item.selector != map[] {
      WalkSelectors(nm, items, s, item);
    }
    forall tag | UsesTag(item, tag) ensures tag in Applied(nm, items, s).tracked {
      assert tag in TagsOf(item);
    }
  }

  /** Nothing clashes and everything means one thing: the hypotheses on names in use. */
  ghost predicate NamesGood(nm: Namer, cfg: Config, mean: Reading, items: seq<Item>) {
    NoClash(nm, cfg, items) && AllMean(nm, mean, items)
  }

  ghost function RulesAndSets(nm: Namer, cfg: Config, s: State, items: seq<Item>, tags: seq<Tag>): State {
    FullAll(RulesSynced(nm, cfg, items, s), tags)
  }

  /** Making the rules and filling all sets establishes everything the invariant says about both. */
  lemma RulesStep(nm: Namer, cfg: Config, mean: Reading, sys: Sys, ls: seq<ListedPolicy>, order: seq<Key>,
                  tags: seq<Tag>)
    requires WellTracked(sys.s, mean) && NothingStray(sys.s, mean) && Named(nm, sys.s) && Kinds(sys.s)
             && HasConfigSets(nm, sys.s)
    requires OwnNames(sys.flushed) && Walks(ls, order, sys.flushed.policies) && NamesGood(nm, cfg, mean, WalkItems(ls))
    requires Covers(RulesSynced(nm, cfg, WalkItems(ls), sys.s), tags)
    ensures var sys' := sys.(s := RulesAndSets(nm, cfg, sys.s, WalkItems(ls), tags), walk := ls, order := order,
                started := true);
            && SetInv(nm, mean, sys') && RulesInv(nm, cfg, sys') && ActiveExist(sys'.s)
            && sys'.s.pml == sys.s.pml && sys'.s.npm == sys.s.npm && sys'.s.nmlm == sys.s.nmlm
  {
    var items := WalkItems(ls);
    var s0 := sys.s.(active := {IpRangeSet(nm), FlannelNetSet(nm)});
    var s1 := RulesSynced(nm, cfg, items, sys.s);
    var s2 := FullAll(s1, tags);
    RuleSyncConsistent(nm, cfg, items, sys.s, mean, tags);
    WalkTracking(nm, items, s0);
    FullKeeps(s1, tags);
    WalkBegun(ls, order, sys.flushed.policies);
    ResultExact(nm, cfg, items, sys.s.table);
    ResultDescends(nm, cfg, items, sys.s.table);
    WalkOneSelector(ls, order, sys.flushed.policies);
    forall item | item in items ensures ItemTracks(s2, item) {
      WalkItemTracks(nm, items, s0, item);
      TracksSame(Applied(nm, items, s0), s2, item);
    }
  }

}
