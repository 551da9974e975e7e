/**
 * From cluster objects to packets: what the kernel decides at any moment of a run, stated on the
 * policies, pods and namespaces themselves and on no set, chain or index.
 */
module EndToEnd {
  import opened Options
  import opened Names
  import opened Naming
  import opened Netfilter
  import opened Orders
  import opened Policies
  import opened Indexes
  import opened Joins
  import opened Coalescing
  import opened Pods
  import opened Compiler
  import opened Verdicts
  import opened Entries
  import opened Restoring
  import opened Reconciler
  import opened Syncs
  import opened RuleSync
  import opened Cluster
  import opened Runs

  // ---------- addresses and pods ----------

  ghost predicate PodAt(pods: map<Key, Pod>, q: Key, ns: string, ip: string) {
    Address(pods, q, ip) && pods[q].ns == ns
  }

  ghost predicate CarriesPair(pods: map<Key, Pod>, q: Key, pair: Label) {
    q in pods && pair in Pairs(pods[q].labels.Entries())
  }

  /** The address of a pod of the namespace with this label. */
  ghost predicate Labels(pods: map<Key, Pod>, ns: string, pair: Label, ip: string) {
    exists q :: PodAt(pods, q, ns, ip) && CarriesPair(pods, q, pair)
  }

  ghost predicate InNamespace(pods: map<Key, Pod>, ns: string, ip: string) {
    exists q :: PodAt(pods, q, ns, ip)
  }

  /** The address of a pod in a namespace with this label. */
  ghost predicate InLabelled(o: Objects, pair: Label, ip: string) {
    exists ns :: ns in o.namespaces && pair in Pairs(o.namespaces[ns].labels.Entries()) && InNamespace(o.pods, ns, ip)
  }

  ghost predicate CarriesKnown(pods: map<Key, Pod>, known: set<NsLabel>, ns: string, selector: Selector, q: Key) {
    forall pair :: pair in Pairs(selector) && NsLabel(ns, pair) in known ==> CarriesPair(pods, q, pair)
  }

  /**
   * The address of a pod a policy selects. Pairs no pod of the namespace has ever been seen to
   * carry are skipped; when all pairs of a selector are of that kind it selects nothing.
   */
  ghost predicate Selects(pods: map<Key, Pod>, known: set<NsLabel>, ns: string, selector: Selector, ip: string) {
    selector == map[] ||
    ((exists pair :: pair in Pairs(selector) && NsLabel(ns, pair) in known)
     && exists q :: PodAt(pods, q, ns, ip) && CarriesKnown(pods, known, ns, selector, q))
  }

  // ---------- indexes and pods ----------

  lemma LabelViewsHas(pods: map<Key, Pod>, q: Key, ns: string, pair: Label, ip: string)
    ensures Has(LabelViews(pods), q, NsLabel(ns, pair), ip) <==> PodAt(pods, q, ns, ip) && CarriesPair(pods, q, pair)
  {
    if q in pods && Visible(Some(pods[q])) {
      var pod := pods[q];
      assert NsLabel(ns, pair) in NsLabels(pod) <==> pod.ns == ns && pair in Pairs(pod.labels.Entries());
    }
  }

  lemma NamespaceViewsHas(pods: map<Key, Pod>, q: Key, ns: string, ip: string)
    ensures Has(NamespaceViews(pods), q, ns, ip) <==> PodAt(pods, q, ns, ip)
  {}

  lemma IndexedLabels(sys: Sys, ns: string, pair: Label, ip: string)
    requires IndexInv(sys)
    ensures ip in Get(sys.s.pml, NsLabel(ns, pair)) <==> Labels(sys.flushed.pods, ns, pair, ip)
  {
    var snap := LabelViews(sys.flushed.pods);
    if ip in Get(sys.s.pml, NsLabel(ns, pair)) {
      var q :| Has(snap, q, NsLabel(ns, pair), ip);
      LabelViewsHas(sys.flushed.pods, q, ns, pair, ip);
    }
    if Labels(sys.flushed.pods, ns, pair, ip) {
      var q :| PodAt(sys.flushed.pods, q, ns, ip) && CarriesPair(sys.flushed.pods, q, pair);
      LabelViewsHas(sys.flushed.pods, q, ns, pair, ip);
    }
  }

  lemma IndexedNamespace(sys: Sys, ns: string, ip: string)
    requires IndexInv(sys)
    ensures ip in Get(sys.s.npm, ns) <==> InNamespace(sys.flushed.pods, ns, ip)
  {
    var snap := NamespaceViews(sys.flushed.pods);
    if ip in Get(sys.s.npm, ns) {
      var q :| Has(snap, q, ns, ip);
      NamespaceViewsHas(sys.flushed.pods, q, ns, ip);
    }
    if InNamespace(sys.flushed.pods, ns, ip) {
      var q :| PodAt(sys.flushed.pods, q, ns, ip);
      NamespaceViewsHas(sys.flushed.pods, q, ns, ip);
    }
  }

  lemma IndexedByNamespaceLabel(sys: Sys, pair: Label, ip: string)
    requires IndexInv(sys) && PendingInv(sys)
    ensures ip in Get(sys.s.nmlm, pair) <==> InLabelled(sys.flushed, pair, ip)
  {
    JoinedMeans(sys.s.nmlm, sys.s.npm, sys.infos, pair, ip);
    forall ns ensures ip in Get(sys.s.npm, ns) <==> InNamespace(sys.flushed.pods, ns, ip) {
      IndexedNamespace(sys, ns, ip);
    }
    forall ns
      ensures Carries(sys.infos, ns, pair)
              <==> ns in sys.flushed.namespaces && pair in Pairs(sys.flushed.namespaces[ns].labels.Entries())
    {}
  }

  /** One pod behind an address carries every known pair whenever pods at that address do so pair by pair. */
  lemma IndexedSelector(sys: Sys, ns: string, selector: Selector, ip: string)
    requires IndexInv(sys) && selector != map[]
    ensures ip in Intersection(sys.s.pml, ns, selector) <==> Selects(sys.flushed.pods, sys.s.pml.Keys, ns, selector, ip)
  {
    var pml, pods := sys.s.pml, sys.flushed.pods;
    IntersectionIs(pml, ns, selector, ip);
    forall pair
      ensures PairIndexed(pml, ns, selector, pair) ==> (ip in pml[NsLabel(ns, pair)] <==> Labels(pods, ns, pair, ip))
    {
      IndexedLabels(sys, ns, pair, ip);
    }
    if ip in Intersection(pml, ns, selector) {
      var one :| PairIndexed(pml, ns, selector, one);
      var q :| PodAt(pods, q, ns, ip) && CarriesPair(pods, q, one);
      forall pair | pair in Pairs(selector) && NsLabel(ns, pair) in pml ensures CarriesPair(pods, q, pair) {
        assert PairIndexed(pml, ns, selector, pair);
        var q' :| PodAt(pods, q', ns, ip) && CarriesPair(pods, q', pair);
        assert Address(pods, q, ip) && Address(pods, q', ip);
      }
      assert CarriesKnown(pods, pml.Keys, ns, selector, q);
    }
    if Selects(pods, pml.Keys, ns, selector, ip) {
      var one :| one in Pairs(selector) && NsLabel(ns, one) in pml.Keys;
      assert PairIndexed(pml, ns, selector, one);
      var q :| PodAt(pods, q, ns, ip) && CarriesKnown(pods, pml.Keys, ns, selector, q);
      forall pair | PairIndexed(pml, ns, selector, pair) ensures ip in pml[NsLabel(ns, pair)] {
        assert CarriesPair(pods, q, pair);
      }
    }
  }

  /** The address of a pod that carries every pair of a selector: what a selector is documented to mean. */
  ghost predicate CarriesAll(pods: map<Key, Pod>, ns: string, selector: Selector, ip: string) {
    exists q :: PodAt(pods, q, ns, ip) && forall pair :: pair in Pairs(selector) ==> CarriesPair(pods, q, pair)
  }

  ghost predicate SomeUnknown(known: set<NsLabel>, ns: string, selector: Selector) {
    exists pair :: pair in Pairs(selector) && NsLabel(ns, pair) !in known
  }

  /** A pod of the namespace carries the pairs of the selector that are known, and at least one is. */
  ghost predicate SelectsSomePod(pods: map<Key, Pod>, known: set<NsLabel>, ns: string, selector: Selector) {
    exists ip :: Selects(pods, known, ns, selector, ip)
  }

  /**
   * A selector's set holds exactly the pods that carry all its pairs, if and only if every pair is
   * known, or no pod carries the known ones: a pair no pod ever carried widens the selection.
   */
  lemma SelectorMeaning(sys: Sys, ns: string, selector: Selector)
    requires IndexInv(sys) && selector != map[]
    ensures (forall ip ::
               ip in Intersection(sys.s.pml, ns, selector) <==> CarriesAll(sys.flushed.pods, ns, selector, ip))
       <==> !SomeUnknown(sys.s.pml.Keys, ns, selector)
            || !SelectsSomePod(sys.flushed.pods, sys.s.pml.Keys, ns, selector)
  {
    var pods, known := sys.flushed.pods, sys.s.pml.Keys;
    forall ip ensures ip in Intersection(sys.s.pml, ns, selector) <==> Selects(pods, known, ns, selector, ip) {
      IndexedSelector(sys, ns, selector, ip);
    }
    if SomeUnknown(known, ns, selector) {
      UnknownCarriesNone(sys, ns, selector);
    } else {
      forall ip ensures Selects(pods, known, ns, selector, ip) <==> CarriesAll(pods, ns, selector, ip) {
        AllKnown(pods, known, ns, selector, ip);
      }
    }
  }

  lemma UnknownCarriesNone(sys: Sys, ns: string, selector: Selector)
    requires IndexInv(sys) && SomeUnknown(sys.s.pml.Keys, ns, selector)
    ensures forall ip :: !CarriesAll(sys.flushed.pods, ns, selector, ip)
  {
    var pair :| pair in Pairs(selector) && NsLabel(ns, pair) !in sys.s.pml.Keys;
    forall ip ensures !CarriesAll(sys.flushed.pods, ns, selector, ip) {
      IndexedLabels(sys, ns, pair, ip);
    }
  }

  lemma AllKnown(pods: map<Key, Pod>, known: set<NsLabel>, ns: string, selector: Selector, ip: string)
    requires selector != map[] && !SomeUnknown(known, ns, selector)
    ensures Selects(pods, known, ns, selector, ip) <==> CarriesAll(pods, ns, selector, ip)
  {
    NonemptySelector(selector);
    if Selects(pods, known, ns, selector, ip) {
      var q :| PodAt(pods, q, ns, ip) && CarriesKnown(pods, known, ns, selector, q);
    }
    if CarriesAll(pods, ns, selector, ip) {
      var q :| PodAt(pods, q, ns, ip) && forall pair :: pair in Pairs(selector) ==> CarriesPair(pods, q, pair);
      assert CarriesKnown(pods, known, ns, selector, q);
    }
  }

  lemma NonemptySelector(selector: Selector)
    requires selector != map[]
    ensures exists pair :: pair in Pairs(selector)
  {
    var k :| k in selector;
    assert Label(k, selector[k]) in Pairs(selector);
  }

  // ---------- sets and pods ----------

  lemma TrackedHas(u: Setup, sys: Sys, w: World, tag: Tag, a: string)
    requires Inv(u.nm, u.cfg, u.mean, sys) && w.sets == sys.s.sets && tag in sys.s.tracked
    ensures NamedTag(u.nm, sys.s.selectors, tag, sys.s.tracked[tag])
    ensures w.Has(sys.s.tracked[tag], a) <==> a in Desired(sys.s, Means(sys.s.selectors, tag))
  {
    var s, name := sys.s, sys.s.tracked[tag];
    assert NamedTag(u.nm, s.selectors, tag, name);
    assert TagWell(s.selectors, u.mean, tag, name) && name in s.sets;
    assert Good(s, u.mean, name);
    assert s.sets[name].kind == KindOf(name) == HashIp;
  }

  lemma LabelSetHolds(u: Setup, sys: Sys, w: World, ns: string, pair: Label, a: string)
    requires Inv(u.nm, u.cfg, u.mean, sys) && w.sets == sys.s.sets && PodLabel(NsLabel(ns, pair)) in sys.s.tracked
    ensures w.Has(LabelSet(u.nm, ns, pair), a) <==> Labels(sys.flushed.pods, ns, pair, a)
  {
    TrackedHas(u, sys, w, PodLabel(NsLabel(ns, pair)), a);
    SinglePair(sys.s.pml, NsLabel(ns, pair));
    IndexedLabels(sys, ns, pair, a);
  }

  lemma NamespaceLabelSetHolds(u: Setup, sys: Sys, w: World, pair: Label, a: string)
    requires Inv(u.nm, u.cfg, u.mean, sys) && w.sets == sys.s.sets && NamespaceLabel(pair) in sys.s.tracked
    ensures w.Has(NamespaceLabelSet(u.nm, pair), a) <==> InLabelled(sys.flushed, pair, a)
  {
    TrackedHas(u, sys, w, NamespaceLabel(pair), a);
    IndexedByNamespaceLabel(sys, pair, a);
  }

  lemma SelectorSetHolds(u: Setup, sys: Sys, w: World, k: Key, a: string)
    requires Inv(u.nm, u.cfg, u.mean, sys) && w.sets == sys.s.sets && XLabel(k) in sys.s.tracked
    ensures k in sys.s.selectors
    ensures var scoped := sys.s.selectors[k];
            (w.Has(SelectorSet(u.nm, scoped.ns, scoped.selector), a)
             <==> Selects(sys.flushed.pods, sys.s.pml.Keys, scoped.ns, scoped.selector, a))
  {
    TrackedHas(u, sys, w, XLabel(k), a);
    assert TagWell(sys.s.selectors, u.mean, XLabel(k), sys.s.tracked[XLabel(k)]);
    IndexedSelector(sys, sys.s.selectors[k].ns, sys.s.selectors[k].selector, a);
  }

  // ---------- policies on pods ----------

  /** What a packet is judged by: the objects, and which selector pairs have been seen. */
  datatype Scene = Scene(objects: Objects, known: set<NsLabel>, inNet: (string, string) -> bool)

  ghost predicate PortsAdmit(r: PeerRule, p: Packet) {
    PortMatch(r.ports, p) || (r.ports == [] && (r.pods != [] || r.namespaces != [] || r.blocks != []))
  }

  ghost predicate PodsAdmit(v: Scene, ns: string, r: PeerRule, far: string) {
    exists i, pair :: 0 <= i < |r.pods| && pair in Pairs(r.pods[i]) && Labels(v.objects.pods, ns, pair, far)
  }

  ghost predicate NamespacesAdmit(v: Scene, r: PeerRule, far: string) {
    exists i, pair :: 0 <= i < |r.namespaces| && pair in Pairs(r.namespaces[i]) && InLabelled(v.objects, pair, far)
  }

  ghost predicate BlocksAdmit(v: Scene, r: PeerRule, far: string) {
    exists b :: b in r.blocks && v.inNet(b.cidr, far)
  }

  /** A rule admits a packet of a selected pod when its ports fit and one of its peers does, or it has none. */
  ghost predicate RuleAdmits(v: Scene, pol: Policy, d: Direction, r: PeerRule, p: Packet) {
    var far := p.Address(FarSide(d));
    && Selects(v.objects.pods, v.known, pol.ns, pol.selector, p.Address(OwnSide(d)))
    && PortsAdmit(r, p)
    && ((r.pods == [] && r.namespaces == [] && r.blocks == [])
        || PodsAdmit(v, pol.ns, r, far) || NamespacesAdmit(v, r, far) || BlocksAdmit(v, r, far))
  }

  ghost predicate InForce(policies: map<Key, Policy>, k: Key, ns: string, d: Direction) {
    k in policies && policies[k].ns == ns && d in policies[k].types
  }

  ghost predicate Admits(v: Scene, ns: string, d: Direction, p: Packet) {
    exists k, r ::
      InForce(v.objects.policies, k, ns, d) && r in v.objects.policies[k].Rules(d)
      && RuleAdmits(v, v.objects.policies[k], d, r, p)
  }

  /** No block that admits the packet excepts it. */
  ghost predicate NoneExcepts(v: Scene, ns: string, d: Direction, p: Packet) {
    forall k, r, b, net ::
      InForce(v.objects.policies, k, ns, d) && r in v.objects.policies[k].Rules(d)
      && RuleAdmits(v, v.objects.policies[k], d, r, p)
      && b in r.blocks && v.inNet(b.cidr, p.Address(FarSide(d))) && net in b.except
      ==> !v.inNet(net, p.Address(FarSide(d)))
  }

  ghost function SceneOf(sys: Sys, inNet: (string, string) -> bool): Scene {
    Scene(sys.flushed, sys.s.pml.Keys, inNet)
  }

  // ---------- rules on sets are rules on pods ----------

  lemma WalkedItem(sys: Sys, k: Key, item: Item)
    requires Walks(sys.walk, sys.order, sys.flushed.policies) && k in sys.flushed.policies
             && ItemOf(sys.flushed.policies[k], item)
    ensures item in WalkItems(sys.walk)
  {
    WalkVisits(sys.walk, sys.order, sys.flushed.policies, item);
  }

  lemma OwnIs(u: Setup, sys: Sys, w: World, k: Key, d: Direction, p: Packet)
    requires Inv(u.nm, u.cfg, u.mean, sys) && sys.started && w.sets == sys.s.sets && k in sys.flushed.policies
    ensures var pol := sys.flushed.policies[k];
            OwnMatch(w, u.nm, pol.ns, pol.selector, d, p)
            <==> Selects(sys.flushed.pods, sys.s.pml.Keys, pol.ns, pol.selector, p.Address(OwnSide(d)))
  {
    var pol := sys.flushed.policies[k];
    if pol.selector != map[] {
      var begin := Begin(pol.ns, pol.name, pol.selector);
      WalkedItem(sys, k, begin);
      assert ItemTracks(sys.s, begin);
      assert UsesTag(begin, XLabel(Key(pol.ns, pol.name)));
      SelectorSetHolds(u, sys, w, Key(pol.ns, pol.name), p.Address(OwnSide(d)));
    }
  }

  lemma PodPeerIs(u: Setup, sys: Sys, w: World, k: Key, d: Direction, r: PeerRule, i: nat, pair: Label, far: string)
    requires Inv(u.nm, u.cfg, u.mean, sys) && sys.started && w.sets == sys.s.sets && k in sys.flushed.policies
    requires d in sys.flushed.policies[k].types && r in sys.flushed.policies[k].Rules(d) && i < |r.pods|
             && pair in Pairs(r.pods[i])
    ensures w.Has(LabelSet(u.nm, sys.flushed.policies[k].ns, pair), far)
            <==> Labels(sys.flushed.pods, sys.flushed.policies[k].ns, pair, far)
  {
    var pol := sys.flushed.policies[k];
    var item := Peer(pol.ns, pol.name, pol.selector, d, PodPeer(pair, r.ports));
    assert RuleHas(r, item.clause);
    WalkedItem(sys, k, item);
    assert ItemTracks(sys.s, item) && UsesTag(item, PodLabel(NsLabel(pol.ns, pair)));
    LabelSetHolds(u, sys, w, pol.ns, pair, far);
  }

  lemma NamespacePeerIs(u: Setup, sys: Sys, w: World, k: Key, d: Direction, r: PeerRule, i: nat, pair: Label,
                        far: string)
    requires Inv(u.nm, u.cfg, u.mean, sys) && sys.started && w.sets == sys.s.sets && k in sys.flushed.policies
    requires d in sys.flushed.policies[k].types && r in sys.flushed.policies[k].Rules(d) && i < |r.namespaces|
             && pair in Pairs(r.namespaces[i])
    ensures w.Has(NamespaceLabelSet(u.nm, pair), far) <==> InLabelled(sys.flushed, pair, far)
  {
    var pol := sys.flushed.policies[k];
    var item := Peer(pol.ns, pol.name, pol.selector, d, NamespacePeer(pair, r.ports));
    assert RuleHas(r, item.clause);
    WalkedItem(sys, k, item);
    assert ItemTracks(sys.s, item) && UsesTag(item, NamespaceLabel(pair));
    NamespaceLabelSetHolds(u, sys, w, pair, far);
  }

  /** A rule of a policy in force means on the kernel's sets what it means on pods and namespaces. */
  lemma RuleMeans(u: Setup, sys: Sys, w: World, k: Key, d: Direction, r: PeerRule, p: Packet)
    requires Inv(u.nm, u.cfg, u.mean, sys) && sys.started && w.sets == sys.s.sets && k in sys.flushed.policies
    requires d in sys.flushed.policies[k].types && r in sys.flushed.policies[k].Rules(d)
    ensures RuleAllows(w, u.nm, sys.flushed.policies[k], d, r, p)
            <==> RuleAdmits(SceneOf(sys, w.inNet), sys.flushed.policies[k], d, r, p)
  {
    var pol, far := sys.flushed.policies[k], p.Address(FarSide(d));
    OwnIs(u, sys, w, k, d, p);
    forall i, pair | 0 <= i < |r.pods| && pair in Pairs(r.pods[i])
      ensures w.Has(LabelSet(u.nm, pol.ns, pair), far) <==> Labels(sys.flushed.pods, pol.ns, pair, far)
    {
      PodPeerIs(u, sys, w, k, d, r, i, pair, far);
    }
    forall i, pair | 0 <= i < |r.namespaces| && pair in Pairs(r.namespaces[i])
      ensures w.Has(NamespaceLabelSet(u.nm, pair), far) <==> InLabelled(sys.flushed, pair, far)
    {
      NamespacePeerIs(u, sys, w, k, d, r, i, pair, far);
    }
    RuleMeansParts(w, u.nm, SceneOf(sys, w.inNet), pol, d, r, p);
  }

  lemma RuleMeansParts(w: World, nm: Namer, v: Scene, pol: Policy, d: Direction, r: PeerRule, p: Packet)
    requires v.inNet == w.inNet
    requires OwnMatch(w, nm, pol.ns, pol.selector, d, p)
             <==> Selects(v.objects.pods, v.known, pol.ns, pol.selector, p.Address(OwnSide(d)))
    requires forall i, pair :: 0 <= i < |r.pods| && pair in Pairs(r.pods[i]) ==>
               (w.Has(LabelSet(nm, pol.ns, pair), p.Address(FarSide(d)))
                <==> Labels(v.objects.pods, pol.ns, pair, p.Address(FarSide(d))))
    requires forall i, pair :: 0 <= i < |r.namespaces| && pair in Pairs(r.namespaces[i]) ==>
               (w.Has(NamespaceLabelSet(nm, pair), p.Address(FarSide(d)))
                <==> InLabelled(v.objects, pair, p.Address(FarSide(d))))
    ensures RuleAllows(w, nm, pol, d, r, p) <==> RuleAdmits(v, pol, d, r, p)
  {
    assert PortsAdmit(r, p)
           <==> if r.pods == [] && r.namespaces == [] && r.blocks == [] then PortMatch(r.ports, p)
                    else r.ports == [] || PortMatch(r.ports, p);
  }

  lemma AllowsMeans(u: Setup, sys: Sys, w: World, ns: string, d: Direction, p: Packet)
    requires Inv(u.nm, u.cfg, u.mean, sys) && sys.started && w.sets == sys.s.sets
    ensures Allows(w, u.nm, sys.flushed.policies, ns, d, p) <==> Admits(SceneOf(sys, w.inNet), ns, d, p)
  {
    var policies := sys.flushed.policies;
    if Allows(w, u.nm, policies, ns, d, p) {
      var k, r :| k in policies && policies[k].ns == ns && d in policies[k].types && r in policies[k].Rules(d)
          && RuleAllows(w, u.nm, policies[k], d, r, p);
      RuleMeans(u, sys, w, k, d, r, p);
      assert InForce(policies, k, ns, d);
    }
    if Admits(SceneOf(sys, w.inNet), ns, d, p) {
      var k, r :| InForce(policies, k, ns, d) && r in policies[k].Rules(d)
          && RuleAdmits(SceneOf(sys, w.inNet), policies[k], d, r, p);
      RuleMeans(u, sys, w, k, d, r, p);
    }
  }

  lemma BlockItemOwner(sys: Sys, item: Item) returns (k: Key, r: PeerRule)
    requires Walks(sys.walk, sys.order, sys.flushed.policies) && item in WalkItems(sys.walk) && item.Peer?
             && item.clause.BlockPeer?
    ensures InForce(sys.flushed.policies, k, item.ns, item.dir) && r in sys.flushed.policies[k].Rules(item.dir)
    ensures sys.flushed.policies[k].selector == item.selector && RuleHas(r, item.clause)
  {
    WalkVisits(sys.walk, sys.order, sys.flushed.policies, item);
    k :| k in sys.flushed.policies && ItemOf(sys.flushed.policies[k], item);
    r :| r in sys.flushed.policies[k].Rules(item.dir) && RuleHas(r, item.clause);
  }

  /** A matching block item comes from a rule that allows the packet. */
  lemma BlockItemRule(u: Setup, sys: Sys, w: World, item: Item, p: Packet) returns (k: Key, r: PeerRule)
    requires Inv(u.nm, u.cfg, u.mean, sys) && sys.started && w.sets == sys.s.sets
    requires item in WalkItems(sys.walk) && item.Peer? && item.clause.BlockPeer? && ItemMatch(w, u.nm, item, p)
    ensures InForce(sys.flushed.policies, k, item.ns, item.dir) && r in sys.flushed.policies[k].Rules(item.dir)
    ensures item.clause.block in r.blocks && RuleAdmits(SceneOf(sys, w.inNet), sys.flushed.policies[k], item.dir, r, p)
  {
    k, r := BlockItemOwner(sys, item);
    RuleAllowsByClause(w, u.nm, sys.flushed.policies[k], item.dir, r, p);
    RuleMeans(u, sys, w, k, item.dir, r, p);
  }

  lemma ExceptHas(u: Setup, sys: Sys, w: World, item: Item, a: string)
    requires Inv(u.nm, u.cfg, u.mean, sys) && NetsInv(u.nm, u.cfg, u.flannel, sys) && w.sets == sys.s.sets
    requires item in WalkItems(sys.walk) && item.Peer? && item.clause.BlockPeer?
    ensures w.Has(ExceptOf(u.nm, item), a) <==> exists net :: net in item.clause.block.except && w.inNet(net, a)
  {
    assert ExceptRight(u.nm, sys.s.sets, item);
    assert sys.s.sets[ExceptOf(u.nm, item)].kind == HashNet;
  }

  /** An item that matches in the group of a block shares its except set, which lists what its own rule excepts. */
  lemma UnexceptedItem(u: Setup, sys: Sys, w: World, item: Item, other: Item, p: Packet)
    requires Inv(u.nm, u.cfg, u.mean, sys) && sys.started && NetsInv(u.nm, u.cfg, u.flannel, sys)
             && w.sets == sys.s.sets
    requires item.Peer? && item.clause.BlockPeer? && other.Peer? && GroupOf(other) == GroupOf(item)
    requires other in WalkItems(sys.walk) && ItemMatch(w, u.nm, other, p)
    requires NoneExcepts(SceneOf(sys, w.inNet), item.ns, item.dir, p)
    ensures !w.Has(ExceptOf(u.nm, item), p.Address(FarSide(item.dir)))
  {
    assert other.clause.BlockPeer? && ExceptOf(u.nm, other) == ExceptOf(u.nm, item);
    var k, r := BlockItemRule(u, sys, w, other, p);
    ExceptHas(u, sys, w, other, p.Address(FarSide(item.dir)));
  }

  lemma UnexceptedMeans(u: Setup, sys: Sys, w: World, ns: string, d: Direction, p: Packet)
    requires Inv(u.nm, u.cfg, u.mean, sys) && sys.started && NetsInv(u.nm, u.cfg, u.flannel, sys)
             && w.sets == sys.s.sets
    requires NoneExcepts(SceneOf(sys, w.inNet), ns, d, p)
    ensures Unexcepted(w, u.nm, WalkItems(sys.walk), ns, d, p)
  {
    var items, far := WalkItems(sys.walk), p.Address(FarSide(d));
    forall item | item in items && Belongs(item, ns, d) && item.clause.BlockPeer?
        && GroupMatch(w, u.nm, items, GroupOf(item), p)
      ensures !w.Has(ExceptOf(u.nm, item), far)
    {
      var j :| 0 <= j < |items| && items[j].Peer? && GroupOf(items[j]) == GroupOf(item)
          && ItemMatch(w, u.nm, items[j], p);
      UnexceptedItem(u, sys, w, item, items[j], p);
    }
  }

  // ---------- the kernel's verdict ----------

  ghost predicate InFlannel(u: Setup, a: string) {
    u.cfg.acceptFlannel && u.flannel.Some? && a in u.flannel.value
  }

  lemma ConfigMeans(u: Setup, sys: Sys, w: World, a: string)
    requires Inv(u.nm, u.cfg, u.mean, sys) && NetsInv(u.nm, u.cfg, u.flannel, sys) && w.sets == sys.s.sets
    ensures u.cfg.acceptFlannel ==> (w.Has(FlannelNetSet(u.nm), a) <==> InFlannel(u, a))
    ensures !u.cfg.Unlimited() ==> (w.Has(IpRangeSet(u.nm), a) <==> w.inNet(u.cfg.ipRange, a))
  {
    assert sys.s.sets[IpRangeSet(u.nm)].kind == HashNet && sys.s.sets[FlannelNetSet(u.nm)].kind == HashIp;
    if !u.cfg.Unlimited() && w.inNet(u.cfg.ipRange, a) {
      assert u.cfg.ipRange in sys.s.sets[IpRangeSet(u.nm)].members;
    }
  }

  /** The chain of a governed namespace, whatever blocks except. */
  lemma GovernedVerdict(u: Setup, sys: Sys, w: World, ns: string, d: Direction, p: Packet)
    requires Sound(u, sys) && sys.started && w.sets == sys.s.sets && Governed(sys.flushed.policies, ns, d)
    ensures NamespaceChain(u.nm, d, ns) in sys.s.table
    ensures Eval(w, sys.s.table, NamespaceChain(u.nm, d, ns), p)
                == NamespaceVerdict(w, u.nm, u.cfg, WalkItems(sys.walk), ns, d, p)
  {
    GovernedEntered(sys.flushed.policies, sys.walk, sys.order, ns, d);
    NamespaceChainVerdict(w, u.nm, u.cfg, WalkItems(sys.walk), sys.s.table, ns, d, p);
  }

  /**
   * The configured range, on its text. At every moment of a run, packets from (or to) accepted flannel
   * addresses and, unless the range is 0.0.0.0/0, addresses outside it are accepted; everything else
   * is left to connection tracking and the policies. So with 0.0.0.0/0 it does not matter what CIDR
   * membership says of the range.
   */
  lemma RangeDecides(u: Setup, states: seq<Sys>, acts: seq<Act>, i: nat, w: World, ns: string, d: Direction,
                     p: Packet)
    requires IsRun(u, states, acts) && i < |states| && states[i].started && w.sets == states[i].s.sets
    requires Governed(states[i].flushed.policies, ns, d)
    ensures NamespaceChain(u.nm, d, ns) in states[i].s.table && Sections(states[i].walk)
    ensures var far := if d.Ingress? then p.src else p.dst;
            Eval(w, states[i].s.table, NamespaceChain(u.nm, d, ns), p)
            == if || (u.cfg.acceptFlannel && u.flannel.Some? && far in u.flannel.value)
                  || (u.cfg.ipRange != "0.0.0.0/0" && !w.inNet(u.cfg.ipRange, far))
               then Accepted
               else PolicyVerdict(w, u.nm, WalkItems(states[i].walk), ns, d, p)
  {
    RunSound(u, states, acts, i);
    GovernedVerdict(u, states[i], w, ns, d, p);
    ConfigMeans(u, states[i], w, p.Address(FarSide(d)));
  }

  /** The kernel set of the range: the range, once synchronised, and never 0.0.0.0/0, which no set can hold. */
  lemma RunRangeSet(u: Setup, states: seq<Sys>, acts: seq<Act>, i: nat)
    requires IsRun(u, states, acts) && i < |states|
    ensures IpRangeSet(u.nm) in states[i].s.sets
    ensures states[i].s.sets[IpRangeSet(u.nm)].members
         == if states[i].started && u.cfg.ipRange != "0.0.0.0/0" then {u.cfg.ipRange} else {}
  {
    RunSound(u, states, acts, i);
  }

  /** Who may talk to (or from) the pods of a namespace some policy governs in this direction. */
  ghost predicate MayPass(u: Setup, v: Scene, ns: string, d: Direction, p: Packet) {
    || InFlannel(u, p.Address(FarSide(d)))
    || (!u.cfg.Unlimited() && !v.inNet(u.cfg.ipRange, p.Address(FarSide(d))))
    || p.established
    || Admits(v, ns, d, p)
  }

  lemma SoundVerdict(u: Setup, sys: Sys, w: World, ns: string, d: Direction, p: Packet)
    requires Sound(u, sys) && sys.started && w.sets == sys.s.sets && Governed(sys.flushed.policies, ns, d)
    requires NoneExcepts(SceneOf(sys, w.inNet), ns, d, p)
    ensures NamespaceChain(u.nm, d, ns) in sys.s.table
    ensures Eval(w, sys.s.table, NamespaceChain(u.nm, d, ns), p) == if MayPass(u, SceneOf(sys, w.inNet), ns, d, p)
                then Accepted else Rejected
  {
    UnexceptedMeans(u, sys, w, ns, d, p);
    CompilerCorrect(w, u.nm, u.cfg, sys.flushed.policies, sys.walk, sys.order, sys.s.table, ns, d, p);
    ConfigMeans(u, sys, w, p.Address(FarSide(d)));
    AllowsMeans(u, sys, w, ns, d, p);
  }

  /**
   * End to end. At every moment of every run after the first synchronisation, the kernel accepts in
   * the chain of a governed namespace exactly the packets that flannel, the ip range, connection
   * tracking or the policies let through, judged on the policies, pods and namespaces last flushed.
   */
  lemma KernelFollowsPolicies(u: Setup, states: seq<Sys>, acts: seq<Act>, i: nat, w: World, ns: string, d: Direction,
                              p: Packet)
    requires IsRun(u, states, acts) && i < |states| && states[i].started && w.sets == states[i].s.sets
    requires Governed(states[i].flushed.policies, ns, d) && NoneExcepts(SceneOf(states[i], w.inNet), ns, d, p)
    ensures NamespaceChain(u.nm, d, ns) in states[i].s.table
    ensures Eval(w, states[i].s.table, NamespaceChain(u.nm, d, ns), p)
         == if MayPass(u, SceneOf(states[i], w.inNet), ns, d, p) then Accepted else Rejected
  {
    RunSound(u, states, acts, i);
    SoundVerdict(u, states[i], w, ns, d, p);
  }

  /** Nothing waits to be flushed. */
  predicate Quiet(sys: Sys) {
    sys.podItems == map[] && sys.nsItems == map[] && sys.labelItems == map[] && sys.infoItems == map[]
        && sys.policyItems == map[]
  }

  /** The objects a packet is judged by when nothing is pending: the cluster's own. */
  ghost function StoreScene(sys: Sys, inNet: (string, string) -> bool): Scene {
    Scene(sys.store, sys.s.pml.Keys, inNet)
  }

  lemma QuietPod(sys: Sys, q: Key)
    requires PendingInv(sys) && Quiet(sys)
    ensures forall ns, ip :: PodAt(sys.flushed.pods, q, ns, ip) <==> PodAt(sys.store.pods, q, ns, ip)
    ensures forall ns, ip, pair ::
              PodAt(sys.flushed.pods, q, ns, ip)
              ==> (CarriesPair(sys.flushed.pods, q, pair) <==> CarriesPair(sys.store.pods, q, pair))
  {
    var a, b := Find(sys.flushed.pods, q), Find(sys.store.pods, q);
    assert PodNamespaceView(a) == PodNamespaceView(b);
    if Visible(a) && Visible(b) {
      var va, vb := PodNamespaceView(a).entries, PodNamespaceView(b).entries;
      assert va.Keys == {a.value.ns} && vb.Keys == {b.value.ns};
      assert a.value.ns in va.Keys;
      assert va[a.value.ns].Keys == {a.value.ip} && vb[b.value.ns].Keys == {b.value.ip};
      assert a.value.ip in va[a.value.ns].Keys;
      assert va[a.value.ns][a.value.ip] == Info(a.value) && vb[b.value.ns][b.value.ip] == Info(b.value);
    }
  }

  lemma QuietObjects(sys: Sys)
    requires PendingInv(sys) && Quiet(sys)
    ensures sys.flushed.policies == sys.store.policies && sys.flushed.namespaces.Keys == sys.store.namespaces.Keys
    ensures forall ns ::
              ns in sys.store.namespaces ==> sys.flushed.namespaces[ns].labels == sys.store.namespaces[ns].labels
  {
    forall k ensures Find(sys.flushed.policies, k) == Find(sys.store.policies, k) {
      assert k !in sys.policyItems;
      assert Itself(Find(sys.flushed.policies, k)) == Itself(Find(sys.store.policies, k));
    }
    SameFinds(sys.flushed.policies, sys.store.policies);
    forall ns ensures NamespaceInfo(Find(sys.flushed.namespaces, ns)) == NamespaceInfo(Find(sys.store.namespaces, ns)) {
      assert ns !in sys.infoItems;
    }
    SameInfos(sys.flushed.namespaces, sys.store.namespaces);
  }

  lemma SameFinds<K, O>(a: map<K, O>, b: map<K, O>)
    requires forall k :: Find(a, k) == Find(b, k)
    ensures a == b
  {
    forall k ensures k in a <==> k in b {
      assert Find(a, k) == Find(b, k);
    }
    forall k | k in a ensures a[k] == b[k] {
      assert Find(a, k) == Find(b, k);
    }
  }

  lemma SameInfos(a: map<string, Namespace>, b: map<string, Namespace>)
    requires forall ns :: NamespaceInfo(Find(a, ns)) == NamespaceInfo(Find(b, ns))
    ensures a.Keys == b.Keys && forall ns :: ns in b ==> a[ns].labels == b[ns].labels
  {
    forall ns ensures ns in a <==> ns in b {
      assert NamespaceInfo(Find(a, ns)) == NamespaceInfo(Find(b, ns));
    }
    forall ns | ns in b ensures a[ns].labels == b[ns].labels {
      assert NamespaceInfo(Find(a, ns)) == NamespaceInfo(Find(b, ns));
    }
  }

  lemma QuietAddresses(sys: Sys)
    requires PendingInv(sys) && Quiet(sys)
    ensures forall ns, ip :: InNamespace(sys.flushed.pods, ns, ip) <==> InNamespace(sys.store.pods, ns, ip)
    ensures forall ns, pair, ip :: Labels(sys.flushed.pods, ns, pair, ip) <==> Labels(sys.store.pods, ns, pair, ip)
    ensures forall known, ns, selector, ip ::
              Selects(sys.flushed.pods, known, ns, selector, ip) <==> Selects(sys.store.pods, known, ns, selector, ip)
  {
    var a, b := sys.flushed.pods, sys.store.pods;
    forall q, ns, ip ensures PodAt(a, q, ns, ip) <==> PodAt(b, q, ns, ip) {
      QuietPod(sys, q);
    }
    forall q, ns, ip, pair | PodAt(a, q, ns, ip) ensures CarriesPair(a, q, pair) <==> CarriesPair(b, q, pair) {
      QuietPod(sys, q);
    }
    forall known, ns, selector, ip
      ensures Selects(a, known, ns, selector, ip) <==> Selects(b, known, ns, selector, ip)
    {
      forall q | PodAt(a, q, ns, ip)
        ensures CarriesKnown(a, known, ns, selector, q) <==> CarriesKnown(b, known, ns, selector, q)
      {}
    }
  }

  lemma QuietRule(sys: Sys, inNet: (string, string) -> bool, pol: Policy, d: Direction, r: PeerRule, p: Packet)
    requires PendingInv(sys) && Quiet(sys)
    ensures RuleAdmits(SceneOf(sys, inNet), pol, d, r, p) <==> RuleAdmits(StoreScene(sys, inNet), pol, d, r, p)
  {
    QuietAddresses(sys);
    QuietObjects(sys);
    forall pair, ip ensures InLabelled(sys.flushed, pair, ip) <==> InLabelled(sys.store, pair, ip) {
      forall ns ensures InNamespace(sys.flushed.pods, ns, ip) <==> InNamespace(sys.store.pods, ns, ip) {}
    }
    QuietPeers(sys, SceneOf(sys, inNet), StoreScene(sys, inNet), pol.ns, r, p.Address(FarSide(d)));
  }

  lemma QuietPeers(sys: Sys, v: Scene, v': Scene, ns: string, r: PeerRule, far: string)
    requires v'.inNet == v.inNet
    requires forall pair :: Labels(v.objects.pods, ns, pair, far) <==> Labels(v'.objects.pods, ns, pair, far)
    requires forall pair :: InLabelled(v.objects, pair, far) <==> InLabelled(v'.objects, pair, far)
    ensures PodsAdmit(v, ns, r, far) <==> PodsAdmit(v', ns, r, far)
    ensures NamespacesAdmit(v, r, far) <==> NamespacesAdmit(v', r, far)
    ensures BlocksAdmit(v, r, far) <==> BlocksAdmit(v', r, far)
  {}

  /** When nothing is pending the packet may as well be judged by the cluster's own objects. */
  lemma QuietMeans(u: Setup, sys: Sys, inNet: (string, string) -> bool, ns: string, d: Direction, p: Packet)
    requires PendingInv(sys) && Quiet(sys)
    ensures MayPass(u, SceneOf(sys, inNet), ns, d, p) <==> MayPass(u, StoreScene(sys, inNet), ns, d, p)
    ensures NoneExcepts(SceneOf(sys, inNet), ns, d, p) <==> NoneExcepts(StoreScene(sys, inNet), ns, d, p)
    ensures sys.flushed.policies == sys.store.policies
  {
    QuietObjects(sys);
    forall pol, r
      ensures RuleAdmits(SceneOf(sys, inNet), pol, d, r, p) <==> RuleAdmits(StoreScene(sys, inNet), pol, d, r, p)
    {
      QuietRule(sys, inNet, pol, d, r, p);
    }
  }

  /** Once everything is flushed, the kernel decides by the cluster's present policies, pods and namespaces. */
  lemma QuietKernelFollowsCluster(u: Setup, states: seq<Sys>, acts: seq<Act>, i: nat, w: World, ns: string,
                                  d: Direction, p: Packet)
    requires IsRun(u, states, acts) && i < |states| && states[i].started && Quiet(states[i])
             && w.sets == states[i].s.sets
    requires Governed(states[i].store.policies, ns, d) && NoneExcepts(StoreScene(states[i], w.inNet), ns, d, p)
    ensures NamespaceChain(u.nm, d, ns) in states[i].s.table
    ensures Eval(w, states[i].s.table, NamespaceChain(u.nm, d, ns), p)
         == if MayPass(u, StoreScene(states[i], w.inNet), ns, d, p) then Accepted else Rejected
  {
    RunSound(u, states, acts, i);
    QuietMeans(u, states[i], w.inNet, ns, d, p);
    SoundVerdict(u, states[i], w, ns, d, p);
  }

  // ---------- every kernel operation of a run is legal ----------

  /** No foreign chain jumps to or matches on anything generated, and no foreign set looks generated. */
  ghost predicate KernelClean(s: State) {
    ForeignClean(s.table) && ForeignIgnores(s.table) && KnownSets(s)
  }

  lemma ResultForeign(nm: Namer, cfg: Config, items: seq<Item>, t: Table)
    ensures ForeignPart(Result(nm, cfg, items, t)) == ForeignPart(t)
  {
    ResultExact(nm, cfg, items, t);
  }

  lemma CleanByForeign(s: State, s': State)
    requires KernelClean(s) && ForeignPart(s'.table) == ForeignPart(s.table)
    requires forall n: SetName :: n in s'.sets && n.ForeignSet? ==> n in s.sets
    ensures KernelClean(s')
  {
    forall c, i | c in s'.table && c.Foreign? && 0 <= i < |s'.table[c]| && s'.table[c][i].target.Jump?
      ensures !Dynamic(s'.table[c][i].target.chain)
    {
      assert c in ForeignPart(s'.table) && ForeignPart(s'.table)[c] == s.table[c];
    }
  }

  lemma ItemForeign(nm: Namer, item: Item, sets: Sets)
    ensures forall n: SetName :: n in ItemSets(nm, item, sets) && n.ForeignSet? ==> n in sets
  {
    assert forall n: SetName :: n in SetsOf(nm, item) ==> !n.ForeignSet?;
  }

  lemma {:induction false} AppliedForeign(nm: Namer, items: seq<Item>, s: State)
    ensures forall n: SetName :: n in Applied(nm, items, s).sets && n.ForeignSet? ==> n in s.sets
    ensures Applied(nm, items, s).table == s.table
  {
    if items != [] {
      AppliedForeign(nm, items[..|items| - 1], s);
      ItemForeign(nm, items[|items| - 1], Applied(nm, items[..|items| - 1], s).sets);
    }
  }

  lemma RulesClean(nm: Namer, cfg: Config, s: State, items: seq<Item>, tags: seq<Tag>)
    requires KernelClean(s)
    ensures KernelClean(RulesAndSets(nm, cfg, s, items, tags))
  {
    AppliedForeign(nm, items, s.(active := {IpRangeSet(nm), FlannelNetSet(nm)}));
    ResultForeign(nm, cfg, items, s.table);
    FullKeeps(RulesSynced(nm, cfg, items, s), tags);
    CleanByForeign(s, RulesAndSets(nm, cfg, s, items, tags));
  }

  lemma NextClean(u: Setup, sys: Sys, a: Act)
    requires Trackable(sys.s) && Enabled(u, sys, a) && KernelClean(sys.s)
    ensures KernelClean(Next(u, sys, a).s)
  {
    match a
    case PodChanges(_, _) =>
    case NamespaceChanges(_, _) =>
    case PolicyChanges(_, _) =>
    case FirstSync(podOrder, nsOrder, infoOrder, ls, _, tags) => AllClean(u,
        FirstFlush(sys, podOrder, nsOrder, infoOrder).s, ls, tags);
    case SyncAll(ls, _, tags) => AllClean(u, sys.s, ls, tags);
    case SyncPolicies(ls, _, tags) => RulesClean(u.nm, u.cfg, sys.s, WalkItems(ls), tags);
    case SyncPods(podOrder, nsOrder, labelOrder, visits) =>
      VisitsClean(PodFlushed(sys.s, sys.infos, sys.podItems, sys.nsItems, sys.labelItems, podOrder, nsOrder,
          labelOrder), visits);
    case SyncNamespaces(infoOrder, visits) => VisitsClean(NamespaceFlushed(sys.s, sys.infoItems, infoOrder), visits);
  }

  lemma VisitsClean(s: State, visits: seq<Visit>)
    requires KernelClean(s) && Trackable(s)
    ensures KernelClean(TryAll(s, visits))
  {
    VisitsKeep(s, visits);
    CleanByForeign(s, TryAll(s, visits));
  }

  lemma AllClean(u: Setup, s: State, ls: seq<ListedPolicy>, tags: seq<Tag>)
    requires KernelClean(s) && Sections(ls)
    ensures KernelClean(Collected(RulesAndSets(u.nm, u.cfg, s.(sets := ConfigSynced(u.nm, u.cfg, u.flannel, s.sets)),
                WalkItems(ls), tags)))
  {
    var s0 := s.(sets := ConfigSynced(u.nm, u.cfg, u.flannel, s.sets));
    CleanByForeign(s, s0);
    RulesClean(u.nm, u.cfg, s0, WalkItems(ls), tags);
    var s1 := RulesAndSets(u.nm, u.cfg, s0, WalkItems(ls), tags);
    CleanByForeign(s1, Collected(s1));
  }

  lemma SoundTrackable(u: Setup, sys: Sys)
    requires Sound(u, sys)
    ensures Trackable(sys.s)
  {
    ConsistentTrackable(sys.s, u.mean);
  }

  lemma RunTrackable(u: Setup, states: seq<Sys>, acts: seq<Act>, i: nat)
    requires IsRun(u, states, acts) && i < |states|
    ensures Trackable(states[i].s)
  {
    RunSound(u, states, acts, i);
    SoundTrackable(u, states[i]);
  }

  lemma {:induction false} RunClean(u: Setup, states: seq<Sys>, acts: seq<Act>, i: nat)
    requires IsRun(u, states, acts) && i < |states| && KernelClean(states[0].s)
    ensures KernelClean(states[i].s)
  {
    if i > 0 {
      RunClean(u, states, acts, i - 1);
      RunTrackable(u, states, acts, i - 1);
      NextClean(u, states[i - 1], acts[i - 1]);
    }
  }

  ghost predicate MakesRules(a: Act) { a.FirstSync? || a.SyncAll? || a.SyncPolicies? }

  /**
   * The policies a synchronisation makes rules of: a full one does not take over pending changes,
   * unless it is the first.
   */
  ghost function RulePolicies(sys: Sys, a: Act): map<Key, Policy> {
    if a.SyncAll? then sys.flushed.policies else sys.store.policies
  }

  /** The state in which a synchronisation starts to make rules. */
  ghost function RulesBase(u: Setup, sys: Sys, a: Act): State
    requires MakesRules(a) && Enabled(u, sys, a)
  {
    if a.SyncPolicies? then sys.s
    else
      var s := if a.FirstSync? then FirstFlush(sys, a.podOrder, a.nsOrder, a.infoOrder).s else sys.s;
      s.(sets := ConfigSynced(u.nm, u.cfg, u.flannel, s.sets))
  }

  /** What making rules needs of that state. */
  ghost predicate Restorable(u: Setup, s: State) {
    WellTracked(s, u.mean) && NothingStray(s, u.mean) && Named(u.nm, s) && Kinds(s) && HasConfigSets(u.nm, s)
    && KernelClean(s)
  }

  lemma ConfigRestorable(u: Setup, s: State)
    requires Restorable(u, s)
    ensures Restorable(u, s.(sets := ConfigSynced(u.nm, u.cfg, u.flannel, s.sets)))
  {
    ConfigKeeps(u.nm, u.cfg, u.flannel, s, u.mean);
    ConfigKeys(u, s);
    CleanByForeign(s, s.(sets := ConfigSynced(u.nm, u.cfg, u.flannel, s.sets)));
  }

  lemma ConfigKeys(u: Setup, s: State)
    requires HasConfigSets(u.nm, s)
    ensures ConfigSynced(u.nm, u.cfg, u.flannel, s.sets).Keys == s.sets.Keys
  {}

  lemma FirstRestorable(u: Setup, sys: Sys, a: Act)
    requires Sound(u, sys) && Enabled(u, sys, a) && a.FirstSync? && KernelClean(sys.s)
    ensures var s := FirstFlush(sys, a.podOrder, a.nsOrder, a.infoOrder).s;
                Restorable(u, s) && s.table == sys.s.table && s.sets == sys.s.sets
  {
    FirstFlushInv(u.nm, u.cfg, u.mean, sys, a.podOrder, a.nsOrder, a.infoOrder);
    CleanByForeign(sys.s, FirstFlush(sys, a.podOrder, a.nsOrder, a.infoOrder).s);
  }

  lemma SoundRestorable(u: Setup, sys: Sys)
    requires Sound(u, sys) && KernelClean(sys.s)
    ensures Restorable(u, sys.s)
  {}

  lemma BaseRestorable(u: Setup, sys: Sys, a: Act)
    requires Sound(u, sys) && MakesRules(a) && Enabled(u, sys, a) && KernelClean(sys.s)
    ensures Restorable(u, RulesBase(u, sys, a)) && RulesBase(u, sys, a).table == sys.s.table
            && RulesBase(u, sys, a).sets.Keys == sys.s.sets.Keys
  {
    if a.FirstSync? {
      FirstRestorable(u, sys, a);
    } else {
      SoundRestorable(u, sys);
    }
    var s := if a.FirstSync? then FirstFlush(sys, a.podOrder, a.nsOrder, a.infoOrder).s else sys.s;
    ConfigRestorable(u, s);
    ConfigKeys(u, s);
  }

  /** The sets and rules a synchronisation leaves, before and after garbage collection. */
  lemma RulesResult(u: Setup, sys: Sys, a: Act)
    requires MakesRules(a) && Enabled(u, sys, a)
    ensures RulesReady(u.nm, u.cfg, u.mean, RulesBase(u, sys, a), RulePolicies(sys, a), a.ls, a.order, a.tags)
    ensures var s := RulesAndSets(u.nm, u.cfg, RulesBase(u, sys, a), WalkItems(a.ls), a.tags);
            Next(u, sys, a).s == if a.SyncPolicies? then s else Collected(s)
  {}

  lemma RestoresAt(u: Setup, s: State, policies: map<Key, Policy>, ls: seq<ListedPolicy>, order: seq<Key>,
                   tags: seq<Tag>, plies: seq<Chain>, stale: seq<Chain>)
    requires Restorable(u, s) && RulesReady(u.nm, u.cfg, u.mean, s, policies, ls, order, tags)
    requires Enumerates(plies, Plies(u.nm, u.cfg, WalkItems(ls)))
             && Enumerates(stale, Stale(u.nm, u.cfg, WalkItems(ls), s.table))
    ensures var items := WalkItems(ls);
            Restore(s.table, RulesSynced(u.nm, u.cfg, items, s).sets.Keys, ScriptChains(u.nm, u.cfg, items, stale),
                ScriptCmds(u.nm, u.cfg, items, plies, stale))
            == Some(RulesAndSets(u.nm, u.cfg, s, items, tags).table)
  {
    var items := WalkItems(ls);
    WalkBegun(ls, order, policies);
    WalkActive(u.nm, items, s.(active := {IpRangeSet(u.nm), FlannelNetSet(u.nm)}));
    RestoreExact(u.nm, u.cfg, items, plies, stale, s.table, RulesSynced(u.nm, u.cfg, items, s).sets.Keys);
    FullKeeps(RulesSynced(u.nm, u.cfg, items, s), tags);
  }

  /**
   * At every synchronisation of a run that makes rules, the restore script is accepted with the sets
   * the walk has created, and what it leaves is the table of the next state.
   */
  lemma RunRestores(u: Setup, states: seq<Sys>, acts: seq<Act>, i: nat, plies: seq<Chain>, stale: seq<Chain>)
    requires IsRun(u, states, acts) && i < |acts| && MakesRules(acts[i]) && KernelClean(states[0].s)
    requires Enumerates(plies, Plies(u.nm, u.cfg, WalkItems(acts[i].ls)))
    requires Enumerates(stale, Stale(u.nm, u.cfg, WalkItems(acts[i].ls), states[i].s.table))
    ensures Enabled(u, states[i], acts[i])
    ensures var s, items := RulesBase(u, states[i], acts[i]), WalkItems(acts[i].ls);
            Restore(states[i].s.table, RulesSynced(u.nm, u.cfg, items, s).sets.Keys,
                ScriptChains(u.nm, u.cfg, items, stale), ScriptCmds(u.nm, u.cfg, items, plies, stale))
            == Some(states[i + 1].s.table)
  {
    var sys, a := states[i], acts[i];
    RunSound(u, states, acts, i);
    RunClean(u, states, acts, i);
    BaseRestorable(u, sys, a);
    RulesResult(u, sys, a);
    RestoresAt(u, RulesBase(u, sys, a), RulePolicies(sys, a), a.ls, a.order, a.tags, plies, stale);
  }

  /** What garbage collection leaves: foreign sets and active ones, and every set a rule refers to. */
  ghost predicate CollectedTo(s: State, s': State, n: SetName) {
    && (n in s'.sets && !n.ForeignSet? ==> n in s'.active)
    && (n in s'.active ==> n in s'.sets)
    && (SetReferenced(s'.table, n) && !n.ForeignSet? ==> n in s'.sets)
    && (forall tag :: tag in s'.tracked ==> s'.tracked[tag] in s'.active)
    && (n.ForeignSet? ==> (n in s'.sets <==> n in s.sets))
  }

  /**
   * At every synchronisation of everything, the first one included, collection leaves exactly the
   * foreign sets and the active ones, and every set a rule refers to is still there.
   */
  lemma RunCollects(u: Setup, states: seq<Sys>, acts: seq<Act>, i: nat, n: SetName)
    requires IsRun(u, states, acts) && i < |acts| && (acts[i].FirstSync? || acts[i].SyncAll?)
             && KernelClean(states[0].s)
    ensures CollectedTo(states[i].s, states[i + 1].s, n)
  {
    var sys, a := states[i], acts[i];
    RunSound(u, states, acts, i);
    RunClean(u, states, acts, i);
    BaseRestorable(u, sys, a);
    RulesResult(u, sys, a);
    CollectsAt(u, RulesBase(u, sys, a), RulePolicies(sys, a), a.ls, a.order, a.tags, n);
    CollectedFrom(sys.s, RulesBase(u, sys, a), Next(u, sys, a).s, n);
  }

  lemma CollectedFrom(s: State, s0: State, s': State, n: SetName)
    requires CollectedTo(s0, s', n) && s0.sets.Keys == s.sets.Keys
    ensures CollectedTo(s, s', n)
  {}

  lemma CollectsAt(u: Setup, s: State, policies: map<Key, Policy>, ls: seq<ListedPolicy>, order: seq<Key>,
                   tags: seq<Tag>, n: SetName)
    requires Restorable(u, s) && RulesReady(u.nm, u.cfg, u.mean, s, policies, ls, order, tags)
    ensures CollectedTo(s, Collected(RulesAndSets(u.nm, u.cfg, s, WalkItems(ls), tags)), n)
  {
    var items := WalkItems(ls);
    RuleSyncConsistent(u.nm, u.cfg, items, s, u.mean, tags);
    RulesClean(u.nm, u.cfg, s, items, tags);
    WalkBegun(ls, order, policies);
    CollectionExact(u.nm, u.cfg, items, RulesAndSets(u.nm, u.cfg, s, items, tags), s.table);
    AppliedForeign(u.nm, items, s.(active := {IpRangeSet(u.nm), FlannelNetSet(u.nm)}));
    AppliedOthers(u.nm, items, s.(active := {IpRangeSet(u.nm), FlannelNetSet(u.nm)}));
    FullKeeps(RulesSynced(u.nm, u.cfg, items, s), tags);
  }

  // ---------- evaluation ends ----------

  /** At every moment of a run after the first synchronisation, no packet gets stuck in any generated chain. */
  lemma RunNeverStuck(u: Setup, states: seq<Sys>, acts: seq<Act>, i: nat, w: World, c: Chain, p: Packet)
    requires IsRun(u, states, acts) && i < |states| && states[i].started && c in states[i].s.table && !c.Foreign?
    ensures Eval(w, states[i].s.table, c, p) != Stuck
  {
    RunSound(u, states, acts, i);
    NeverStuck(w, states[i].s.table, c, states[i].s.table[c], p);
  }

  // ---------- steps, from what a synchronisation has done ----------

  lemma ReadyForRules(u: Setup, sys: Sys)
    requires Sound(u, sys) && KernelClean(sys.s)
    ensures ForeignClean(sys.s.table) && HasConfigSets(u.nm, sys.s)
  {}

  /** A synchronisation of everything on the part of the state it works on. */
  ghost function AllOf(nm: Namer, cfg: Config, flannel: Option<set<string>>, policies: map<Key, Policy>, s: State,
                       ls: seq<ListedPolicy>, order: seq<Key>, tags: seq<Tag>): Option<State> {
    var s0 := s.(sets := ConfigSynced(nm, cfg, flannel, s.sets));
    if Walks(ls, order, policies) && Covers(RulesSynced(nm, cfg, WalkItems(ls), s0), tags)
    then Some(Collected(RulesAndSets(nm, cfg, s0, WalkItems(ls), tags)))
    else None
  }

  lemma AllStep(u: Setup, sys: Sys, sys': Sys, ls: seq<ListedPolicy>, order: seq<Key>, tags: seq<Tag>)
    requires sys.started && NamesAgree(u, sys.flushed.policies)
    requires AllOf(u.nm, u.cfg, u.flannel, sys.flushed.policies, sys.s, ls, order, tags) == Some(sys'.s)
    requires sys' == sys.(s := sys'.s, walk := ls, order := order)
    ensures Taken(u, sys, SyncAll(ls, order, tags)) == Some(sys')
  {}

  ghost function FirstFlushed(sys: Sys, podOrder: seq<Key>, nsOrder: seq<Key>, infoOrder: seq<string>): Option<Sys> {
    if FirstOrders(sys, podOrder, nsOrder, infoOrder) then Some(FirstFlush(sys, podOrder, nsOrder, infoOrder)) else None
  }

  lemma FirstStep(u: Setup, sys: Sys, mid: Sys, sys': Sys, podOrder: seq<Key>, nsOrder: seq<Key>,
                  infoOrder: seq<string>, ls: seq<ListedPolicy>, order: seq<Key>, tags: seq<Tag>)
    requires !sys.started && NamesAgree(u, sys.store.policies) && PodsApart(sys.flushed.pods, sys.store.pods)
    requires FirstFlushed(sys, podOrder, nsOrder, infoOrder) == Some(mid)
    requires AllOf(u.nm, u.cfg, u.flannel, sys.store.policies, mid.s, ls, order, tags) == Some(sys'.s)
    requires sys' == mid.(s := sys'.s, walk := ls, order := order, started := true)
    ensures Taken(u, sys, FirstSync(podOrder, nsOrder, infoOrder, ls, order, tags)) == Some(sys')
  {}

  lemma PodsStep(u: Setup, sys: Sys, sys': Sys, podOrder: seq<Key>, nsOrder: seq<Key>, labelOrder: seq<Key>,
                 visits: seq<Visit>)
    requires sys.started && PodOrders(sys, podOrder, nsOrder, labelOrder) && PodsApart(sys.flushed.pods, sys.store.pods)
    requires VisitsPods(sys.s, sys.infos, sys.podItems, sys.nsItems, sys.labelItems, visits)
    requires sys' == PodSync(sys, podOrder, nsOrder, labelOrder, visits)
    ensures Taken(u, sys, SyncPods(podOrder, nsOrder, labelOrder, visits)) == Some(sys')
  {}

  lemma NamespacesStep(u: Setup, sys: Sys, sys': Sys, infoOrder: seq<string>, visits: seq<Visit>)
    requires sys.started && Enumerates(infoOrder, sys.infoItems.Keys) && VisitsNamespaces(sys.infoItems, visits)
    requires sys' == NamespaceSync(sys, infoOrder, visits)
    ensures Taken(u, sys, SyncNamespaces(infoOrder, visits)) == Some(sys')
  {}

  lemma PoliciesStep(u: Setup, sys: Sys, sys': Sys, ls: seq<ListedPolicy>, order: seq<Key>, tags: seq<Tag>)
    requires sys.started && NamesAgree(u, sys.store.policies) && Walks(ls, order, sys.store.policies)
    requires Covers(RulesSynced(u.nm, u.cfg, WalkItems(ls), sys.s), tags)
    requires sys' == sys.(s := RulesAndSets(u.nm, u.cfg, sys.s, WalkItems(ls), tags),
                 flushed := sys.flushed.(policies := sys.store.policies),
                          policyItems := map[], walk := ls, order := order)
    ensures Taken(u, sys, SyncPolicies(ls, order, tags)) == Some(sys')
  {}
}
