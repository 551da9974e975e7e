/**
 * What the cluster reports and what the kernel does, with nothing of the controller's in between:
 * pods, namespaces, policies and the configuration are read off their own fields.
 */
module Reports {
  import opened Options
  import opened Names
  import opened Naming
  import opened Netfilter
  import opened Policies
  import opened PolicySpecs
  import opened Pods
  import opened Compiler
  import opened Verdicts
  import opened Entries
  import opened Indexes
  import opened Reconciler
  import opened Cluster
  import opened Runs
  import opened EndToEnd

  // ---------- pods ----------

  /** A pod of the namespace that has this address for itself and has not ended. */
  ghost predicate Live(pods: map<Key, Pod>, q: Key, ns: string, a: string) {
    && q in pods && pods[q].ns == ns && pods[q].ip == a && a != "" && !pods[q].hostNetwork
    && !pods[q].phase.Succeeded? && !pods[q].phase.Failed?
  }

  lemma LiveIs(pods: map<Key, Pod>, q: Key, ns: string, a: string)
    ensures PodAt(pods, q, ns, a) <==> Live(pods, q, ns, a)
  {}

  ghost predicate SomeLive(pods: map<Key, Pod>, a: string) {
    exists q, ns :: Live(pods, q, ns, a)
  }

  lemma SelectedLives(pods: map<Key, Pod>, known: set<NsLabel>, ns: string, selector: Selector, a: string)
    requires selector != map[] && Selects(pods, known, ns, selector, a)
    ensures SomeLive(pods, a)
  {
    var q :| PodAt(pods, q, ns, a) && CarriesKnown(pods, known, ns, selector, q);
    LiveIs(pods, q, ns, a);
  }

  lemma TrackedLives(u: Setup, sys: Sys, tag: Tag, a: string)
    requires Inv(u.nm, u.cfg, u.mean, sys) && tag in sys.s.tracked
    requires TagWell(sys.s.selectors, u.mean, tag, sys.s.tracked[tag])
    requires a in Desired(sys.s, Means(sys.s.selectors, tag))
    ensures SomeLive(sys.flushed.pods, a)
  {
    var pods, known := sys.flushed.pods, sys.s.pml.Keys;
    match tag
    case PodLabel(l) =>
      IndexedSelector(sys, l.ns, map[l.pair.key := l.pair.value], a);
      SelectedLives(pods, known, l.ns, map[l.pair.key := l.pair.value], a);
    case XLabel(k) =>
      IndexedSelector(sys, sys.s.selectors[k].ns, sys.s.selectors[k].selector, a);
      SelectedLives(pods, known, sys.s.selectors[k].ns, sys.s.selectors[k].selector, a);
    case NamespacePods(ns) =>
      IndexedNamespace(sys, ns, a);
      var q :| PodAt(pods, q, ns, a);
      LiveIs(pods, q, ns, a);
    case NamespaceLabel(pair) =>
      IndexedByNamespaceLabel(sys, pair, a);
      var ns :| ns in sys.flushed.namespaces && pair in Pairs(sys.flushed.namespaces[ns].labels.Entries())
          && InNamespace(pods, ns, a);
      var q :| PodAt(pods, q, ns, a);
      LiveIs(pods, q, ns, a);
  }

  /**
   * At every moment of a run, every address in a tracked pod set is that of a flushed pod which has it
   * for itself: not one on the host network, and not one that has ended.
   */
  lemma RunHoldsLivePods(u: Setup, states: seq<Sys>, acts: seq<Act>, i: nat, tag: Tag, a: string)
    requires IsRun(u, states, acts) && i < |states| && tag in states[i].s.tracked
    ensures states[i].s.tracked[tag] in states[i].s.sets
    ensures a in states[i].s.sets[states[i].s.tracked[tag]].members ==>
              exists q ::
                && q in states[i].flushed.pods && states[i].flushed.pods[q].ip == a && a != ""
                && !states[i].flushed.pods[q].hostNetwork
                && !states[i].flushed.pods[q].phase.Succeeded? && !states[i].flushed.pods[q].phase.Failed?
  {
    var sys := states[i];
    var name := sys.s.tracked[tag];
    RunSound(u, states, acts, i);
    assert TagWell(sys.s.selectors, u.mean, tag, name) && name in sys.s.sets;
    assert Good(sys.s, u.mean, name);
    if a in sys.s.sets[name].members {
      TrackedLives(u, sys, tag, a);
      var q, ns :| Live(sys.flushed.pods, q, ns, a);
    }
  }

  /** The set of a namespace, while it is tracked, holds the addresses of its live pods. */
  lemma RunNamespaceSet(u: Setup, states: seq<Sys>, acts: seq<Act>, i: nat, ns: string, a: string)
    requires IsRun(u, states, acts) && i < |states| && NamespacePods(ns) in states[i].s.tracked
    ensures NamespaceSet(u.nm, ns) in states[i].s.sets
    ensures a in states[i].s.sets[NamespaceSet(u.nm, ns)].members
       <==> exists q :: Live(states[i].flushed.pods, q, ns, a)
  {
    var sys, tag := states[i], NamespacePods(ns);
    RunSound(u, states, acts, i);
    assert NamedTag(u.nm, sys.s.selectors, tag, sys.s.tracked[tag]);
    assert TagWell(sys.s.selectors, u.mean, tag, sys.s.tracked[tag]) && Good(sys.s, u.mean, sys.s.tracked[tag]);
    IndexedNamespace(sys, ns, a);
    if q :| PodAt(sys.flushed.pods, q, ns, a) {
      LiveIs(sys.flushed.pods, q, ns, a);
    }
    if q :| Live(sys.flushed.pods, q, ns, a) {
      LiveIs(sys.flushed.pods, q, ns, a);
    }
  }
  // ---------- policies ----------

  /** A live pod of the namespace at this address carries the pair. */
  ghost predicate LiveWith(pods: map<Key, Pod>, ns: string, pair: Label, a: string) {
    exists q :: Live(pods, q, ns, a) && Picks(Some(pods[q].labels.Entries()), pair)
  }

  /** The selector asks for the pair, and a live pod of the namespace at this address carries it. */
  ghost predicate PodsReport(v: Scene, ns: string, selector: Option<Selector>, a: string) {
    exists pair :: Picks(selector, pair) && LiveWith(v.objects.pods, ns, pair, a)
  }

  /** A live pod at this address is in a namespace that carries one of the pairs asked for. */
  ghost predicate NamespacesReport(v: Scene, selector: Option<Selector>, a: string) {
    exists pair, ns, q ::
      Picks(selector, pair) && ns in v.objects.namespaces
      && Picks(Some(v.objects.namespaces[ns].labels.Entries()), pair) && Live(v.objects.pods, q, ns, a)
  }

  ghost predicate PeerReport(v: Scene, ns: string, peer: PeerSpec, a: string) {
    || PodsReport(v, ns, peer.podSelector, a)
    || NamespacesReport(v, peer.namespaceSelector, a)
    || (peer.ipBlock.Some? && v.inNet(peer.ipBlock.value.cidr, a))
  }

  /** One of the reported ports is the packet's. */
  ghost predicate PortsReport(r: RuleSpec, p: Packet) {
    exists port :: port in r.ports && port.protocol == p.protocol && port.port == p.port
  }

  /** The pods a policy is about: of those pairs that have been seen in its namespace, they carry all. */
  ghost predicate OwnReport(v: Scene, spec: PolicySpec, a: string) {
    spec.podSelector == map[] ||
    ((exists pair :: Picks(Some(spec.podSelector), pair) && NsLabel(spec.ns, pair) in v.known)
     && exists q :: Live(v.objects.pods, q, spec.ns, a)
                    && forall pair :: Picks(Some(spec.podSelector), pair) && NsLabel(spec.ns, pair) in v.known
                                      ==> Picks(Some(v.objects.pods[q].labels.Entries()), pair))
  }

  /** A reported rule admits a packet between these two addresses. */
  ghost predicate RuleReport(v: Scene, spec: PolicySpec, r: RuleSpec, own: string, far: string, p: Packet) {
    && OwnReport(v, spec, own)
    && (PortsReport(r, p) || (r.ports == [] && !Bare(r.peers)))
    && (Bare(r.peers) || exists peer :: peer in r.peers && PeerReport(v, spec.ns, peer, far))
  }

  /** The reported rules of a direction. */
  ghost predicate Reported(specs: map<Key, PolicySpec>, k: Key, ns: string, d: Direction, r: RuleSpec) {
    && k in specs && specs[k].ns == ns
    && match d
       case Ingress => "Ingress" in specs[k].types && r in specs[k].ingress
       case Egress => "Egress" in specs[k].types && r in specs[k].egress
  }

  /** Some reported rule admits the packet: coming in from its source, or going out to its destination. */
  ghost predicate ReportsAdmit(v: Scene, specs: map<Key, PolicySpec>, ns: string, d: Direction, p: Packet) {
    exists k, r ::
      Reported(specs, k, ns, d, r)
      && RuleReport(v, specs[k], r, if d.Ingress? then p.dst else p.src, if d.Ingress? then p.src else p.dst, p)
  }

  /** No block of a reported rule that admits the packet has an exception for it. */
  ghost predicate ReportsExceptNone(v: Scene, specs: map<Key, PolicySpec>, ns: string, d: Direction, p: Packet) {
    var own, far := if d.Ingress? then p.dst else p.src, if d.Ingress? then p.src else p.dst;
    forall k, r, peer, net ::
      Reported(specs, k, ns, d, r) && RuleReport(v, specs[k], r, own, far, p)
      && peer in r.peers && peer.ipBlock.Some? && v.inNet(peer.ipBlock.value.cidr, far)
      && net in peer.ipBlock.value.except
      ==> !v.inNet(net, far)
  }

  // ---------- reported and built ----------

  lemma OwnReportIs(v: Scene, spec: PolicySpec, a: string)
    ensures Selects(v.objects.pods, v.known, spec.ns, spec.podSelector, a) <==> OwnReport(v, spec, a)
  {
    forall pair, m: Selector ensures pair in Pairs(m) <==> Picks(Some(m), pair) {
      PairOf(m, pair);
    }
    forall q ensures PodAt(v.objects.pods, q, spec.ns, a) <==> Live(v.objects.pods, q, spec.ns, a) {
      LiveIs(v.objects.pods, q, spec.ns, a);
    }
  }

  lemma LiveWithIs(pods: map<Key, Pod>, ns: string, pair: Label, a: string)
    ensures Labels(pods, ns, pair, a) <==> LiveWith(pods, ns, pair, a)
  {
    forall q ensures PodAt(pods, q, ns, a) <==> Live(pods, q, ns, a) {
      LiveIs(pods, q, ns, a);
    }
    forall q | q in pods ensures CarriesPair(pods, q, pair) <==> Picks(Some(pods[q].labels.Entries()), pair) {
      PairOf(pods[q].labels.Entries(), pair);
    }
  }

  lemma InLabelledIs(o: Objects, pair: Label, a: string)
    ensures InLabelled(o, pair, a)
       <==> exists ns, q ::
              ns in o.namespaces && Picks(Some(o.namespaces[ns].labels.Entries()), pair) && Live(o.pods, q, ns, a)
  {
    forall ns, q ensures PodAt(o.pods, q, ns, a) <==> Live(o.pods, q, ns, a) {
      LiveIs(o.pods, q, ns, a);
    }
    forall ns | ns in o.namespaces
      ensures pair in Pairs(o.namespaces[ns].labels.Entries())
              <==> Picks(Some(o.namespaces[ns].labels.Entries()), pair)
    {
      PairOf(o.namespaces[ns].labels.Entries(), pair);
    }
    if InLabelled(o, pair, a) {
      var ns :| ns in o.namespaces && pair in Pairs(o.namespaces[ns].labels.Entries()) && InNamespace(o.pods, ns, a);
      var q :| PodAt(o.pods, q, ns, a);
      assert Live(o.pods, q, ns, a);
    }
  }

  lemma PodsReportIs(v: Scene, ns: string, r: RuleSpec, a: string)
    ensures PodsAdmit(v, ns, RuleOf(r), a) <==> exists peer :: peer in r.peers && PodsReport(v, ns, peer.podSelector, a)
  {
    var rule := RuleOf(r);
    if PodsAdmit(v, ns, rule, a) {
      var i, pair :| 0 <= i < |rule.pods| && pair in Pairs(rule.pods[i]) && Labels(v.objects.pods, ns, pair, a);
      LiveWithIs(v.objects.pods, ns, pair, a);
      PodClauses(r, pair);
      var peer :| peer in r.peers && Picks(peer.podSelector, pair);
      assert PodsReport(v, ns, peer.podSelector, a);
    }
    if peer :| peer in r.peers && PodsReport(v, ns, peer.podSelector, a) {
      var pair :| Picks(peer.podSelector, pair) && LiveWith(v.objects.pods, ns, pair, a);
      LiveWithIs(v.objects.pods, ns, pair, a);
      PodClauses(r, pair);
      var i :| 0 <= i < |PodsOf(r.peers)| && pair in Pairs(PodsOf(r.peers)[i]);
      assert pair in Pairs(rule.pods[i]);
    }
  }

  lemma NamespacesReportIs(v: Scene, r: RuleSpec, a: string)
    ensures NamespacesAdmit(v, RuleOf(r), a)
       <==> exists peer :: peer in r.peers && NamespacesReport(v, peer.namespaceSelector, a)
  {
    var rule := RuleOf(r);
    if NamespacesAdmit(v, rule, a) {
      var i, pair :| 0 <= i < |rule.namespaces| && pair in Pairs(rule.namespaces[i]) && InLabelled(v.objects, pair, a);
      InLabelledIs(v.objects, pair, a);
      NamespaceClauses(r, pair);
      var peer :| peer in r.peers && Picks(peer.namespaceSelector, pair);
      assert NamespacesReport(v, peer.namespaceSelector, a);
    }
    if peer :| peer in r.peers && NamespacesReport(v, peer.namespaceSelector, a) {
      var pair, ns, q :| Picks(peer.namespaceSelector, pair) && ns in v.objects.namespaces
          && Picks(Some(v.objects.namespaces[ns].labels.Entries()), pair) && Live(v.objects.pods, q, ns, a);
      InLabelledIs(v.objects, pair, a);
      NamespaceClauses(r, pair);
      var i :| 0 <= i < |NamespacesOf(r.peers)| && pair in Pairs(NamespacesOf(r.peers)[i]);
      assert pair in Pairs(rule.namespaces[i]);
    }
  }

  lemma BlocksReportIs(v: Scene, r: RuleSpec, a: string)
    ensures BlocksAdmit(v, RuleOf(r), a)
       <==> exists peer :: peer in r.peers && peer.ipBlock.Some? && v.inNet(peer.ipBlock.value.cidr, a)
  {
    if b :| b in RuleOf(r).blocks && v.inNet(b.cidr, a) {
      BlocksListed(r.peers, b);
    }
    if peer :| peer in r.peers && peer.ipBlock.Some? && v.inNet(peer.ipBlock.value.cidr, a) {
      BlocksListed(r.peers, peer.ipBlock.value);
    }
  }

  lemma PeersReportIs(v: Scene, ns: string, r: RuleSpec, a: string)
    ensures PodsAdmit(v, ns, RuleOf(r), a) || NamespacesAdmit(v, RuleOf(r), a) || BlocksAdmit(v, RuleOf(r), a)
       <==> exists peer :: peer in r.peers && PeerReport(v, ns, peer, a)
  {
    PodsReportIs(v, ns, r, a);
    NamespacesReportIs(v, r, a);
    BlocksReportIs(v, r, a);
  }

  /** A built rule admits what the reported rule admits. */
  lemma RuleReportIs(v: Scene, spec: PolicySpec, d: Direction, r: RuleSpec, p: Packet)
    ensures RuleAdmits(v, PolicyOf(spec), d, RuleOf(r), p)
       <==> RuleReport(v, spec, r, if d.Ingress? then p.dst else p.src, if d.Ingress? then p.src else p.dst, p)
  {
    OwnReportIs(v, spec, p.Address(OwnSide(d)));
    PeersReportIs(v, spec.ns, r, p.Address(FarSide(d)));
    NoPeers(r.peers);
  }

  lemma ReportedIs(specs: map<Key, PolicySpec>, k: Key, ns: string, d: Direction, r: RuleSpec)
    requires Reported(specs, k, ns, d, r)
    ensures InForce(BuiltAll(specs), k, ns, d) && RuleOf(r) in BuiltAll(specs)[k].Rules(d)
    ensures BuiltAll(specs)[k] == PolicyOf(specs[k])
  {
    var rs := if d.Ingress? then specs[k].ingress else specs[k].egress;
    TypesListed(specs[k].types, d);
    var i :| 0 <= i < |rs| && rs[i] == r;
    assert RulesOf(rs)[i] == RuleOf(r);
  }

  lemma BuiltFrom(specs: map<Key, PolicySpec>, k: Key, ns: string, d: Direction, rule: PeerRule) returns (r: RuleSpec)
    requires InForce(BuiltAll(specs), k, ns, d) && rule in BuiltAll(specs)[k].Rules(d)
    ensures Reported(specs, k, ns, d, r) && rule == RuleOf(r)
  {
    var rs := if d.Ingress? then specs[k].ingress else specs[k].egress;
    TypesListed(specs[k].types, d);
    var i :| 0 <= i < |RulesOf(rs)| && RulesOf(rs)[i] == rule;
    r := rs[i];
  }

  lemma AdmitsReports(v: Scene, specs: map<Key, PolicySpec>, ns: string, d: Direction, p: Packet)
    requires v.objects.policies == BuiltAll(specs)
    ensures Admits(v, ns, d, p) <==> ReportsAdmit(v, specs, ns, d, p)
  {
    if Admits(v, ns, d, p) {
      var k, rule :| InForce(v.objects.policies, k, ns, d) && rule in v.objects.policies[k].Rules(d)
          && RuleAdmits(v, v.objects.policies[k], d, rule, p);
      var r := BuiltFrom(specs, k, ns, d, rule);
      RuleReportIs(v, specs[k], d, r, p);
    }
    if ReportsAdmit(v, specs, ns, d, p) {
      var k, r :| Reported(specs, k, ns, d, r) && RuleReport(v, specs[k], r, if d.Ingress? then p.dst else p.src,
          if d.Ingress? then p.src else p.dst, p);
      ReportedIs(specs, k, ns, d, r);
      RuleReportIs(v, specs[k], d, r, p);
    }
  }

  lemma ExceptsReports(v: Scene, specs: map<Key, PolicySpec>, ns: string, d: Direction, p: Packet)
    requires v.objects.policies == BuiltAll(specs) && ReportsExceptNone(v, specs, ns, d, p)
    ensures NoneExcepts(v, ns, d, p)
  {
    var far := p.Address(FarSide(d));
    forall k, rule, b, net | InForce(v.objects.policies, k, ns, d) && rule in v.objects.policies[k].Rules(d)
        && RuleAdmits(v, v.objects.policies[k], d, rule, p) && b in rule.blocks && v.inNet(b.cidr, far)
        && net in b.except
      ensures !v.inNet(net, far)
    {
      var r := BuiltFrom(specs, k, ns, d, rule);
      RuleReportIs(v, specs[k], d, r, p);
      BlocksListed(r.peers, b);
      var peer :| peer in r.peers && peer.ipBlock == Some(b);
      assert peer.ipBlock.value == b;
    }
  }

  /**
   * From reports to the kernel. At every moment of every run after the first synchronisation, with the
   * policies last flushed built of these reports: in the chain of a namespace that a reported type
   * governs, the kernel accepts exactly the packets of flannel addresses, of addresses outside the
   * configured range, of established connections, and those a reported rule admits; judged on the
   * reported pods and namespaces last flushed, for packets no admitting block excepts.
   */
  lemma KernelFollowsReports(u: Setup, states: seq<Sys>, acts: seq<Act>, i: nat, w: World,
                             specs: map<Key, PolicySpec>, k: Key, d: Direction, p: Packet)
    requires IsRun(u, states, acts) && i < |states| && states[i].started && w.sets == states[i].s.sets
    requires states[i].flushed.policies == BuiltAll(specs)
    requires k in specs && (if d.Ingress? then "Ingress" else "Egress") in specs[k].types
    requires ReportsExceptNone(SceneOf(states[i], w.inNet), specs, specs[k].ns, d, p)
    ensures NamespaceChain(u.nm, d, specs[k].ns) in states[i].s.table
    ensures var far := if d.Ingress? then p.src else p.dst;
            Eval(w, states[i].s.table, NamespaceChain(u.nm, d, specs[k].ns), p)
            == if || (u.cfg.acceptFlannel && u.flannel.Some? && far in u.flannel.value)
                  || (u.cfg.ipRange != "0.0.0.0/0" && !w.inNet(u.cfg.ipRange, far))
                  || p.established
                  || ReportsAdmit(SceneOf(states[i], w.inNet), specs, specs[k].ns, d, p)
               then Accepted else Rejected
  {
    var v, ns := SceneOf(states[i], w.inNet), specs[k].ns;
    TypesListed(specs[k].types, d);
    assert BuiltAll(specs)[k].ns == ns && d in BuiltAll(specs)[k].types;
    assert Governed(states[i].flushed.policies, ns, d);
    ExceptsReports(v, specs, ns, d, p);
    AdmitsReports(v, specs, ns, d, p);
    KernelFollowsPolicies(u, states, acts, i, w, ns, d, p);
  }
}
