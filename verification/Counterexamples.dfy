/** Concrete runs in which the controller does not do what the policies say. */
module Counterexamples {
  import opened Options
  import opened Names
  import opened Naming
  import opened Netfilter
  import opened Orders
  import opened Policies
  import opened Indexes
  import opened Joins
  import opened Pods
  import opened Verdicts
  import opened Entries
  import opened Reconciler
  import opened Syncs
  import opened RuleSync
  import opened Cluster
  import opened Runs
  import opened EndToEnd
  import opened Forwarding
  import opened WalkOrder

  // ---------- building a run ----------

  ghost function BlankSet(n: SetName): IpSet { IpSet(KindOf(n), {}) }

  /** A controller that has just started, on a kernel with no table and only its own two sets. */
  ghost function Blank(nm: Namer): Sys {
    var none := Objects(map[], map[], map[]);
    var sets := map[IpRangeSet(nm) := BlankSet(IpRangeSet(nm)), FlannelNetSet(nm) := BlankSet(FlannelNetSet(nm))];
    Sys(none, none, map[], map[], map[], map[], map[], map[],
        State(map[], map[], map[], map[], map[], {}, sets, map[]), [], [], false)
  }

  lemma StartRun(u: Setup)
    ensures IsRun(u, [Blank(u.nm)], [])
  {}

  lemma OneMore(u: Setup, states: seq<Sys>, acts: seq<Act>, a: Act) returns (states': seq<Sys>, acts': seq<Act>)
    requires IsRun(u, states, acts) && Enabled(u, states[|acts|], a)
    ensures IsRun(u, states', acts') && states' == states + [Next(u, states[|acts|], a)] && acts' == acts + [a]
    ensures states'[|acts|] == states[|acts|] && states'[|acts| + 1] == Next(u, states[|acts|], a) && acts'[|acts|] == a
  {
    states', acts' := states + [Next(u, states[|acts|], a)], acts + [a];
    forall i | 0 <= i < |acts'|
      ensures Enabled(u, states'[i], acts'[i]) && states'[i + 1] == Next(u, states'[i], acts'[i])
    {
      if i < |acts| {
        assert Enabled(u, states[i], acts[i]) && states[i + 1] == Next(u, states[i], acts[i]);
        assert states'[i] == states[i] && states'[i + 1] == states[i + 1] && acts'[i] == acts[i];
      } else {
        assert states'[i] == states[i] && acts'[i] == a;
      }
    }
  }

  // ---------- one policy in one namespace ----------

  const NS := "shop"
  const POLICY_KEY := Key(NS, "deny")

  /** Selects every pod of its namespace and lets nothing in. */
  const POLICY := Policy("deny", NS, map[], [], [], [Ingress])

  const WALK := [ListedPolicy(POLICY, [[]])]

  lemma WalkIs()
    ensures Sections(WALK) && Walks(WALK, [POLICY_KEY], map[POLICY_KEY := POLICY])
    ensures WalkItems(WALK) == [Begin(NS, "deny", map[]), Enter(NS, Ingress)]
  {
    assert WALK[..0] == [];
    assert SectionItems(POLICY, [Ingress], [[]]) == [Enter(NS, Ingress)] by {
      assert [Ingress][..0] == [];
    }
    assert PolicyItems(WALK[0]) == [Begin(NS, "deny", map[]), Enter(NS, Ingress)];
    assert Enumerates([POLICY_KEY], map[POLICY_KEY := POLICY].Keys);
  }

  /** Any names at all serve: nothing in use can clash. */
  ghost function AnySetup(nm: Namer, cfg: Config, flannel: Option<set<string>>): Setup {
    Setup(nm, cfg, flannel, n => NamespaceMeant(NS))
  }

  lemma NamesServe(nm: Namer, cfg: Config, flannel: Option<set<string>>)
    ensures var u := AnySetup(nm, cfg, flannel);
            Sections(WALK) && NamesGood(nm, cfg, u.mean, WalkItems(WALK)) && ExceptsAgree(nm, WalkItems(WALK))
  {
    WalkIs();
  }

  // ---------- a namespace deleted and made again under its policy ----------

  const NAMESPACE := Namespace(NS, MapOf(map[]))
  const POD_KEY := Key(NS, "till")
  const POD := Pod(NS, "till", MapOf(map[]), "10.0.0.1", false, OtherPhase("Running"))

  /** The namespace and the policy have been reported, and nothing else. */
  ghost predicate Reported(sys: Sys) {
    && !sys.started && sys.podItems == map[] && sys.nsItems == map[] && sys.infoItems.Keys == {NS}
    && sys.store == Objects(map[POLICY_KEY := POLICY], map[], map[NS := NAMESPACE]) && sys.flushed.pods == map[]
  }

  lemma ReportedSoon(u: Setup)
    ensures Reported(PolicyEvent(NamespaceEvent(Blank(u.nm), NS, Some(NAMESPACE)), POLICY_KEY, Some(POLICY)))
  {}

  lemma RulesServe(u: Setup, s: State, tags: seq<Tag>)
    requires NamesGood(u.nm, u.cfg, u.mean, WalkItems(WALK)) && ExceptsAgree(u.nm, WalkItems(WALK))
    requires Covers(RulesSynced(u.nm, u.cfg, WalkItems(WALK), s), tags)
    ensures RulesReady(u.nm, u.cfg, u.mean, s, map[POLICY_KEY := POLICY], WALK, [POLICY_KEY], tags)
  {
    WalkIs();
  }

  lemma FirstEnabled(u: Setup, sys: Sys) returns (a: Act)
    requires Reported(sys) && NamesGood(u.nm, u.cfg, u.mean, WalkItems(WALK)) && ExceptsAgree(u.nm, WalkItems(WALK))
    ensures a.FirstSync? && Enabled(u, sys, a)
  {
    var s := FirstFlush(sys, [], [], [NS]).s;
    var s0 := s.(sets := ConfigSynced(u.nm, u.cfg, u.flannel, s.sets));
    var tags := AnyOrder(RulesSynced(u.nm, u.cfg, WalkItems(WALK), s0).tracked.Keys);
    RulesServe(u, s0, tags);
    a := FirstSync([], [], [NS], WALK, [POLICY_KEY], tags);
  }

  lemma DeletionLearnt(u: Setup, sys: Sys)
    requires sys.started && sys.infoItems == map[NS := Change(Some(NsInfo(NS, MapOf(map[]))), None)]
    ensures Enabled(u, sys, SyncNamespaces([NS], [Drop(NS)]))
  {
    var items := sys.infoItems;
    forall v ensures v in [Drop(NS)] <==>
      match v
      case Sync(tag) => DueByNamespaces(items, tag)
      case Drop(ns) => exists k :: Gone(items, k) && items[k].previous.value.name == ns
    {
      assert Gone(items, NS);
    }
    assert VisitsNamespaces(items, [Drop(NS)]);
  }

  lemma PodLearnt(u: Setup, sys: Sys)
    requires sys.started && sys.flushed.pods == map[] && sys.store.pods == map[POD_KEY := POD] && sys.infos == map[]
    requires sys.podItems == map[POD_KEY := Change(PodLabelView(None), PodLabelView(Some(POD)))]
    requires sys.nsItems == map[POD_KEY := Change(PodNamespaceView(None), PodNamespaceView(Some(POD)))]
             && sys.labelItems == sys.nsItems
    ensures Enabled(u, sys, SyncPods([POD_KEY], [POD_KEY], [POD_KEY], [Sync(NamespacePods(NS))]))
  {
    PodDue(sys.s, sys.infos, sys.podItems, sys.nsItems, sys.labelItems);
    ApartAlone(POD_KEY, POD);
    assert Enumerates([POD_KEY], sys.podItems.Keys) && Enumerates([POD_KEY], sys.nsItems.Keys);
  }

  lemma ApartAlone(k: Key, pod: Pod)
    ensures PodsApart(map[], map[k := pod])
  {}

  lemma PodDue(s: State, infos: Infos, podItems: PodItems, nsItems: NamespaceItems, labelItems: NamespaceItems)
    requires podItems == map[POD_KEY := Change(PodLabelView(None), PodLabelView(Some(POD)))] && infos == map[]
    requires nsItems == map[POD_KEY := Change(PodNamespaceView(None), PodNamespaceView(Some(POD)))]
    ensures VisitsPods(s, infos, podItems, nsItems, labelItems, [Sync(NamespacePods(NS))])
  {
    var pods, namespaces := Opened(podItems), Opened(nsItems);
    assert pods[POD_KEY] == Change(map[], map[]);
    assert namespaces[POD_KEY].previous == map[] && namespaces[POD_KEY].current.Keys == {NS};
    assert forall l :: !Touches(pods, l);
    assert Touches(namespaces, NS);
    forall tag ensures DueByPods(s, infos, podItems, nsItems, labelItems, tag) <==> tag == NamespacePods(NS) {}
  }

  /** Nothing is pending but, perhaps, namespaces; no pod has been seen, and the policy is in force. */
  ghost predicate Governing(sys: Sys) {
    && sys.started && sys.podItems == map[] && sys.nsItems == map[] && sys.labelItems == map[]
    && sys.flushed.pods == sys.store.pods == map[] && sys.flushed.policies == map[POLICY_KEY := POLICY]
  }

  ghost predicate WithNamespace(sys: Sys) {
    Governing(sys) && sys.infoItems == map[] && sys.store.namespaces == sys.flushed.namespaces == map[NS := NAMESPACE]
  }

  lemma FirstResult(u: Setup, sys: Sys, a: Act)
    requires Reported(sys) && a.FirstSync? && Enabled(u, sys, a)
    ensures WithNamespace(Next(u, sys, a))
  {}

  /** The namespace and the policy are reported and everything is synchronised for the first time. */
  lemma Begins(u: Setup) returns (states: seq<Sys>, acts: seq<Act>)
    requires NamesGood(u.nm, u.cfg, u.mean, WalkItems(WALK)) && ExceptsAgree(u.nm, WalkItems(WALK))
    ensures IsRun(u, states, acts) && |acts| == 3 && acts[2].FirstSync? && WithNamespace(states[3])
  {
    StartRun(u);
    ReportedSoon(u);
    states, acts := OneMore(u, [Blank(u.nm)], [], NamespaceChanges(NS, Some(NAMESPACE)));
    states, acts := OneMore(u, states, acts, PolicyChanges(POLICY_KEY, Some(POLICY)));
    var sys := states[2];
    var first := FirstEnabled(u, sys);
    FirstResult(u, sys, first);
    states, acts := OneMore(u, states, acts, first);
  }

  lemma DeletionReported(sys: Sys)
    requires WithNamespace(sys)
    ensures var sys' := NamespaceEvent(sys, NS, None);
            Governing(sys') && sys'.infoItems == map[NS := Change(Some(NsInfo(NS, MapOf(map[]))), None)]
            && sys'.store.namespaces == map[] && sys'.flushed.namespaces == map[NS := NAMESPACE]
  {}

  lemma DeletionResult(u: Setup, sys: Sys, a: Act)
    requires Governing(sys) && sys.store.namespaces == map[] && a.SyncNamespaces? && Enabled(u, sys, a)
    ensures Governing(Next(u, sys, a)) && Next(u, sys, a).infos == map[]
  {}

  /** The namespace is deleted, and the deletion is learnt of. */
  lemma LosesNamespace(u: Setup, before: seq<Sys>, actsBefore: seq<Act>) returns (states: seq<Sys>, acts: seq<Act>)
    requires IsRun(u, before, actsBefore) && |actsBefore| == 3 && WithNamespace(before[3])
    ensures IsRun(u, states, acts) && |acts| == 5 && actsBefore <= acts && acts[3].NamespaceChanges?
    ensures LearnsDeletion(states[4], acts[4], NS) && states[4].flushed.pods == map[]
    ensures Governing(states[5]) && states[5].infos == map[]
  {
    DeletionReported(before[3]);
    var learnt := SyncNamespaces([NS], [Drop(NS)]);
    states, acts := OneMore(u, before, actsBefore, NamespaceChanges(NS, None));
    var sys := states[4];
    DeletionLearnt(u, sys);
    DeletionResult(u, sys, learnt);
    states, acts := OneMore(u, states, acts, learnt);
  }

  lemma PodReported(sys: Sys)
    requires Governing(sys) && sys.infos == map[]
    ensures var sys' := PodEvent(sys, POD_KEY, Some(POD));
            && sys'.started && sys'.flushed == sys.flushed && sys'.store.pods == map[POD_KEY := POD]
               && sys'.infos == map[]
            && sys'.podItems == map[POD_KEY := Change(PodLabelView(None), PodLabelView(Some(POD)))]
            && sys'.nsItems == map[POD_KEY := Change(PodNamespaceView(None), PodNamespaceView(Some(POD)))]
               && sys'.labelItems == sys'.nsItems
  {}

  lemma PodResult(u: Setup, sys: Sys, a: Act)
    requires a.SyncPods? && Enabled(u, sys, a)
    ensures Next(u, sys, a).started == sys.started && Next(u, sys, a).flushed == sys.flushed.(pods := sys.store.pods)
  {}

  /** A pod appears in the namespace all the same, and is flushed. */
  lemma GainsPod(u: Setup, before: seq<Sys>, actsBefore: seq<Act>) returns (states: seq<Sys>, acts: seq<Act>)
    requires IsRun(u, before, actsBefore) && |actsBefore| == 5 && Governing(before[5]) && before[5].infos == map[]
    ensures IsRun(u, states, acts) && |acts| == 7 && before <= states && actsBefore <= acts && acts[5].PodChanges?
            && acts[6].SyncPods?
    ensures states[7].started && states[7].flushed.policies == map[POLICY_KEY := POLICY]
            && states[7].flushed.pods == map[POD_KEY := POD]
  {
    PodReported(before[5]);
    var learnt := SyncPods([POD_KEY], [POD_KEY], [POD_KEY], [Sync(NamespacePods(NS))]);
    states, acts := OneMore(u, before, actsBefore, PodChanges(POD_KEY, Some(POD)));
    var sys := states[6];
    PodLearnt(u, sys);
    PodResult(u, sys, learnt);
    states, acts := OneMore(u, states, acts, learnt);
  }

  lemma ForgottenHere(states: seq<Sys>, acts: seq<Act>)
    requires |acts| == 7 && |states| == 8 && LearnsDeletion(states[4], acts[4], NS) && states[4].flushed.pods == map[]
    requires acts[2].FirstSync? && acts[3].NamespaceChanges? && acts[5].PodChanges? && acts[6].SyncPods?
    ensures Forgotten(states, acts, 7, NS) && Shown(states, acts, 7, NS) == map[]
  {
    ForgottenNext(states, acts, 2, NS);
    ForgottenNext(states, acts, 3, NS);
    ForgottenNext(states, acts, 4, NS);
    ForgottenNext(states, acts, 5, NS);
    ForgottenNext(states, acts, 6, NS);
    assert Shown(states, acts, 5, NS) == states[4].flushed.pods;
    assert Shown(states, acts, 6, NS) == Shown(states, acts, 5, NS);
  }

  /**
   * A namespace that loses its pod set for good. The policy rejects everything to the namespace's
   * pods; the namespace is deleted and its deletion learnt of; then a pod appears in it. The packet
   * to that pod concerns a governed namespace, no rule admits it, and FORWARD lets it through undecided.
   */
  lemma ForgottenNamespacePasses(nm: Namer, cfg: Config, flannel: Option<set<string>>, p: Packet)
      returns (u: Setup, states: seq<Sys>, acts: seq<Act>)
    requires p.dst == POD.ip
    ensures IsRun(u, states, acts) && u.nm == nm && u.cfg == cfg && u.flannel == flannel && |acts| == 7
            && states[7].started
    ensures Concerns(states[7], NS, Ingress, p) && forall inNet :: !Admits(SceneOf(states[7], inNet), NS, Ingress, p)
    ensures forall w: World :: w.sets == states[7].s.sets ==>
              EnnForward in states[7].s.table && Eval(w, states[7].s.table, EnnForward, p) == Pass
  {
    u := AnySetup(nm, cfg, flannel);
    NamesServe(nm, cfg, flannel);
    var states3, acts3 := Begins(u);
    var states5, acts5 := LosesNamespace(u, states3, acts3);
    states, acts := GainsPod(u, states5, acts5);
    assert states[4] == states5[4] && acts[4] == acts5[4] && acts[3] == acts5[3] && acts[2] == acts5[2] == acts3[2];
    ForgottenHere(states, acts);
    ConcernsHere(states[7], p);
    forall w: World | w.sets == states[7].s.sets
      ensures EnnForward in states[7].s.table && Eval(w, states[7].s.table, EnnForward, p) == Pass
    {
      UncaughtHere(u, states, acts, w, p);
    }
  }

  lemma ConcernsHere(sys: Sys, p: Packet)
    requires sys.flushed.policies == map[POLICY_KEY := POLICY] && sys.flushed.pods == map[POD_KEY := POD]
             && p.dst == POD.ip
    ensures Concerns(sys, NS, Ingress, p) && forall inNet :: !Admits(SceneOf(sys, inNet), NS, Ingress, p)
  {
    assert PodAt(sys.flushed.pods, POD_KEY, NS, POD.ip);
    assert sys.flushed.policies[POLICY_KEY] == POLICY;
  }

  lemma UncaughtHere(u: Setup, states: seq<Sys>, acts: seq<Act>, w: World, p: Packet)
    requires IsRun(u, states, acts) && |acts| == 7 && states[7].started && w.sets == states[7].s.sets
    requires states[7].flushed.policies == map[POLICY_KEY := POLICY] && Shown(states, acts, 7, NS) == map[]
    ensures EnnForward in states[7].s.table && Eval(w, states[7].s.table, EnnForward, p) == Pass
  {
    ForwardDecides(u, states, acts, 7, w, p);
    forall ns, d ensures !Catches(states, acts, 7, ns, d, p) {
      assert Governed(states[7].flushed.policies, ns, d) ==> ns == NS;
    }
  }

  // ---------- a selector with a pair no pod has ever carried ----------

  const HTTP := Port("tcp", "80")
  const A := Label("a", "1")
  const B := Label("b", "2")
  const WIDE_KEY := Key(NS, "wide")

  function WideSelector(): Selector { map["a" := "1", "b" := "2"] }

  /** Opens a port of the pods that carry both labels. */
  function Wide(): Policy { Policy("wide", NS, WideSelector(), [PeerRule([HTTP], [], [], [])], [], [Ingress]) }

  function WideWalk(): seq<ListedPolicy> { [ListedPolicy(Wide(), [[ListedRule([HTTP], [], [], [])]])] }

  /** Carries one of the two. */
  const HALF_KEY := Key(NS, "half")
  const HALF := Pod(NS, "half", MapOf(map["a" := "1"]), "10.0.0.2", false, OtherPhase("Running"))

  function WideItems(): seq<Item> {
    [Begin(NS, "wide", WideSelector()), Enter(NS, Ingress),
        Peer(NS, "wide", WideSelector(), Ingress, OnlyPorts([HTTP]))]
  }

  lemma WideRule()
    ensures RulesItems(Wide(), Ingress, [ListedRule([HTTP], [], [], [])])
                == [Peer(NS, "wide", WideSelector(), Ingress, OnlyPorts([HTTP]))]
  {
    var l := ListedRule([HTTP], [], [], []);
    assert [l][..0] == [];
    assert RuleItems(Wide(), Ingress, l) == [Peer(NS, "wide", WideSelector(), Ingress, OnlyPorts([HTTP]))];
  }

  lemma WideWalkIs()
    ensures Sections(WideWalk()) && Walks(WideWalk(), [WIDE_KEY], map[WIDE_KEY := Wide()])
            && WalkItems(WideWalk()) == WideItems()
  {
    var l, sections := WideWalk()[0], [[ListedRule([HTTP], [], [], [])]];
    assert WideWalk()[..0] == [] && [Ingress][..0] == [] && sections[..0] == [];
    WideRule();
    assert SectionItems(Wide(), [], []) == [];
    assert SectionItems(Wide(), [Ingress], sections) == [Enter(NS, Ingress)] + RulesItems(Wide(), Ingress, sections[0]);
    assert PolicyItems(l) == WideItems();
    assert Enumerates([WIDE_KEY], map[WIDE_KEY := Wide()].Keys);
  }

  /** Names that tell apart the three pod sets in use. */
  function PlainNamer(): Namer {
    Namer((ns: string) => ns, (ns: string) => ns, (g: Group) => g.policy, (g: Group) => g.policy, (ns: string) => ns,
        "", "",
          (ns: string, pair: Label) => pair.key, (ns: string, labels: seq<string>) => "", (pair: Label) => pair.key,
              (g: Group) => g.policy)
  }

  function WideMeaning(n: SetName): Meaning {
    if n == PodSet("a") then PodsMeant(NS, map["a" := "1"])
    else if n == PodSet("b") then PodsMeant(NS, map["b" := "2"])
    else if n == PodSet("") then PodsMeant(NS, WideSelector())
    else NamespaceMeant(NS)
  }

  function WideSetup(cfg: Config, flannel: Option<set<string>>): Setup { Setup(PlainNamer(), cfg, flannel,
                     WideMeaning) }

  lemma WidePairs()
    ensures Pairs(WideSelector()) == {A, B} && Pairs(map["a" := "1"]) == {A} && WideSelector() != map[]
  {
    assert "a" in WideSelector() && "b" in WideSelector();
  }

  lemma WideNames(cfg: Config, flannel: Option<set<string>>)
    ensures var u := WideSetup(cfg, flannel);
            NamesGood(u.nm, cfg, u.mean, WideItems()) && ExceptsAgree(u.nm, WideItems())
  {
    var u := WideSetup(cfg, flannel);
    WideClear(cfg);
    WidePairs();
    forall i | 0 <= i < |WideItems()| ensures ItemMeans(u.nm, u.mean, WideItems()[i]) {}
  }

  lemma WideClear(cfg: Config)
    ensures NoClash(PlainNamer(), cfg, WideItems())
  {}

  ghost predicate HalfReported(sys: Sys) {
    && !sys.started && sys.infoItems == map[] && sys.flushed.pods == map[] && sys.s.pml == map[]
    && sys.store == Objects(map[WIDE_KEY := Wide()], map[HALF_KEY := HALF], map[])
    && sys.podItems == map[HALF_KEY := Change(PodLabelView(None), PodLabelView(Some(HALF)))]
    && sys.nsItems.Keys == {HALF_KEY}
  }

  lemma HalfReportedSoon(u: Setup)
    ensures HalfReported(PolicyEvent(PodEvent(Blank(u.nm), HALF_KEY, Some(HALF)), WIDE_KEY, Some(Wide())))
  {}

  lemma WideServes(u: Setup, s: State, tags: seq<Tag>)
    requires NamesGood(u.nm, u.cfg, u.mean, WideItems()) && ExceptsAgree(u.nm, WideItems())
    requires Covers(RulesSynced(u.nm, u.cfg, WideItems(), s), tags)
    ensures RulesReady(u.nm, u.cfg, u.mean, s, map[WIDE_KEY := Wide()], WideWalk(), [WIDE_KEY], tags)
  {
    WideWalkIs();
  }

  lemma WideEnabled(u: Setup, sys: Sys) returns (a: Act)
    requires HalfReported(sys) && NamesGood(u.nm, u.cfg, u.mean, WideItems()) && ExceptsAgree(u.nm, WideItems())
    ensures a.FirstSync? && a.podOrder == [HALF_KEY] && Enabled(u, sys, a)
  {
    var s := FirstFlush(sys, [HALF_KEY], [HALF_KEY], []).s;
    var s0 := s.(sets := ConfigSynced(u.nm, u.cfg, u.flannel, s.sets));
    var tags := AnyOrder(RulesSynced(u.nm, u.cfg, WideItems(), s0).tracked.Keys);
    WideServes(u, s0, tags);
    ApartAlone(HALF_KEY, HALF);
    a := FirstSync([HALF_KEY], [HALF_KEY], [], WideWalk(), [WIDE_KEY], tags);
  }

  lemma FirstIndex(u: Setup, sys: Sys, a: Act)
    requires a.FirstSync? && Enabled(u, sys, a)
    ensures Next(u, sys, a).s.pml == Flush(sys.s.pml, a.podOrder, Opened(sys.podItems))
    ensures Next(u, sys, a).started && Next(u, sys, a).flushed == sys.store
  {
    RulesResult(u, sys, a);
    RulesIndexes(u.nm, u.cfg, RulesBase(u, sys, a), WalkItems(a.ls), a.tags);
  }

  /** One label has been seen, and the other has not. */
  lemma OnlyOneKnown(pml: Index<NsLabel>)
    requires pml == Flush(map[], [HALF_KEY], Opened(map[HALF_KEY := Change(PodLabelView(None),
                 PodLabelView(Some(HALF)))]))
    ensures NsLabel(NS, A) in pml && NsLabel(NS, B) !in pml
  {
    var changes := Opened(map[HALF_KEY := Change(PodLabelView(None), PodLabelView(Some(HALF)))]);
    WidePairs();
    assert HALF.labels.Entries().Keys == {"a"};
    assert NsLabels(HALF) == {NsLabel(NS, A)};
    assert changes[HALF_KEY].previous == map[] && changes[HALF_KEY].current.Keys == {NsLabel(NS, A)};
    FlushKeys<Key, NsLabel>(map[], [HALF_KEY], changes, NsLabel(NS, A));
    FlushKeys<Key, NsLabel>(map[], [HALF_KEY], changes, NsLabel(NS, B));
    assert HALF_KEY in [HALF_KEY];
  }

  lemma HalfSelected(sys: Sys, inNet: (string, string) -> bool, p: Packet)
    requires sys.flushed == Objects(map[WIDE_KEY := Wide()], map[HALF_KEY := HALF], map[])
    requires NsLabel(NS, A) in sys.s.pml && NsLabel(NS, B) !in sys.s.pml
    requires p.dst == HALF.ip && p.protocol == "tcp" && p.port == "80"
    ensures !CarriesAll(sys.flushed.pods, NS, WideSelector(), p.dst)
    ensures Admits(SceneOf(sys, inNet), NS, Ingress, p) && Governed(sys.flushed.policies, NS, Ingress)
    ensures NoneExcepts(SceneOf(sys, inNet), NS, Ingress, p)
  {
    var pods, known, r := sys.flushed.pods, sys.s.pml.Keys, PeerRule([HTTP], [], [], []);
    WidePairs();
    assert PodAt(pods, HALF_KEY, NS, HALF.ip) && CarriesPair(pods, HALF_KEY, A) && !CarriesPair(pods, HALF_KEY, B);
    assert CarriesKnown(pods, known, NS, WideSelector(), HALF_KEY);
    assert Selects(pods, known, NS, WideSelector(), p.dst);
    assert HTTP in r.ports && PortMatch(r.ports, p);
    assert RuleAdmits(SceneOf(sys, inNet), Wide(), Ingress, r, p);
    assert InForce(sys.flushed.policies, WIDE_KEY, NS, Ingress) && r in Wide().Rules(Ingress);
  }

  ghost predicate HalfKnown(sys: Sys) {
    && sys.started && sys.flushed == Objects(map[WIDE_KEY := Wide()], map[HALF_KEY := HALF], map[])
    && NsLabel(NS, A) in sys.s.pml && NsLabel(NS, B) !in sys.s.pml
  }

  lemma WideResult(u: Setup, sys: Sys, a: Act)
    requires HalfReported(sys) && a.FirstSync? && a.podOrder == [HALF_KEY] && Enabled(u, sys, a)
    ensures HalfKnown(Next(u, sys, a))
  {
    FirstIndex(u, sys, a);
    OnlyOneKnown(Next(u, sys, a).s.pml);
  }

  lemma WideRun(u: Setup) returns (states: seq<Sys>, acts: seq<Act>)
    requires NamesGood(u.nm, u.cfg, u.mean, WideItems()) && ExceptsAgree(u.nm, WideItems())
    ensures IsRun(u, states, acts) && |acts| == 3 && HalfKnown(states[3])
  {
    StartRun(u);
    HalfReportedSoon(u);
    states, acts := OneMore(u, [Blank(u.nm)], [], PodChanges(HALF_KEY, Some(HALF)));
    states, acts := OneMore(u, states, acts, PolicyChanges(WIDE_KEY, Some(Wide())));
    var sys := states[2];
    var first := WideEnabled(u, sys);
    WideResult(u, sys, first);
    states, acts := OneMore(u, states, acts, first);
  }

  /**
   * A policy that opens a port of the pods carrying a=1 and b=2, in a cluster where no pod has ever
   * carried b=2: the kernel accepts packets to that port of a pod that carries a=1 alone.
   */
  lemma UnknownPairWidens(cfg: Config, flannel: Option<set<string>>, p: Packet)
    returns (u: Setup, states: seq<Sys>, acts: seq<Act>)
    requires p.dst == HALF.ip && p.protocol == "tcp" && p.port == "80"
    ensures IsRun(u, states, acts) && u.cfg == cfg && u.flannel == flannel && |acts| == 3 && states[3].started
    ensures states[3].flushed == Objects(map[WIDE_KEY := Wide()], map[HALF_KEY := HALF], map[])
    ensures !CarriesAll(states[3].flushed.pods, NS, WideSelector(), p.dst)
    ensures forall w: World :: w.sets == states[3].s.sets ==>
              && NamespaceChain(u.nm, Ingress, NS) in states[3].s.table
              && Eval(w, states[3].s.table, NamespaceChain(u.nm, Ingress, NS), p) == Accepted
  {
    u := WideSetup(cfg, flannel);
    WideNames(cfg, flannel);
    states, acts := WideRun(u);
    HalfSelected(states[3], (net, a) => false, p);
    forall w: World | w.sets == states[3].s.sets
      ensures NamespaceChain(u.nm, Ingress, NS) in states[3].s.table
      ensures Eval(w, states[3].s.table, NamespaceChain(u.nm, Ingress, NS), p) == Accepted
    {
      HalfAccepted(u, states, acts, w, p);
    }
  }

  lemma HalfAccepted(u: Setup, states: seq<Sys>, acts: seq<Act>, w: World, p: Packet)
    requires IsRun(u, states, acts) && |acts| == 3 && states[3].started && w.sets == states[3].s.sets
    requires states[3].flushed == Objects(map[WIDE_KEY := Wide()], map[HALF_KEY := HALF], map[])
    requires NsLabel(NS, A) in states[3].s.pml && NsLabel(NS, B) !in states[3].s.pml
    requires p.dst == HALF.ip && p.protocol == "tcp" && p.port == "80"
    ensures NamespaceChain(u.nm, Ingress, NS) in states[3].s.table
    ensures Eval(w, states[3].s.table, NamespaceChain(u.nm, Ingress, NS), p) == Accepted
  {
    HalfSelected(states[3], w.inNet, p);
    KernelFollowsPolicies(u, states, acts, 3, w, NS, Ingress, p);
  }
  // ---------- two policies, walked in either order ----------

  const BLOCK := IpBlock("10.0.0.0/8", ["10.1.0.0/16"])
  const OUTER_KEY := Key(NS, "outer")
  const WEB_KEY := Key(NS, "web")

  /** Admits a network but for a part of it. */
  function Outer(): Policy { Policy("outer", NS, map[], [PeerRule([], [], [], [BLOCK])], [], [Ingress]) }

  /** Opens a port to everybody. */
  function Web(): Policy { Policy("web", NS, map[], [PeerRule([HTTP], [], [], [])], [], [Ingress]) }

  function OuterItem(): Item { Peer(NS, "outer", map[], Ingress, BlockPeer(BLOCK, [])) }

  function WebItem(): Item { Peer(NS, "web", map[], Ingress, OnlyPorts([HTTP])) }

  function Both(): map<Key, Policy> { map[OUTER_KEY := Outer(), WEB_KEY := Web()] }

  function OuterListed(): ListedPolicy { ListedPolicy(Outer(), [[ListedRule([], [], [], [BLOCK])]]) }

  function WebListed(): ListedPolicy { ListedPolicy(Web(), [[ListedRule([HTTP], [], [], [])]]) }

  function BothListed(): map<Key, ListedPolicy> { map[OUTER_KEY := OuterListed(), WEB_KEY := WebListed()] }

  function Either(webFirst: bool): seq<Key> { if webFirst then [WEB_KEY, OUTER_KEY] else [OUTER_KEY, WEB_KEY] }

  lemma OuterItems()
    ensures PolicyItems(OuterListed()) == [Begin(NS, "outer", map[]), Enter(NS, Ingress), OuterItem()]
  {
    var l := ListedRule([], [], [], [BLOCK]);
    var rules, sections := [l], [[l]];
    assert rules[..0] == [] && [BLOCK][..0] == [] && [Ingress][..0] == [] && sections[..0] == [];
    assert BlockItems(Outer(), Ingress, [BLOCK], []) == [OuterItem()] by {
      assert BlockItems(Outer(), Ingress, [], []) == [];
    }
    assert RuleItems(Outer(), Ingress, l) == [OuterItem()];
    assert RulesItems(Outer(), Ingress, rules) == [OuterItem()];
    assert SectionItems(Outer(), [], []) == [];
    assert SectionItems(Outer(), [Ingress], sections) == [Enter(NS, Ingress), OuterItem()];
  }

  lemma WebItems()
    ensures PolicyItems(WebListed()) == [Begin(NS, "web", map[]), Enter(NS, Ingress), WebItem()]
  {
    var l := ListedRule([HTTP], [], [], []);
    var rules, sections := [l], [[l]];
    assert rules[..0] == [] && [Ingress][..0] == [] && sections[..0] == [];
    assert RuleItems(Web(), Ingress, l) == [WebItem()];
    assert RulesItems(Web(), Ingress, rules) == [WebItem()];
    assert SectionItems(Web(), [], []) == [];
    assert SectionItems(Web(), [Ingress], sections) == [Enter(NS, Ingress), WebItem()];
  }

  lemma BothAreListed(webFirst: bool)
    ensures Listing(BothListed(), Both()) && Enumerates(Either(webFirst), Both().Keys)
  {
    assert Lists(ListedRule([], [], [], [BLOCK]), PeerRule([], [], [], [BLOCK]));
    assert Lists(ListedRule([HTTP], [], [], []), PeerRule([HTTP], [], [], []));
    assert ListsPolicy(OuterListed()) && ListsPolicy(WebListed());
    assert Both().Keys == {OUTER_KEY, WEB_KEY} == BothListed().Keys;
  }

  function EitherWalk(webFirst: bool): seq<ListedPolicy> {
    if webFirst then [WebListed(), OuterListed()] else [OuterListed(), WebListed()]
  }

  lemma EitherWalkIs(webFirst: bool)
    ensures Sections(EitherWalk(webFirst)) && Walks(EitherWalk(webFirst), Either(webFirst), Both())
    ensures WalkItems(EitherWalk(webFirst))
         == if webFirst then PolicyItems(WebListed()) + PolicyItems(OuterListed())
            else PolicyItems(OuterListed()) + PolicyItems(WebListed())
  {
    BothAreListed(webFirst);
    assert EitherWalk(webFirst) == WalkBy(BothListed(), Either(webFirst));
    WalkByWalks(BothListed(), Either(webFirst), Both());
    TwoItems(OuterListed(), WebListed());
    TwoItems(WebListed(), OuterListed());
  }

  lemma TwoItems(a: ListedPolicy, b: ListedPolicy)
    requires |a.sections| == |a.policy.types| && |b.sections| == |b.policy.types|
    ensures WalkItems([a, b]) == PolicyItems(a) + PolicyItems(b)
  {
    assert [a, b][..1] == [a] && [a][..0] == [];
    assert WalkItems([a]) == PolicyItems(a);
  }

  /** The except set of the block holds the packet's source, and the block matches it. */
  ghost predicate Excepted(w: World, nm: Namer, p: Packet) {
    w.Has(ExceptOf(nm, OuterItem()), p.src) && w.inNet("10.0.0.0/8", p.src)
  }

  lemma OnlyPeer(w: World, nm: Namer, items: seq<Item>, p: Packet)
    requires |items| == 3 && items[0].Begin? && items[1].Enter? && Belongs(items[2], NS, Ingress)
    requires ItemMatch(w, nm, items[2], p)
    ensures FirstVerdict(w, nm, items, items, NS, Ingress, p)
         == if items[2].clause.BlockPeer? then BlockVerdict(w, ExceptOf(nm, items[2]), Ingress, p) else Accepted
  {
    GroupMatchBy(w, nm, items, items[2], p);
    FirstVerdictIs(w, nm, items, items, NS, Ingress, p);
    assert GroupVerdict(w, nm, items, items[2], p) != Pass;
  }

  lemma OuterRejects(w: World, nm: Namer, p: Packet)
    requires Excepted(w, nm, p)
    ensures Alone(w, nm, OuterListed(), NS, Ingress, p) == Rejected
  {
    OuterItems();
    assert ItemMatch(w, nm, OuterItem(), p);
    OnlyPeer(w, nm, PolicyItems(OuterListed()), p);
  }

  lemma WebAccepts(w: World, nm: Namer, p: Packet)
    requires p.protocol == "tcp" && p.port == "80"
    ensures Alone(w, nm, WebListed(), NS, Ingress, p) == Accepted
  {
    WebItems();
    assert HTTP in [HTTP] && PortMatch([HTTP], p);
    assert ItemMatch(w, nm, WebItem(), p);
    OnlyPeer(w, nm, PolicyItems(WebListed()), p);
  }

  /** The first of the two policies decides. */
  lemma OrderDecides(w: World, nm: Namer, p: Packet, webFirst: bool)
    requires Excepted(w, nm, p) && p.protocol == "tcp" && p.port == "80" && !p.established
    ensures Listing(BothListed(), Both()) && Disagree(w, nm, BothListed(), Both(), NS, Ingress, p)
    ensures Sections(EitherWalk(webFirst))
    ensures PolicyVerdict(w, nm, WalkItems(EitherWalk(webFirst)), NS, Ingress, p)
                == if webFirst then Accepted else Rejected
  {
    BothAreListed(webFirst);
    EitherWalkIs(webFirst);
    OuterRejects(w, nm, p);
    WebAccepts(w, nm, p);
    assert BothListed()[OUTER_KEY] == OuterListed() && BothListed()[WEB_KEY] == WebListed();
    WalkAsListed(w, nm, BothListed(), Both(), EitherWalk(webFirst), Either(webFirst), NS, Ingress, p);
    WalkVerdictIs(w, nm, BothListed(), Both(), Either(webFirst), NS, Ingress, p);
    FirstAloneIs(w, nm, BothListed(), Either(webFirst), NS, Ingress, p);
  }

  /** The two policies have been reported, and nothing else. */
  ghost predicate BothReported(sys: Sys) {
    && !sys.started && sys.podItems == map[] && sys.nsItems == map[] && sys.infoItems == map[]
    && sys.store == Objects(Both(), map[], map[]) && sys.flushed.pods == map[]
  }

  lemma BothReportedSoon(u: Setup)
    ensures BothReported(PolicyEvent(PolicyEvent(Blank(u.nm), OUTER_KEY, Some(Outer())), WEB_KEY, Some(Web())))
  {}

  /** Names that keep the two policies apart. */
  ghost predicate Apart(nm: Namer) {
    nm.dispatchChain(GroupOf(OuterItem())) != nm.dispatchChain(GroupOf(WebItem()))
  }

  ghost predicate OfBoth(item: Item) {
    item == Begin(NS, "outer", map[]) || item == Begin(NS, "web", map[]) || item == Enter(NS, Ingress)
    || item == OuterItem() || item == WebItem()
  }

  lemma WalkOfBoth(webFirst: bool)
    ensures Sections(EitherWalk(webFirst)) && forall item :: item in WalkItems(EitherWalk(webFirst)) ==> OfBoth(item)
  {
    EitherWalkIs(webFirst);
    OuterItems();
    WebItems();
    assert forall item :: item in PolicyItems(OuterListed()) ==> OfBoth(item);
    assert forall item :: item in PolicyItems(WebListed()) ==> OfBoth(item);
  }

  lemma BothClear(nm: Namer, cfg: Config, a: Item, b: Item)
    requires Apart(nm) && OfBoth(a) && OfBoth(b)
    ensures Clear(nm, cfg, a, b)
  {}

  lemma BothNamesServe(nm: Namer, cfg: Config, flannel: Option<set<string>>, webFirst: bool)
    requires Apart(nm)
    ensures var u := AnySetup(nm, cfg, flannel);
            && Sections(EitherWalk(webFirst)) && NamesGood(nm, cfg, u.mean, WalkItems(EitherWalk(webFirst)))
            && ExceptsAgree(nm, WalkItems(EitherWalk(webFirst)))
  {
    WalkOfBoth(webFirst);
    var u, items := AnySetup(nm, cfg, flannel), WalkItems(EitherWalk(webFirst));
    forall i, j | 0 <= i < |items| && 0 <= j < |items| ensures Clear(nm, cfg, items[i], items[j]) {
      assert items[i] in items && items[j] in items;
      BothClear(nm, cfg, items[i], items[j]);
    }
    forall i | 0 <= i < |items| ensures ItemMeans(nm, u.mean, items[i]) {
      assert items[i] in items && OfBoth(items[i]);
    }
    assert forall a :: a in items && a.Peer? && a.clause.BlockPeer? ==> a == OuterItem();
  }

  lemma EitherEnabled(u: Setup, sys: Sys, webFirst: bool) returns (a: Act)
    requires BothReported(sys) && Sections(EitherWalk(webFirst))
    requires NamesGood(u.nm, u.cfg, u.mean, WalkItems(EitherWalk(webFirst)))
             && ExceptsAgree(u.nm, WalkItems(EitherWalk(webFirst)))
    ensures a.FirstSync? && a.ls == EitherWalk(webFirst) && Enabled(u, sys, a)
  {
    var s := FirstFlush(sys, [], [], []).s;
    var s0 := s.(sets := ConfigSynced(u.nm, u.cfg, u.flannel, s.sets));
    var items := WalkItems(EitherWalk(webFirst));
    var tags := AnyOrder(RulesSynced(u.nm, u.cfg, items, s0).tracked.Keys);
    EitherWalkIs(webFirst);
    a := FirstSync([], [], [], EitherWalk(webFirst), Either(webFirst), tags);
  }

  lemma EitherResult(u: Setup, sys: Sys, a: Act)
    requires a.FirstSync? && Enabled(u, sys, a)
    ensures Next(u, sys, a).started && Next(u, sys, a).flushed == sys.store && Next(u, sys, a).walk == a.ls
  {}

  /** The two reports, whatever comes after them. */
  lemma BothRun(u: Setup) returns (states: seq<Sys>, acts: seq<Act>)
    ensures IsRun(u, states, acts) && |acts| == 2 && BothReported(states[2])
    ensures acts == [PolicyChanges(OUTER_KEY, Some(Outer())), PolicyChanges(WEB_KEY, Some(Web()))]
  {
    StartRun(u);
    BothReportedSoon(u);
    states, acts := OneMore(u, [Blank(u.nm)], [], PolicyChanges(OUTER_KEY, Some(Outer())));
    states, acts := OneMore(u, states, acts, PolicyChanges(WEB_KEY, Some(Web())));
  }

  lemma EitherRun(u: Setup, webFirst: bool, before: seq<Sys>, reports: seq<Act>)
    returns (states: seq<Sys>, acts: seq<Act>)
    requires IsRun(u, before, reports) && |reports| == 2 && BothReported(before[2])
    requires Sections(EitherWalk(webFirst)) && NamesGood(u.nm, u.cfg, u.mean, WalkItems(EitherWalk(webFirst)))
             && ExceptsAgree(u.nm, WalkItems(EitherWalk(webFirst)))
    ensures IsRun(u, states, acts) && |acts| == 3 && acts[..2] == reports && acts[2].FirstSync?
    ensures states[3].started && states[3].flushed == Objects(Both(), map[], map[])
            && states[3].walk == EitherWalk(webFirst)
  {
    var first := EitherEnabled(u, before[2], webFirst);
    EitherResult(u, before[2], first);
    states, acts := OneMore(u, before, reports, first);
  }

  /** The configuration leaves the packet to the policies. */
  ghost predicate LeftToPolicies(u: Setup, w: World, p: Packet) {
    !InFlannel(u, p.src) && (u.cfg.Unlimited() || w.inNet(u.cfg.ipRange, p.src))
  }

  /** A packet of a new connection to the open port, from the part the block leaves out. */
  ghost predicate FromTheHole(w: World, p: Packet) {
    && w.inNet("10.0.0.0/8", p.src) && w.inNet("10.1.0.0/16", p.src)
    && p.protocol == "tcp" && p.port == "80" && !p.established
  }

  lemma WalkedVerdict(u: Setup, sys: Sys, w: World, p: Packet)
    requires Sound(u, sys) && sys.started && w.sets == sys.s.sets && Enter(NS, Ingress) in WalkItems(sys.walk)
    requires LeftToPolicies(u, w, p)
    ensures NamespaceChain(u.nm, Ingress, NS) in sys.s.table
    ensures Eval(w, sys.s.table, NamespaceChain(u.nm, Ingress, NS), p)
                == PolicyVerdict(w, u.nm, WalkItems(sys.walk), NS, Ingress, p)
  {
    ConfigMeans(u, sys, w, p.src);
    NamespaceChainVerdict(w, u.nm, u.cfg, WalkItems(sys.walk), sys.s.table, NS, Ingress, p);
  }

  lemma EitherExcepts(u: Setup, sys: Sys, w: World, p: Packet, webFirst: bool)
    requires Sound(u, sys) && sys.started && sys.walk == EitherWalk(webFirst) && w.sets == sys.s.sets
    requires FromTheHole(w, p)
    ensures Excepted(w, u.nm, p) && Enter(NS, Ingress) in WalkItems(sys.walk)
  {
    EitherWalkIs(webFirst);
    OuterItems();
    assert PolicyItems(OuterListed())[2] == OuterItem() && PolicyItems(OuterListed())[1] == Enter(NS, Ingress);
    ExceptHas(u, sys, w, OuterItem(), p.src);
    assert "10.1.0.0/16" in BLOCK.except;
  }

  lemma EitherDecides(u: Setup, states: seq<Sys>, acts: seq<Act>, w: World, p: Packet, webFirst: bool)
    requires IsRun(u, states, acts) && |acts| == 3 && states[3].started && states[3].walk == EitherWalk(webFirst)
    requires w.sets == states[3].s.sets && LeftToPolicies(u, w, p) && FromTheHole(w, p)
    ensures NamespaceChain(u.nm, Ingress, NS) in states[3].s.table
    ensures Eval(w, states[3].s.table, NamespaceChain(u.nm, Ingress, NS), p) == if webFirst then Accepted else Rejected
  {
    RunSound(u, states, acts, 3);
    EitherExcepts(u, states[3], w, p, webFirst);
    OrderDecides(w, u.nm, p, webFirst);
    WalkedVerdict(u, states[3], w, p);
  }

  /**
   * The order of the walk decides a packet. One policy admits 10.0.0.0/8 without 10.1.0.0/16, the other opens
   * TCP port 80. Two runs with the same reports, which differ in nothing but the order in which the first
   * synchronisation ranges over the policies: the kernel of one rejects every packet from 10.1.0.0/16 to that
   * port, and the kernel of the other accepts them. `inNet` is CIDR membership, which is the same for both.
   */
  lemma WalkOrderDecides(nm: Namer, cfg: Config, flannel: Option<set<string>>)
    returns (u: Setup, states: seq<Sys>, acts: seq<Act>, states': seq<Sys>, acts': seq<Act>)
    requires Apart(nm)
    ensures u.nm == nm && u.cfg == cfg && u.flannel == flannel
    ensures IsRun(u, states, acts) && IsRun(u, states', acts') && |acts| == |acts'| == 3 && acts[..2] == acts'[..2]
    ensures acts[2].FirstSync? && acts'[2].FirstSync?
    ensures states[3].flushed == states'[3].flushed == Objects(Both(), map[], map[])
    ensures forall w: World, p ::
              w.sets == states[3].s.sets && LeftToPolicies(u, w, p) && FromTheHole(w, p)
              ==> && NamespaceChain(nm, Ingress, NS) in states[3].s.table
                  && Eval(w, states[3].s.table, NamespaceChain(nm, Ingress, NS), p) == Rejected
    ensures forall w: World, p ::
              w.sets == states'[3].s.sets && LeftToPolicies(u, w, p) && FromTheHole(w, p)
              ==> && NamespaceChain(nm, Ingress, NS) in states'[3].s.table
                  && Eval(w, states'[3].s.table, NamespaceChain(nm, Ingress, NS), p) == Accepted
  {
    u := AnySetup(nm, cfg, flannel);
    BothNamesServe(nm, cfg, flannel, false);
    BothNamesServe(nm, cfg, flannel, true);
    var before, reports := BothRun(u);
    states, acts := EitherRun(u, false, before, reports);
    states', acts' := EitherRun(u, true, before, reports);
    forall w: World, p | w.sets == states[3].s.sets && LeftToPolicies(u, w, p) && FromTheHole(w, p)
      ensures NamespaceChain(nm, Ingress, NS) in states[3].s.table
      ensures Eval(w, states[3].s.table, NamespaceChain(nm, Ingress, NS), p) == Rejected
    {
      EitherDecides(u, states, acts, w, p, false);
    }
    forall w: World, p | w.sets == states'[3].s.sets && LeftToPolicies(u, w, p) && FromTheHole(w, p)
      ensures NamespaceChain(nm, Ingress, NS) in states'[3].s.table
      ensures Eval(w, states'[3].s.table, NamespaceChain(nm, Ingress, NS), p) == Accepted
    {
      EitherDecides(u, states', acts', w, p, true);
    }
  }
}
