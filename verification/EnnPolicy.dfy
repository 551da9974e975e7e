/**
 * The controller: the maps it keeps, the buffers it writes the restore script into, and the loops
 * of its synchronisations, proved against the steps they are modelled by.
 */
module EnnPolicies {
  import opened Options
  import opened Names
  import opened Naming
  import opened Netfilter
  import opened Orders
  import opened Policies
  import opened Indexes
  import opened Joins
  import opened Coalescing
  import opened Pods
  import opened PolicySpecs
  import opened Compiler
  import opened Restoring
  import opened Reconciler
  import opened Syncs
  import opened RuleSync
  import opened IndexMaps
  import opened Kernels
  import opened SetSync
  import opened Cluster
  import opened Runs
  import opened EndToEnd
  import Flannel
  import Octets
  import opened Emitting
  import opened Visiting

  datatype SyncType = SYNCALL | SYNCNETWORKPOLICY | SYNCPOD | SYNCNAMESPACE

  /** What a step of a run was asked for; the first synchronisation is none of these. */
  function SyncKind(a: Act): Option<SyncType> {
    match a
    case SyncAll(_, _, _) => Some(SYNCALL)
    case SyncPolicies(_, _, _) => Some(SYNCNETWORKPOLICY)
    case SyncPods(_, _, _, _) => Some(SYNCPOD)
    case SyncNamespaces(_, _) => Some(SYNCNAMESPACE)
    case _ => None
  }

  /** The setup of a state a run can be in. */
  ghost function Standing(u: Setup, sys: Sys): Option<Setup> {
    if Sound(u, sys) && KernelClean(sys.s) then Some(u) else None
  }

  lemma StandingNext(u: Setup, sys: Sys, a: Act, sys': Sys)
    requires Standing(u, sys) == Some(u) && Taken(u, sys, a) == Some(sys')
    ensures Standing(u, sys') == Some(u)
  {
    SoundTrackable(u, sys);
    NextSound(u, sys, a);
    NextClean(u, sys, a);
  }

  lemma StandingFirst(u: Setup, sys: Sys)
    requires Init(u.nm, sys) && KernelClean(sys.s)
    ensures Standing(u, sys) == Some(u)
  {
    InitSound(u, sys);
  }

  /** What the synchronisations need of the state of a run. */
  lemma StandingStarts(u: Setup, sys: Sys)
    requires Standing(u, sys) == Some(u)
    ensures ForeignClean(sys.s.table) && HasConfigSets(u.nm, sys.s) && SingleItems(sys.labelItems)
    ensures OwnKeys(sys.infoItems) && Replaced(sys.infos, sys.infoItems) == InfosOf(sys.store.namespaces)
    ensures Replaced(sys.flushed.policies, sys.policyItems) == sys.store.policies
    ensures Created(Created(sys.s.sets, FlannelNetSet(u.nm)), IpRangeSet(u.nm)) == sys.s.sets
  {
    ReadyForRules(u, sys);
    SinglePods(sys);
    NamespaceItemsOwn(sys);
    PoliciesTakeOver(sys);
  }

  class EnnPolicy {
    const nm: Namer
    const cfg: Config
    const kernel: Kernel

    const podChanges: PodChangeMap
    const namespaceChanges: NamespaceChangeMap
    const networkPolicyChanges: NetworkPolicyChangeMap

    const networkPolicyMap: NetworkPolicyMap
    const namespaceInfoMap: NamespaceInfoMap
    const podMatchLabelMap: PodIndex<NsLabel>
    const namespacePodMap: PodIndex<string>
    const namespaceMatchLabelMap: PodIndex<Label>

    const flannelLen: int

    var networkPolicySynced: bool
    var podSynced: bool
    var namespaceSynced: bool
    /** All three sources have been received. */
    var initialized: bool
    /** Still to be done: the first synchronisation, which does everything. */
    var initAllSynced: bool

    /** The sets activated by the last synchronisation of rules. */
    var activeIPSets: set<SetName>
    var podXLabelMap: map<Key, Scoped>
    /** podLabelSet, podXLabelSet, namespacePodSet and namespacePodLabelSet, told apart by the kind of tag. */
    var tracked: map<Tag, SetName>

    var activeFilterChains: set<Chain>
    var filterChains: seq<Chain>
    var filterRules: seq<Cmd>

    /** The cluster as last reported, what of it has been applied, and the walk the rules were made by. */
    ghost var store: Objects
    ghost var flushed: Objects
    ghost var walk: seq<ListedPolicy>
    ghost var order: seq<Key>

    constructor (nm: Namer, cfg: Config, flannelLen: int, kernel: Kernel)
      ensures this.nm == nm && this.cfg == cfg && this.flannelLen == flannelLen && this.kernel == kernel
      ensures Unused()
      ensures fresh(podChanges) && fresh(namespaceChanges) && fresh(networkPolicyChanges)
      ensures fresh(networkPolicyMap) && fresh(namespaceInfoMap)
      ensures fresh(podMatchLabelMap) && fresh(namespacePodMap) && fresh(namespaceMatchLabelMap)
    {
      this.nm, this.cfg, this.flannelLen, this.kernel := nm, cfg, flannelLen, kernel;
      networkPolicySynced, podSynced, namespaceSynced, initialized, initAllSynced := false, false, false, false, true;
      store, flushed := Objects(map[], map[], map[]), Objects(map[], map[], map[]);
      walk, order := [], [];
      podChanges := new PodChangeMap();
      namespaceChanges := new NamespaceChangeMap();
      networkPolicyChanges := new NetworkPolicyChangeMap();
      networkPolicyMap := new NetworkPolicyMap();
      namespaceInfoMap := new NamespaceInfoMap();
      podMatchLabelMap := new PodIndex();
      namespacePodMap := new PodIndex();
      namespaceMatchLabelMap := new PodIndex();
      activeIPSets, podXLabelMap, tracked := {}, map[], map[];
      activeFilterChains, filterChains, filterRules := {}, [], [];
    }

    /** Nothing has happened yet. */
    ghost predicate Unused()
      reads this, podMatchLabelMap, namespacePodMap, namespaceMatchLabelMap, namespaceInfoMap, podChanges,
            namespaceChanges, networkPolicyChanges, networkPolicyMap
    {
      && !networkPolicySynced && !podSynced && !namespaceSynced && !initialized && initAllSynced
      && store == flushed == Objects(map[], map[], map[])
      && podChanges.podItems == map[] && podChanges.namespacePodItems == map[]
         && podChanges.namespaceLabelItems == map[]
      && namespaceChanges.items == map[] && networkPolicyChanges.items == map[]
      && networkPolicyMap.entries == map[] && namespaceInfoMap.entries == map[]
      && podMatchLabelMap.entries == map[] && namespacePodMap.entries == map[]
         && namespaceMatchLabelMap.entries == map[]
      && activeIPSets == {} && podXLabelMap == map[] && tracked == map[]
    }

    /** The state the synchronisations are specified on. */
    ghost function S(): State
      reads this`activeIPSets, this`podXLabelMap, this`tracked, kernel`sets, kernel`table
      reads podMatchLabelMap, namespacePodMap, namespaceMatchLabelMap
    {
      State(podMatchLabelMap.entries, namespacePodMap.entries, namespaceMatchLabelMap.entries,
            podXLabelMap, tracked, activeIPSets, kernel.sets, kernel.table)
    }

    ghost function B(): Build
      reads this`activeIPSets, this`podXLabelMap, this`tracked, this`activeFilterChains, this`filterChains,
            this`filterRules, kernel`sets, kernel`table
      reads podMatchLabelMap, namespacePodMap, namespaceMatchLabelMap
    {
      Build(filterChains, filterRules, activeFilterChains, S())
    }

    // ---------- writing rules ----------

    method WriteRule(c: Chain, rule: Rule)
      modifies this`filterRules
      ensures filterRules == old(filterRules) + [Append(c, rule)]
    {
      filterRules := filterRules + [Append(c, rule)];
    }

    method WriteChain(c: Chain)
      modifies this`filterChains, this`activeFilterChains
      ensures filterChains == old(filterChains) + [c] && activeFilterChains == old(activeFilterChains) + {c}
    {
      filterChains := filterChains + [c];
      activeFilterChains := activeFilterChains + {c};
    }

    /** One rule per port. */
    method WritePorts(c: Chain, base: seq<Match>, ports: seq<Port>, target: Target)
      modifies this`filterRules
      ensures filterRules == old(filterRules) + Appends(c, PortRules(base, ports, target))
    {
      for i := 0 to |ports|
        invariant filterRules == old(filterRules) + Appends(c, PortRules(base, ports[..i], target))
      {
        ghost var done := Appends(c, PortRules(base, ports[..i], target));
        var rule := Rule(base + [MatchProtocol(ports[i].protocol), MatchPort(ports[i].port)], target);
        PortsMore(c, base, ports, i, target);
        Associate(old(filterRules), done, [Append(c, rule)]);
        WriteRule(c, rule);
      }
      assert ports[..|ports|] == ports;
    }

    /** The name of a selector's set, from its words in whatever order they come. */
    method SelectorSetName(ns: string, selector: Selector) returns (name: SetName)
      requires OrderFree(nm)
      ensures name == SelectorSet(nm, ns, selector)
    {
      var xLabel: seq<string> := [];
      var rest := selector.Keys;
      ghost var order: seq<string> := [];
      while rest != {}
        invariant rest <= selector.Keys && Enumerates(order, selector.Keys - rest)
        invariant xLabel == Flatten(order, selector)
        decreases rest
      {
        var k := Pick(rest);
        EnumeratesMore(order, selector.Keys - rest, k);
        assert selector.Keys - (rest - {k}) == selector.Keys - rest + {k};
        FlattenLast(order, k, selector);
        xLabel := xLabel + [k, selector[k]];
        order := order + [k];
        rest := rest - {k};
      }
      assert selector.Keys - rest == selector.Keys;
      SelectorSetOrderFree(nm, ns, selector, order);
      name := XLabelSet(nm, ns, xLabel);
    }

    /** The match on the policy's own pods; none when the policy has no selector. */
    method OwnPods(ns: string, selector: Selector, d: Direction) returns (own: seq<Match>)
      requires OrderFree(nm)
      ensures own == OwnMatches(nm, ns, selector, d)
    {
      if |selector| == 0 {
        return [];
      }
      var name := SelectorSetName(ns, selector);
      assert selector != map[];
      return [MatchSet(name, if d.Ingress? then Dst else Src)];
    }

    // ---------- sets ----------

    /** A set is created, noted under its key unless the key has one, and activated. */
    method EnsureSet(tag: Tag, name: SetName)
      modifies this`tracked, this`activeIPSets, kernel`sets
      ensures kernel.sets == Created(old(kernel.sets), name)
      ensures tracked == Noted(old(tracked), tag, name)
      ensures activeIPSets == old(activeIPSets) + {name}
    {
      kernel.CreateIPSet(name);
      if tag !in tracked {
        tracked := tracked[tag := name];
      }
      activeIPSets := activeIPSets + {name};
    }

    // ---------- dispatching ----------

    /** The jump from the policy chain to a dispatch chain, which is written first. */
    method WriteDispatch(ply: Chain, c: Chain)
      modifies this`filterChains, this`activeFilterChains, this`filterRules
      ensures filterChains == old(filterChains) + [c] && activeFilterChains == old(activeFilterChains) + {c}
      ensures filterRules == old(filterRules) + [Append(ply, Rule([], Jump(c)))]
    {
      WriteChain(c);
      WriteRule(ply, Rule([], Jump(c)));
    }

    method DispatchOnlyPorts(d: Direction, policy: Policy, ports: seq<Port>, ply: Chain)
      requires OrderFree(nm) && ply == PlyChain(nm, d, policy.ns)
      modifies this`filterChains, this`activeFilterChains, this`filterRules
      ensures B() == Emit(nm, cfg, Peer(policy.ns, policy.name, policy.selector, d, OnlyPorts(ports)), old(B()))
    {
      ghost var item := Peer(policy.ns, policy.name, policy.selector, d, OnlyPorts(ports));
      PeerEmit(nm, cfg, item, B());
      NoSets(nm, item, S());
      var c := Dispatch(nm.dispatchChain(Group(policy.ns, policy.name, d, PortsGroup)));
      WriteDispatch(ply, c);
      var own := OwnPods(policy.ns, policy.selector, d);
      assert own + FarMatches(nm, policy.ns, d, item.clause) == own;
      WritePorts(c, own, ports, Accept);
    }

    /** The rules of a clause with a peer: one without ports when it has none. */
    method WriteClause(c: Chain, base: seq<Match>, ghost clause: Clause, ports: seq<Port>, target: Target)
      requires clause.ports == ports && !clause.OnlyPorts?
      modifies this`filterRules
      ensures filterRules == old(filterRules) + Appends(c, ClauseRules(base, clause, target))
    {
      if |ports| == 0 {
        WriteRule(c, Rule(base, target));
        AppendsOne(c, Rule(base, target));
      }
      WritePorts(c, base, ports, target);
    }

    /** The rules of a peer's dispatch chain, with the match on the peer given. */
    method WritePeer(d: Direction, policy: Policy, far: Match, ports: seq<Port>, c: Chain, target: Target,
                     ghost item: Item)
      requires OrderFree(nm) && item.Peer? && !item.clause.OnlyPorts?
      requires item.ns == policy.ns && item.selector == policy.selector && item.dir == d && item.clause.ports == ports
      requires FarMatches(nm, item.ns, d, item.clause) == [far] && target == TargetOf(nm, item)
      modifies this`filterRules
      ensures filterRules == old(filterRules) + Appends(c, PeerRules(nm, item))
    {
      var own := OwnPods(policy.ns, policy.selector, d);
      WriteClause(c, own + [far], item.clause, ports, target);
    }

    /** A dispatch chain without a chain of its own behind it, and its rules. */
    method WriteGroup(d: Direction, policy: Policy, far: Match, ports: seq<Port>, ply: Chain, c: Chain,
                      ghost item: Item)
      requires OrderFree(nm) && item.Peer? && (item.clause.PodPeer? || item.clause.NamespacePeer?)
      requires item.ns == policy.ns && item.selector == policy.selector && item.dir == d && item.clause.ports == ports
      requires FarMatches(nm, item.ns, d, item.clause) == [far]
      modifies this`filterChains, this`activeFilterChains, this`filterRules
      ensures filterChains == old(filterChains) + [c] && activeFilterChains == old(activeFilterChains) + {c}
      ensures filterRules == old(filterRules) + [Append(ply, Rule([], Jump(c)))] + Appends(c, PeerRules(nm, item))
    {
      WriteDispatch(ply, c);
      WritePeer(d, policy, far, ports, c, Accept, item);
    }

    /** One label pair of a pod selector: a set, a chain and rules of its own. */
    method DispatchPodLabel(d: Direction, policy: Policy, pair: Label, ports: seq<Port>, ply: Chain)
      requires OrderFree(nm) && ply == PlyChain(nm, d, policy.ns)
      modifies this`activeIPSets, this`podXLabelMap, this`tracked, this`activeFilterChains, this`filterChains,
               this`filterRules, kernel`sets
      ensures B() == Emit(nm, cfg, Peer(policy.ns, policy.name, policy.selector, d, PodPeer(pair, ports)), old(B()))
    {
      ghost var b, item := B(), Peer(policy.ns, policy.name, policy.selector, d, PodPeer(pair, ports));
      var selected := PodSet(nm.labelSet(policy.ns, pair));
      EnsureSet(PodLabel(NsLabel(policy.ns, pair)), selected);
      assert S() == ItemApplied(nm, item, b.s) by { PodPeerApplied(nm, item, b.s); }
      var c := Dispatch(nm.dispatchChain(Group(policy.ns, policy.name, d, PodGroup(pair))));
      WriteGroup(d, policy, MatchSet(selected, if d.Ingress? then Src else Dst), ports, ply, c, item);
      PeerEmit(nm, cfg, item, b);
    }

    /** One label pair of a namespace selector. */
    method DispatchNamespaceLabel(d: Direction, policy: Policy, pair: Label, ports: seq<Port>, ply: Chain)
      requires OrderFree(nm) && ply == PlyChain(nm, d, policy.ns)
      modifies this`activeIPSets, this`podXLabelMap, this`tracked, this`activeFilterChains, this`filterChains,
               this`filterRules, kernel`sets
      ensures B() == Emit(nm, cfg, Peer(policy.ns, policy.name, policy.selector, d, NamespacePeer(pair, ports)),
                  old(B()))
    {
      ghost var b, item := B(), Peer(policy.ns, policy.name, policy.selector, d, NamespacePeer(pair, ports));
      var selected := NsLabelSet(nm.namespaceLabelSet(pair));
      EnsureSet(NamespaceLabel(pair), selected);
      assert S() == ItemApplied(nm, item, b.s) by { NamespacePeerApplied(nm, item, b.s); }
      var c := Dispatch(nm.dispatchChain(Group(policy.ns, policy.name, d, NamespaceGroup(pair))));
      WriteGroup(d, policy, MatchSet(selected, if d.Ingress? then Src else Dst), ports, ply, c, item);
      PeerEmit(nm, cfg, item, b);
    }

    method WriteBlock(d: Direction, policy: Policy, block: IpBlock, ports: seq<Port>, ply: Chain, c: Chain, k: Chain,
                      ghost item: Item)
      requires OrderFree(nm) && item == Peer(policy.ns, policy.name, policy.selector, d, BlockPeer(block, ports))
               && k == BlockChainOf(nm, item)
      modifies this`filterChains, this`activeFilterChains, this`filterRules
      ensures filterChains == old(filterChains) + [c] + [k] && activeFilterChains == old(activeFilterChains) + {c} + {k}
      ensures filterRules == old(filterRules) + [Append(ply, Rule([], Jump(c)))] + Appends(c, PeerRules(nm, item))
    {
      WriteChain(c);
      WriteChain(k);
      WriteRule(ply, Rule([], Jump(c)));
      WritePeer(d, policy, MatchNet(block.cidr, if d.Ingress? then Src else Dst), ports, c, Jump(k), item);
    }

    method DispatchIPBlock(d: Direction, policy: Policy, block: IpBlock, ports: seq<Port>, ply: Chain)
      requires OrderFree(nm) && ply == PlyChain(nm, d, policy.ns)
      modifies this`activeIPSets, this`podXLabelMap, this`tracked, this`activeFilterChains, this`filterChains,
               this`filterRules, kernel`sets, kernel`log
      ensures B() == Emit(nm, cfg, Peer(policy.ns, policy.name, policy.selector, d, BlockPeer(block, ports)), old(B()))
    {
      ghost var item := Peer(policy.ns, policy.name, policy.selector, d, BlockPeer(block, ports));
      var group := Group(policy.ns, policy.name, d, BlockGroup(block.cidr));
      var c, k := Dispatch(nm.dispatchChain(group)), IpCidr(nm.blockChain(group));
      WriteBlock(d, policy, block, ports, ply, c, k, item);
      HandleIPBlockChain(d, policy, block, k, item);
      BlockEmit(nm, cfg, item, old(B()));
      BlockPeerApplied(nm, item, old(S()));
    }

    /** The except set of a block and the two rules of its chain. */
    method HandleIPBlockChain(d: Direction, policy: Policy, block: IpBlock, k: Chain, ghost item: Item)
      requires item.Peer? && item.clause.BlockPeer? && item.clause.block == block
      requires GroupOf(item) == Group(policy.ns, policy.name, d, BlockGroup(block.cidr)) && k == BlockChainOf(nm, item)
      modifies this`activeIPSets, this`filterRules, kernel`sets, kernel`log
      ensures var name := ExceptOf(nm, item);
              && kernel.sets == Synced(Created(old(kernel.sets), name), name, set net | net in block.except)
              && activeIPSets == old(activeIPSets) + {name}
      ensures filterRules == old(filterRules) + BlockCmds(nm, item)
    {
      var except := ExceptSet(nm.exceptSet(Group(policy.ns, policy.name, d, BlockGroup(block.cidr))));
      kernel.CreateIPSet(except);
      activeIPSets := activeIPSets + {except};
      var _, _ := SyncIPSetEntryForNet(kernel, except, block.except);
      WriteRule(k, Rule([MatchSet(except, if d.Ingress? then Src else Dst)], Reject));
      WriteRule(k, Rule([], Accept));
    }
  
    // ---------- selectors and rules ----------

    /** Every pair of a pod selector, in whatever order the loop visits them. */
    method DispatchPodSelector(d: Direction, policy: Policy, select: Selector, ports: seq<Port>, ply: Chain)
                               returns (ghost labels: seq<Label>)
      requires OrderFree(nm) && ply == PlyChain(nm, d, policy.ns)
      modifies this`activeIPSets, this`podXLabelMap, this`tracked, this`activeFilterChains, this`filterChains,
               this`filterRules, kernel`sets
      ensures Enumerates(labels, Pairs(select))
      ensures B() == EmitAll(nm, cfg, LabelItems(policy, d, true, labels, ports), old(B()))
    {
      var rest := select.Keys;
      labels := [];
      assert select - rest == map[];
      while rest != {}
        invariant rest <= select.Keys && Enumerates(labels, Pairs(select - rest))
        invariant B() == EmitAll(nm, cfg, LabelItems(policy, d, true, labels, ports), old(B()))
        decreases rest
      {
        var k := Pick(rest);
        var pair := Label(k, select[k]);
        PairsOfLabels(select, rest, k);
        EnumeratesMore(labels, Pairs(select - rest), pair);
        assert (labels + [pair])[..|labels|] == labels;
        EmitMore(nm, cfg, LabelItems(policy, d, true, labels, ports),
            Peer(policy.ns, policy.name, policy.selector, d, PodPeer(pair, ports)), old(B()));
        DispatchPodLabel(d, policy, pair, ports, ply);
        labels := labels + [pair];
        rest := rest - {k};
      }
      assert select - rest == select;
    }

    method DispatchNamespaceSelector(d: Direction, policy: Policy, select: Selector, ports: seq<Port>, ply: Chain)
                                     returns (ghost labels: seq<Label>)
      requires OrderFree(nm) && ply == PlyChain(nm, d, policy.ns)
      modifies this`activeIPSets, this`podXLabelMap, this`tracked, this`activeFilterChains, this`filterChains,
               this`filterRules, kernel`sets
      ensures Enumerates(labels, Pairs(select))
      ensures B() == EmitAll(nm, cfg, LabelItems(policy, d, false, labels, ports), old(B()))
    {
      var rest := select.Keys;
      labels := [];
      assert select - rest == map[];
      while rest != {}
        invariant rest <= select.Keys && Enumerates(labels, Pairs(select - rest))
        invariant B() == EmitAll(nm, cfg, LabelItems(policy, d, false, labels, ports), old(B()))
        decreases rest
      {
        var k := Pick(rest);
        var pair := Label(k, select[k]);
        PairsOfLabels(select, rest, k);
        EnumeratesMore(labels, Pairs(select - rest), pair);
        assert (labels + [pair])[..|labels|] == labels;
        EmitMore(nm, cfg, LabelItems(policy, d, false, labels, ports),
            Peer(policy.ns, policy.name, policy.selector, d, NamespacePeer(pair, ports)), old(B()));
        DispatchNamespaceLabel(d, policy, pair, ports, ply);
        labels := labels + [pair];
        rest := rest - {k};
      }
      assert select - rest == select;
    }

    method DispatchPodSelectors(d: Direction, policy: Policy, selects: seq<Selector>, ports: seq<Port>, ply: Chain)
                                returns (ghost lists: seq<seq<Label>>)
      requires OrderFree(nm) && ply == PlyChain(nm, d, policy.ns)
      modifies this`activeIPSets, this`podXLabelMap, this`tracked, this`activeFilterChains, this`filterChains,
               this`filterRules, kernel`sets
      ensures ListsSelectors(lists, selects)
      ensures B() == EmitAll(nm, cfg, SelectorItems(policy, d, true, lists, ports), old(B()))
    {
      lists := [];
      for i := 0 to |selects|
        invariant ListsSelectors(lists, selects[..i])
        invariant B() == EmitAll(nm, cfg, SelectorItems(policy, d, true, lists, ports), old(B()))
      {
        ghost var labels := DispatchPodSelector(d, policy, selects[i], ports, ply);
        SelectorsEmit(nm, cfg, policy, d, true, lists, labels, ports, old(B()));
        SelectorsMore(lists, selects, i, labels);
        lists := lists + [labels];
      }
      assert selects[..|selects|] == selects;
    }

    method DispatchNamespaceSelectors(d: Direction, policy: Policy, selects: seq<Selector>, ports: seq<Port>,
                                      ply: Chain) returns (ghost lists: seq<seq<Label>>)
      requires OrderFree(nm) && ply == PlyChain(nm, d, policy.ns)
      modifies this`activeIPSets, this`podXLabelMap, this`tracked, this`activeFilterChains, this`filterChains,
               this`filterRules, kernel`sets
      ensures ListsSelectors(lists, selects)
      ensures B() == EmitAll(nm, cfg, SelectorItems(policy, d, false, lists, ports), old(B()))
    {
      lists := [];
      for i := 0 to |selects|
        invariant ListsSelectors(lists, selects[..i])
        invariant B() == EmitAll(nm, cfg, SelectorItems(policy, d, false, lists, ports), old(B()))
      {
        ghost var labels := DispatchNamespaceSelector(d, policy, selects[i], ports, ply);
        SelectorsEmit(nm, cfg, policy, d, false, lists, labels, ports, old(B()));
        SelectorsMore(lists, selects, i, labels);
        lists := lists + [labels];
      }
      assert selects[..|selects|] == selects;
    }

    method DispatchIPBlocks(d: Direction, policy: Policy, blocks: seq<IpBlock>, ports: seq<Port>, ply: Chain)
      requires OrderFree(nm) && ply == PlyChain(nm, d, policy.ns)
      modifies this`activeIPSets, this`podXLabelMap, this`tracked, this`activeFilterChains, this`filterChains,
               this`filterRules, kernel`sets, kernel`log
      ensures B() == EmitAll(nm, cfg, BlockItems(policy, d, blocks, ports), old(B()))
    {
      for i := 0 to |blocks|
        invariant B() == EmitAll(nm, cfg, BlockItems(policy, d, blocks[..i], ports), old(B()))
      {
        BlocksMore(policy, d, blocks, i, ports);
        EmitMore(nm, cfg, BlockItems(policy, d, blocks[..i], ports),
            Peer(policy.ns, policy.name, policy.selector, d, BlockPeer(blocks[i], ports)), old(B()));
        DispatchIPBlock(d, policy, blocks[i], ports, ply);
      }
      assert blocks[..|blocks|] == blocks;
    }

    /** One rule: its ports alone when it has no peer, else its pod peers, namespace peers and blocks. */
    method DispatchRule(d: Direction, policy: Policy, rule: PeerRule, ply: Chain) returns (ghost l: ListedRule)
      requires OrderFree(nm) && ply == PlyChain(nm, d, policy.ns)
      modifies this`activeIPSets, this`podXLabelMap, this`tracked, this`activeFilterChains, this`filterChains,
               this`filterRules, kernel`sets, kernel`log
      ensures Lists(l, rule)
      ensures B() == EmitAll(nm, cfg, RuleItems(policy, d, l), old(B()))
    {
      ghost var b := B();
      ghost var only := if |rule.pods| == 0 && |rule.namespaces| == 0 && |rule.blocks| == 0 && |rule.ports| > 0
                        then [Peer(policy.ns, policy.name, policy.selector, d, OnlyPorts(rule.ports))] else [];
      if |rule.pods| == 0 && |rule.namespaces| == 0 && |rule.blocks| == 0 {
        if |rule.ports| > 0 {
          DispatchOnlyPorts(d, policy, rule.ports, ply);
          EmitOne(nm, cfg, only[0], b);
        }
      }
      assert B() == EmitAll(nm, cfg, only, b);
      ghost var pods := DispatchPodSelectors(d, policy, rule.pods, rule.ports, ply);
      ghost var namespaces := DispatchNamespaceSelectors(d, policy, rule.namespaces, rule.ports, ply);
      DispatchIPBlocks(d, policy, rule.blocks, rule.ports, ply);
      l := ListedRule(rule.ports, pods, namespaces, rule.blocks);
      RuleEmits(nm, cfg, policy, d, l, only, b);
    }

    // ---------- entering a namespace ----------

    method WriteEntry(entry: Rule)
      modifies this`filterRules
      ensures filterRules == old(filterRules) + [Append(EnnForward, entry), Append(EnnOutput, entry)]
    {
      WriteRule(EnnForward, entry);
      WriteRule(EnnOutput, entry);
    }

    /** What the ingress chain of a namespace holds: flannel addresses, then the ip range. */
    method WriteNamespaceIngress(ns: string, c: Chain, ply: Chain)
      requires c == NamespaceChain(nm, Ingress, ns) && ply == PlyChain(nm, Ingress, ns)
      modifies this`filterRules
      ensures filterRules == old(filterRules) + NamespaceCmds(nm, cfg, Ingress, ns)
    {
      if cfg.acceptFlannel {
        var accept := Rule([MatchSet(FlannelSet(nm.flannelSet), Src)], Accept);
        WriteRule(c, accept);
        AppendsOne(c, accept);
      }
      if cfg.ipRange == "0.0.0.0/0" {
        WriteRule(c, Rule([], Jump(ply)));
        AppendsOne(c, Rule([], Jump(ply)));
      } else {
        var within := Rule([MatchSet(RangeSet(nm.rangeSet), Src)], Jump(ply));
        WriteRule(c, within);
        WriteRule(c, Rule([], Accept));
        AppendsTwo(c, within, Rule([], Accept));
      }
    }

    method WriteIngress(ns: string, c: Chain, ply: Chain)
      requires c == NamespaceChain(nm, Ingress, ns) && ply == PlyChain(nm, Ingress, ns)
      modifies this`filterChains, this`activeFilterChains, this`filterRules
      ensures filterChains == old(filterChains) + [c] + [ply]
              && activeFilterChains == old(activeFilterChains) + {c} + {ply}
      ensures filterRules == old(filterRules) + (if c in old(activeFilterChains) then []
                  else EntryCmds(nm, Ingress, ns))
                             + (if ply in old(activeFilterChains) then [] else NamespaceCmds(nm, cfg, Ingress, ns))
    {
      var entered, ruled := c in activeFilterChains, ply in activeFilterChains;
      WriteChain(c);
      if !entered {
        WriteEntry(Rule([MatchSet(NsSet(nm.namespaceSet(ns)), Dst)], Jump(c)));
      }
      WriteChain(ply);
      if !ruled {
        WriteNamespaceIngress(ns, c, ply);
      }
    }

    method EnterIngress(ns: string) returns (ply: Chain)
      modifies this`filterChains, this`activeFilterChains, this`filterRules
      ensures ply == PlyChain(nm, Ingress, ns)
      ensures B() == Emit(nm, cfg, Enter(ns, Ingress), old(B()))
    {
      EnterEmit(nm, cfg, ns, Ingress, B());
      ply := PlyIn(nm.plyChain(ns));
      WriteIngress(ns, NsIn(nm.namespaceChain(ns)), ply);
    }

    /** What the egress chain of a namespace holds: flannel addresses, then the ip range. */
    method WriteNamespaceEgress(ns: string, c: Chain, ply: Chain)
      requires c == NamespaceChain(nm, Egress, ns) && ply == PlyChain(nm, Egress, ns)
      modifies this`filterRules
      ensures filterRules == old(filterRules) + NamespaceCmds(nm, cfg, Egress, ns)
    {
      if cfg.acceptFlannel {
        var accept := Rule([MatchSet(FlannelSet(nm.flannelSet), Dst)], Accept);
        WriteRule(c, accept);
        AppendsOne(c, accept);
      }
      if cfg.ipRange == "0.0.0.0/0" {
        WriteRule(c, Rule([], Jump(ply)));
        AppendsOne(c, Rule([], Jump(ply)));
      } else {
        var within := Rule([MatchSet(RangeSet(nm.rangeSet), Dst)], Jump(ply));
        WriteRule(c, within);
        WriteRule(c, Rule([], Accept));
        AppendsTwo(c, within, Rule([], Accept));
      }
    }

    method WriteEgress(ns: string, c: Chain, ply: Chain)
      requires c == NamespaceChain(nm, Egress, ns) && ply == PlyChain(nm, Egress, ns)
      modifies this`filterChains, this`activeFilterChains, this`filterRules
      ensures filterChains == old(filterChains) + [c] + [ply]
              && activeFilterChains == old(activeFilterChains) + {c} + {ply}
      ensures filterRules == old(filterRules) + (if c in old(activeFilterChains) then [] else EntryCmds(nm, Egress, ns))
                             + (if ply in old(activeFilterChains) then [] else NamespaceCmds(nm, cfg, Egress, ns))
    {
      var entered, ruled := c in activeFilterChains, ply in activeFilterChains;
      WriteChain(c);
      if !entered {
        WriteEntry(Rule([MatchSet(NsSet(nm.namespaceSet(ns)), Src)], Jump(c)));
      }
      WriteChain(ply);
      if !ruled {
        WriteNamespaceEgress(ns, c, ply);
      }
    }

    method EnterEgress(ns: string) returns (ply: Chain)
      modifies this`filterChains, this`activeFilterChains, this`filterRules
      ensures ply == PlyChain(nm, Egress, ns)
      ensures B() == Emit(nm, cfg, Enter(ns, Egress), old(B()))
    {
      EnterEmit(nm, cfg, ns, Egress, B());
      ply := PlyOut(nm.plyChain(ns));
      WriteEgress(ns, NsOut(nm.namespaceChain(ns)), ply);
    }

    method DispatchRules(d: Direction, policy: Policy, rules: seq<PeerRule>, ply: Chain)
                         returns (ghost ls: seq<ListedRule>)
      requires OrderFree(nm) && ply == PlyChain(nm, d, policy.ns)
      modifies this`activeIPSets, this`podXLabelMap, this`tracked, this`activeFilterChains, this`filterChains,
               this`filterRules, kernel`sets, kernel`log
      ensures ListsRules(ls, rules)
      ensures B() == EmitAll(nm, cfg, RulesItems(policy, d, ls), old(B()))
    {
      ls := [];
      for i := 0 to |rules|
        invariant ListsRules(ls, rules[..i])
        invariant B() == EmitAll(nm, cfg, RulesItems(policy, d, ls), old(B()))
      {
        ghost var l := DispatchRule(d, policy, rules[i], ply);
        RulesEmit(nm, cfg, policy, d, ls, l, old(B()));
        ListsMore(ls, rules, i, l);
        ls := ls + [l];
      }
      assert rules[..|rules|] == rules;
    }

    method SyncIngressRule(policy: Policy) returns (ghost ls: seq<ListedRule>)
      requires OrderFree(nm)
      modifies this`activeIPSets, this`podXLabelMap, this`tracked, this`activeFilterChains, this`filterChains,
               this`filterRules, kernel`sets, kernel`log
      ensures ListsRules(ls, policy.ingress)
      ensures B() == EmitAll(nm, cfg, [Enter(policy.ns, Ingress)] + RulesItems(policy, Ingress, ls), old(B()))
    {
      var ply := EnterIngress(policy.ns);
      ls := DispatchRules(Ingress, policy, policy.ingress, ply);
      EmitOne(nm, cfg, Enter(policy.ns, Ingress), old(B()));
      EmitConcat(nm, cfg, [Enter(policy.ns, Ingress)], RulesItems(policy, Ingress, ls), old(B()));
    }

    method SyncEgressRule(policy: Policy) returns (ghost ls: seq<ListedRule>)
      requires OrderFree(nm)
      modifies this`activeIPSets, this`podXLabelMap, this`tracked, this`activeFilterChains, this`filterChains,
               this`filterRules, kernel`sets, kernel`log
      ensures ListsRules(ls, policy.egress)
      ensures B() == EmitAll(nm, cfg, [Enter(policy.ns, Egress)] + RulesItems(policy, Egress, ls), old(B()))
    {
      var ply := EnterEgress(policy.ns);
      ls := DispatchRules(Egress, policy, policy.egress, ply);
      EmitOne(nm, cfg, Enter(policy.ns, Egress), old(B()));
      EmitConcat(nm, cfg, [Enter(policy.ns, Egress)], RulesItems(policy, Egress, ls), old(B()));
    }

    // ---------- one policy ----------

    /** The sets of the pairs of a policy's selector, with the words and pairs collected on the way. */
    method CreateLabelSets(ns: string, selector: Selector) returns (xLabel: seq<string>, specLabel: Selector)
      requires OrderFree(nm)
      modifies this`tracked, this`activeIPSets, kernel`sets
      ensures XLabelSet(nm, ns, xLabel) == SelectorSet(nm, ns, selector) && specLabel == selector
      ensures LabelsEnsured(nm, ns, Pairs(selector), old(tracked), old(activeIPSets), old(kernel.sets), tracked,
                  activeIPSets, kernel.sets)
    {
      xLabel, specLabel := [], map[];
      var rest := selector.Keys;
      ghost var order: seq<string> := [];
      assert selector - rest == map[];
      LabelSetsNone(nm, ns, tracked, activeIPSets, kernel.sets);
      while rest != {}
        invariant Listed(selector, rest, order, xLabel, specLabel)
        invariant LabelsEnsured(nm, ns, Pairs(selector - rest), old(tracked), old(activeIPSets), old(kernel.sets),
                      tracked, activeIPSets, kernel.sets)
        decreases rest
      {
        var k := Pick(rest);
        var v := selector[k];
        LabelSetsMore(nm, ns, selector, rest, k, old(tracked), old(activeIPSets), old(kernel.sets), tracked,
            activeIPSets, kernel.sets);
        ListedMore(selector, rest, order, xLabel, specLabel, k);
        EnsureSet(PodLabel(NsLabel(ns, Label(k, v))), PodSet(nm.labelSet(ns, Label(k, v))));
        xLabel, specLabel := xLabel + [k, v], specLabel[k := v];
        order := order + [k];
        rest := rest - {k};
      }
      assert selector - rest == selector && selector.Keys - rest == selector.Keys;
      SelectorSetOrderFree(nm, ns, selector, order);
    }

    /** The sets of a policy: its namespace's, one for each pair of its selector, and the selector's own. */
    method CreatePolicySets(policy: Policy)
      requires OrderFree(nm)
      modifies this`tracked, this`activeIPSets, this`podXLabelMap, kernel`sets
      ensures S() == ItemApplied(nm, Begin(policy.ns, policy.name, policy.selector), old(S()))
    {
      var ns := policy.ns;
      EnsureSet(NamespacePods(ns), NsSet(nm.namespaceSet(ns)));
      var xLabel, specLabel := CreateLabelSets(ns, policy.selector);
      BegunIs(nm, ns, Pairs(policy.selector), old(S()));
      assert S() == BegunSets(nm, ns, Pairs(policy.selector), old(S()));
      BegunAll(nm, Begin(ns, policy.name, policy.selector), old(S()));
      if |policy.selector| > 0 {
        CreateSelectorSet(Key(ns, policy.name), XLabelSet(nm, ns, xLabel), Scoped(ns, specLabel));
      }
    }

    /** The set of a policy's own selector. */
    method CreateSelectorSet(key: Key, name: SetName, scoped: Scoped)
      modifies this`tracked, this`activeIPSets, this`podXLabelMap, kernel`sets
      ensures S() == old(S()).(tracked := old(tracked)[XLabel(key) := name],
                  selectors := old(podXLabelMap)[key := scoped],
                               active := old(activeIPSets) + {name}, sets := Created(old(kernel.sets), name))
    {
      kernel.CreateIPSet(name);
      activeIPSets := activeIPSets + {name};
      podXLabelMap := podXLabelMap[key := scoped];
      tracked := tracked[XLabel(key) := name];
    }

    /** Everything the walk does for one policy. */
    method SyncPolicy(policy: Policy) returns (ghost l: ListedPolicy)
      requires OrderFree(nm)
      modifies this`activeIPSets, this`podXLabelMap, this`tracked, this`activeFilterChains, this`filterChains,
               this`filterRules, kernel`sets, kernel`log
      ensures l.policy == policy && ListsPolicy(l)
      ensures B() == EmitAll(nm, cfg, PolicyItems(l), old(B()))
    {
      ghost var begin := Begin(policy.ns, policy.name, policy.selector);
      CreatePolicySets(policy);
      BeginEmit(nm, cfg, begin, old(B()));
      EmitOne(nm, cfg, begin, old(B()));
      ghost var b := B();
      ghost var sections := SyncTypes(policy);
      l := ListedPolicy(policy, sections);
      EmitConcat(nm, cfg, [begin], SectionItems(policy, policy.types, sections), old(B()));
    }

    method SyncType(policy: Policy, policyType: Direction) returns (ghost ls: seq<ListedRule>)
      requires OrderFree(nm)
      modifies this`activeIPSets, this`podXLabelMap, this`tracked, this`activeFilterChains, this`filterChains,
               this`filterRules, kernel`sets, kernel`log
      ensures ListsRules(ls, policy.Rules(policyType))
      ensures B() == EmitAll(nm, cfg, [Enter(policy.ns, policyType)] + RulesItems(policy, policyType, ls), old(B()))
    {
      if policyType.Ingress? {
        ls := SyncIngressRule(policy);
      } else {
        ls := SyncEgressRule(policy);
      }
    }

    method SyncTypes(policy: Policy) returns (ghost sections: seq<seq<ListedRule>>)
      requires OrderFree(nm)
      modifies this`activeIPSets, this`podXLabelMap, this`tracked, this`activeFilterChains, this`filterChains,
               this`filterRules, kernel`sets, kernel`log
      ensures ListsPolicy(ListedPolicy(policy, sections))
      ensures B() == EmitAll(nm, cfg, SectionItems(policy, policy.types, sections), old(B()))
    {
      sections := [];
      ghost var done: seq<Direction> := [];
      for i := 0 to |policy.types|
        invariant done == policy.types[..i] && TypesEmitted(nm, cfg, policy, done, sections, old(B()), B())
      {
        var d := policy.types[i];
        TakeMore(policy.types, i);
        ghost var before := B();
        ghost var ls := SyncType(policy, d);
        SectionEmits(nm, cfg, policy, done, sections, d, ls, old(B()), before, B());
        sections := sections + [ls];
        done := done + [d];
      }
      assert done == policy.types;
    }

    // ---------- all policies ----------

    method WalkPolicies() returns (ghost ls: seq<ListedPolicy>, ghost order: seq<Key>)
      requires OrderFree(nm)
      modifies this`activeIPSets, this`podXLabelMap, this`tracked, this`activeFilterChains, this`filterChains,
               this`filterRules, kernel`sets, kernel`log
      ensures Walks(ls, order, networkPolicyMap.entries)
      ensures B() == EmitAll(nm, cfg, WalkItems(ls), old(B()))
    {
      var policies := networkPolicyMap.entries;
      var rest := policies.Keys;
      ls, order := [], [];
      assert policies - rest == map[];
      while rest != {}
        invariant rest <= policies.Keys && networkPolicyMap.entries == policies
        invariant WalkEmitted(nm, cfg, ls, order, policies - rest, old(B()), B())
        decreases rest
      {
        var key := Pick(rest);
        ghost var before := B();
        ghost var l := SyncPolicy(policies[key]);
        WalkMore(nm, cfg, ls, order, policies, rest, key, l, old(B()), before, B());
        ls, order := ls + [l], order + [key];
        rest := rest - {key};
      }
      assert policies - rest == policies;
    }

    /** The first and last rule of every policy chain, after all others have been written. */
    method WriteFrames() returns (ghost plies: seq<Chain>)
      modifies this`filterRules
      ensures Enumerates(plies, set c | c in activeFilterChains && Ply(c))
      ensures filterRules == old(filterRules) + Frames(plies)
    {
      var all := set c | c in activeFilterChains && Ply(c);
      var rest := all;
      plies := [];
      while rest != {}
        invariant rest <= all && Enumerates(plies, all - rest)
        invariant filterRules == old(filterRules) + Frames(plies)
        decreases rest
      {
        var c := Pick(rest);
        assert all - (rest - {c}) == all - rest + {c};
        EnumeratesMore(plies, all - rest, c);
        FramesMore(old(filterRules), plies, c);
        filterRules := filterRules + [Insert(c, CONNTRACK), Append(c, DEFAULT)];
        plies := plies + [c];
        rest := rest - {c};
      }
      assert all - rest == all;
    }

    /** Generated chains no longer in use are flushed by a chain line and deleted. */
    method WriteStale(existing: set<Chain>) returns (ghost stale: seq<Chain>)
      modifies this`filterChains, this`filterRules
      ensures Enumerates(stale, set c | c in existing && Dynamic(c) && c !in activeFilterChains)
      ensures filterChains == old(filterChains) + stale && filterRules == old(filterRules) + Deletes(stale)
    {
      var all := set c | c in existing && Dynamic(c) && c !in activeFilterChains;
      var rest := all;
      stale := [];
      while rest != {}
        invariant rest <= all && Enumerates(stale, all - rest)
        invariant filterChains == old(filterChains) + stale && filterRules == old(filterRules) + Deletes(stale)
        decreases rest
      {
        var c := Pick(rest);
        EnumeratesMore(stale, all - rest, c);
        assert all - (rest - {c}) == all - rest + {c};
        assert (stale + [c])[..|stale|] == stale;
        filterChains := filterChains + [c];
        filterRules := filterRules + [Delete(c)];
        stale := stale + [c];
        rest := rest - {c};
      }
      assert all - rest == all;
    }

    /** Both halves of the restore script, and the sets its rules will refer to. */
    method WriteScript(existing: set<Chain>) returns (ghost ls: seq<ListedPolicy>, ghost order: seq<Key>,
                       ghost plies: seq<Chain>, ghost stale: seq<Chain>)
      requires OrderFree(nm) && existing == kernel.table.Keys
      modifies this`activeIPSets, this`podXLabelMap, this`tracked, this`activeFilterChains, this`filterChains,
               this`filterRules, kernel`sets, kernel`log
      ensures Walks(ls, order, networkPolicyMap.entries)
      ensures Enumerates(plies, Plies(nm, cfg, WalkItems(ls)))
              && Enumerates(stale, Stale(nm, cfg, WalkItems(ls), kernel.table))
      ensures filterChains == ScriptChains(nm, cfg, WalkItems(ls), stale)
              && filterRules == ScriptCmds(nm, cfg, WalkItems(ls), plies, stale)
      ensures S() == Applied(nm, WalkItems(ls), old(S()))
    {
      filterChains, filterRules := [EnnInput, EnnOutput, EnnForward], [];
      activeFilterChains := {};
      ghost var b := B();
      ls, order := WalkPolicies();
      EmitIs(nm, cfg, WalkItems(ls), ENTRIES, b.s);
      plies := WriteFrames();
      stale := WriteStale(existing);
    }

    /**
     * syncPolicyRules: the script is accepted, and what it leaves is the compilation of the policies
     * in the order they were walked, with every set of the walk created, tracked and active.
     */
    method SyncPolicyRules() returns (ok: bool, ghost ls: seq<ListedPolicy>, ghost order: seq<Key>)
      requires OrderFree(nm) && ForeignClean(kernel.table)
      requires activeIPSets == {IpRangeSet(nm), FlannelNetSet(nm)} && activeIPSets <= kernel.sets.Keys
      modifies this`activeIPSets, this`podXLabelMap, this`tracked, this`activeFilterChains, this`filterChains,
               this`filterRules, kernel
      ensures ok && Walks(ls, order, networkPolicyMap.entries)
      ensures S() == Applied(nm, WalkItems(ls), old(S())).(table := Result(nm, cfg, WalkItems(ls), old(kernel.table)))
    {
      ghost var plies, stale;
      ls, order, plies, stale := WriteScript(kernel.table.Keys);
      WalkBegun(ls, order, networkPolicyMap.entries);
      WalkActive(nm, WalkItems(ls), old(S()));
      RestoreExact(nm, cfg, WalkItems(ls), plies, stale, kernel.table, kernel.sets.Keys);
      ok := kernel.RestoreAll(filterChains, filterRules);
    }

    // ---------- selectors as sets of pods ----------

    /** A copy of the pods under each pair of a selector that is a key of the index. */
    method IndexedMaps(ns: string, selector: Selector) returns (podInfoMaps: seq<PodInfos>)
      ensures forall m :: m in podInfoMaps <==> UnderPair(podMatchLabelMap.entries, ns, selector, m)
    {
      podInfoMaps := [];
      var rest := selector.Keys;
      assert selector - rest == map[];
      while rest != {}
        invariant rest <= selector.Keys
        invariant forall m :: m in podInfoMaps <==> UnderPair(podMatchLabelMap.entries, ns, selector - rest, m)
        decreases rest
      {
        var k := Pick(rest);
        var l := NsLabel(ns, Label(k, selector[k]));
        UnderPairMore(podMatchLabelMap.entries, ns, selector, rest, k);
        if l in podMatchLabelMap.entries {
          var copied := PutPods(map[], podMatchLabelMap.entries[l]);
          assert copied == podMatchLabelMap.entries[l];
          podInfoMaps := podInfoMaps + [copied];
        }
        rest := rest - {k};
      }
      assert selector - rest == selector;
    }

    /** Deletes from one map of pods what another lacks. */
    method Retain(pods: PodInfos, other: PodInfos) returns (r: PodInfos)
      ensures r.Keys == pods.Keys * other.Keys
    {
      r := pods;
      var rest := pods.Keys;
      while rest != {}
        invariant rest <= pods.Keys && r.Keys == pods.Keys * other.Keys + rest
        decreases rest
      {
        var ip := Pick(rest);
        if ip !in other {
          r := r - {ip};
        }
        rest := rest - {ip};
      }
    }

    /** The pods under every indexed pair; `any` says whether there was one. The index is left as it was. */
    method IntersectPods(ns: string, selector: Selector) returns (any: bool, podInfoMap: PodInfos)
      ensures any <==> AnyIndexed(podMatchLabelMap.entries, ns, selector)
      ensures podInfoMap.Keys == Intersection(podMatchLabelMap.entries, ns, selector)
    {
      var podInfoMaps := IndexedMaps(ns, selector);
      any := |podInfoMaps| > 0;
      podInfoMap := map[];
      if any {
        podInfoMap := podInfoMaps[0];
        for i := 1 to |podInfoMaps|
          invariant forall ip :: ip in podInfoMap <==> InFirst(podInfoMaps, i, ip)
        {
          podInfoMap := Retain(podInfoMap, podInfoMaps[i]);
        }
      }
      UnderPairs(podMatchLabelMap.entries, ns, selector, podInfoMaps, podInfoMap.Keys);
    }

    // ---------- incremental synchronisation of one set ----------

    method TrySyncPodLabelSet(l: NsLabel)
      modifies this`tracked, kernel`sets, kernel`log
      ensures S() == TrySync(old(S()), PodLabel(l))
    {
      var tag := PodLabel(l);
      if tag !in tracked {
        return;
      }
      var ipset := tracked[tag];
      if ipset !in activeIPSets {
        tracked := tracked - {tag};
        return;
      }
      if l in podMatchLabelMap.entries {
        var _, _ := SyncIPSetEntry(kernel, ipset, podMatchLabelMap.entries[l]);
      }
    }

    method TrySyncNamespacePodLabelSet(pair: Label)
      modifies this`tracked, kernel`sets, kernel`log
      ensures S() == TrySync(old(S()), NamespaceLabel(pair))
    {
      var tag := NamespaceLabel(pair);
      if tag !in tracked {
        return;
      }
      var ipset := tracked[tag];
      if ipset !in activeIPSets {
        tracked := tracked - {tag};
        return;
      }
      if pair in namespaceMatchLabelMap.entries {
        var _, _ := SyncIPSetEntry(kernel, ipset, namespaceMatchLabelMap.entries[pair]);
      }
    }

    method TrySyncNamespacePodSet(ns: string)
      modifies this`tracked, kernel`sets, kernel`log
      ensures S() == TrySync(old(S()), NamespacePods(ns))
    {
      var tag := NamespacePods(ns);
      if tag !in tracked {
        return;
      }
      var ipset := tracked[tag];
      if ipset !in activeIPSets {
        tracked := tracked - {tag};
        return;
      }
      if ns in namespacePodMap.entries {
        var _, _ := SyncIPSetEntry(kernel, ipset, namespacePodMap.entries[ns]);
      }
    }

    /** The set of a deleted namespace: destroyed unless a rule refers to it, and forgotten in any case. */
    method TryDeleteNamespacePodSet(ns: string)
      modifies this`tracked, kernel`sets
      ensures S() == TryDrop(old(S()), ns)
    {
      var tag := NamespacePods(ns);
      if tag !in tracked {
        return;
      }
      var _ := kernel.DestroyIPSet(tracked[tag]);
      tracked := tracked - {tag};
    }

    /** The set of one policy's selector. */
    method TrySyncSelectorSet(k: Key)
      requires k in podXLabelMap
      modifies this`tracked, kernel`sets, kernel`log
      ensures S() == TrySync(old(S()), XLabel(k))
    {
      var tag, scoped := XLabel(k), podXLabelMap[k];
      if tag !in tracked {
        return;
      }
      var ipset := tracked[tag];
      if ipset !in activeIPSets {
        tracked := tracked - {tag};
        return;
      }
      if |scoped.selector| == 0 {
        return;
      }
      var _, podInfoMap := IntersectPods(scoped.ns, scoped.selector);
      var _, _ := SyncIPSetEntry(kernel, ipset, podInfoMap);
    }

    /** Every selector with the label in it, found by a scan over all policies. */
    method TrySyncPodXLabelSet(l: NsLabel) returns (ghost visits: seq<Visit>)
      modifies this`tracked, kernel`sets, kernel`log
      ensures Covering(visits, SelectorTags(old(podXLabelMap), {l}))
      ensures S() == TryAll(old(S()), visits)
    {
      var rest := podXLabelMap.Keys;
      visits := [];
      ghost var selectors := podXLabelMap;
      assert selectors - rest == map[];
      while rest != {}
        invariant rest <= selectors.Keys && podXLabelMap == selectors
        invariant Covering(visits, SelectorTags(selectors - rest, {l}))
        invariant S() == TryAll(old(S()), visits)
        decreases rest
      {
        var k := Pick(rest);
        var scoped := podXLabelMap[k];
        SelectorTagsMore(selectors, rest, k, l);
        if scoped.ns == l.ns && l.pair.key in scoped.selector && scoped.selector[l.pair.key] == l.pair.value {
          CoveringMore(visits, SelectorTags(selectors - rest, {l}), XLabel(k));
          TryMore(old(S()), visits, Sync(XLabel(k)));
          TrySyncSelectorSet(k);
          visits := visits + [Sync(XLabel(k))];
        }
        rest := rest - {k};
      }
      assert selectors - rest == selectors;
    }

    // ---------- full synchronisation ----------

    /** One tracked set, active or not, filled from its index; a key the index does not know is passed over. */
    method FullSyncSet(tag: Tag)
      requires tag in tracked
      modifies kernel`sets, kernel`log
      ensures S() == FullSync(old(S()), tag)
    {
      match tag
      case NamespacePods(ns) =>
        if ns in namespacePodMap.entries {
          var _, _ := SyncIPSetEntry(kernel, tracked[tag], namespacePodMap.entries[ns]);
        }
      case PodLabel(l) =>
        if l in podMatchLabelMap.entries {
          var _, _ := SyncIPSetEntry(kernel, tracked[tag], podMatchLabelMap.entries[l]);
        }
      case NamespaceLabel(pair) =>
        if pair in namespaceMatchLabelMap.entries {
          var _, _ := SyncIPSetEntry(kernel, tracked[tag], namespaceMatchLabelMap.entries[pair]);
        }
      case XLabel(k) => FullSyncSelectorSet(k);
    }

    method FullSyncSelectorSet(k: Key)
      requires XLabel(k) in tracked
      modifies kernel`sets, kernel`log
      ensures S() == FullSync(old(S()), XLabel(k))
    {
      if k !in podXLabelMap || |podXLabelMap[k].selector| == 0 {
        return;
      }
      var scoped := podXLabelMap[k];
      var any, podInfoMap := IntersectPods(scoped.ns, scoped.selector);
      if any {
        var _, _ := SyncIPSetEntry(kernel, tracked[XLabel(k)], podInfoMap);
      }
    }

    /** All tracked sets of one kind. */
    method FullSyncSets(all: set<Tag>) returns (ghost tags: seq<Tag>)
      requires all <= tracked.Keys
      modifies kernel`sets, kernel`log
      ensures forall tag :: tag in tags <==> tag in all
      ensures S() == FullAll(old(S()), tags)
    {
      var rest := all;
      tags := [];
      while rest != {}
        invariant rest <= all && forall tag :: tag in tags <==> tag in all - rest
        invariant S() == FullAll(old(S()), tags)
        decreases rest
      {
        var tag := Pick(rest);
        FullMore(old(S()), tags, tag);
        FullSyncSet(tag);
        tags := tags + [tag];
        rest := rest - {tag};
      }
    }

    /** syncAllPodSets: namespaces, pod labels, namespace labels, selectors. */
    method SyncAllPodSets() returns (ghost tags: seq<Tag>)
      modifies kernel`sets, kernel`log
      ensures Covers(old(S()), tags)
      ensures S() == FullAll(old(S()), tags)
    {
      ghost var a := FullSyncSets(set tag | tag in tracked && tag.NamespacePods?);
      ghost var b := FullSyncSets(set tag | tag in tracked && tag.PodLabel?);
      ghost var c := FullSyncSets(set tag | tag in tracked && tag.NamespaceLabel?);
      ghost var d := FullSyncSets(set tag | tag in tracked && tag.XLabel?);
      tags := a + b + c + d;
      FullConcat(old(S()), a, b);
      FullConcat(old(S()), a + b, c);
      FullConcat(old(S()), a + b + c, d);
      forall tag ensures tag in tags <==> tag in tracked {
        assert tag in tags <==> tag in a || tag in b || tag in c || tag in d;
      }
    }

    // ---------- synchronisation by pods ----------

    method SyncLabel(l: NsLabel) returns (ghost visits: seq<Visit>)
      modifies this`tracked, kernel`sets, kernel`log
      ensures Covering(visits, {PodLabel(l)} + SelectorTags(old(podXLabelMap), {l}))
      ensures S() == TryAll(old(S()), visits)
    {
      ghost var s := S();
      TryMore(s, [], Sync(PodLabel(l)));
      CoveringMore([], {}, PodLabel(l));
      TrySyncPodLabelSet(l);
      ghost var more := TrySyncPodXLabelSet(l);
      TryConcat(s, [] + [Sync(PodLabel(l))], more);
      CoveringBoth([] + [Sync(PodLabel(l))], more, {PodLabel(l)}, SelectorTags(podXLabelMap, {l}));
      visits := [] + [Sync(PodLabel(l))] + more;
    }

    method SyncLabels(labels: set<NsLabel>) returns (ghost visits: seq<Visit>)
      modifies this`tracked, kernel`sets, kernel`log
      ensures Covering(visits, LabelTags(old(podXLabelMap), labels))
      ensures S() == TryAll(old(S()), visits)
    {
      var rest := labels;
      visits := [];
      ghost var s := S();
      LabelTagsNone(podXLabelMap);
      assert labels - rest == {};
      while rest != {}
        invariant rest <= labels && podXLabelMap == old(podXLabelMap)
        invariant Covering(visits, LabelTags(podXLabelMap, labels - rest))
        invariant S() == TryAll(s, visits)
        decreases rest
      {
        var l := Pick(rest);
        ghost var more := SyncLabel(l);
        TryConcat(s, visits, more);
        LabelsVisited(podXLabelMap, labels, rest, l, visits, more);
        visits := visits + more;
        rest := rest - {l};
      }
      assert labels - rest == labels;
    }

    /** Changed pod labels: those of the previous view that the current one has too are left to the latter. */
    method SyncPodItems() returns (ghost visits: seq<Visit>)
      modifies this`tracked, kernel`sets, kernel`log
      ensures Covering(visits, LabelTags(old(podXLabelMap), TouchedKeys(podChanges.podItems)))
      ensures S() == TryAll(old(S()), visits)
    {
      var items := podChanges.podItems;
      var rest := items.Keys;
      visits := [];
      ghost var s := S();
      LabelTagsNone(podXLabelMap);
      assert TouchedKeys(items - rest) == {};
      while rest != {}
        invariant rest <= items.Keys && podXLabelMap == old(podXLabelMap) && items == podChanges.podItems
        invariant Covering(visits, LabelTags(podXLabelMap, TouchedKeys(items - rest)))
        invariant S() == TryAll(s, visits)
        decreases rest
      {
        var key := Pick(rest);
        var previous, current := items[key].previous.Entries(), items[key].current.Entries();
        ghost var a := SyncLabels(previous.Keys - current.Keys);
        ghost var b := SyncLabels(current.Keys);
        TryConcat(s, visits, a);
        TryConcat(s, visits + a, b);
        TouchedMore(items, rest, key);
        LabelTagsThree(podXLabelMap, TouchedKeys(items - rest), previous.Keys, current.Keys);
        CoveringBoth(visits, a, LabelTags(podXLabelMap, TouchedKeys(items - rest)),
            LabelTags(podXLabelMap, previous.Keys - current.Keys));
        CoveringBoth(visits + a, b, LabelTags(podXLabelMap, TouchedKeys(items - rest))
            + LabelTags(podXLabelMap, previous.Keys - current.Keys),
                     LabelTags(podXLabelMap, current.Keys));
        visits := visits + a + b;
        rest := rest - {key};
      }
      assert items - rest == items;
    }

    method SyncNamespaces(names: set<string>) returns (ghost visits: seq<Visit>)
      modifies this`tracked, kernel`sets, kernel`log
      ensures Covering(visits, NamespaceTags(names))
      ensures S() == TryAll(old(S()), visits)
    {
      var rest := names;
      visits := [];
      ghost var s := S();
      assert NamespaceTags(names - rest) == {};
      while rest != {}
        invariant rest <= names && Covering(visits, NamespaceTags(names - rest))
        invariant S() == TryAll(s, visits)
        decreases rest
      {
        var ns := Pick(rest);
        TryMore(s, visits, Sync(NamespacePods(ns)));
        CoveringMore(visits, NamespaceTags(names - rest), NamespacePods(ns));
        assert NamespaceTags(names - (rest - {ns})) == NamespaceTags(names - rest) + {NamespacePods(ns)};
        TrySyncNamespacePodSet(ns);
        visits := visits + [Sync(NamespacePods(ns))];
        rest := rest - {ns};
      }
      assert names - rest == names;
    }

    method SyncNamespaceItems() returns (ghost visits: seq<Visit>)
      modifies this`tracked, kernel`sets, kernel`log
      ensures Covering(visits, NamespaceTags(TouchedKeys(podChanges.namespacePodItems)))
      ensures S() == TryAll(old(S()), visits)
    {
      var items := podChanges.namespacePodItems;
      var rest := items.Keys;
      visits := [];
      ghost var s := S();
      assert NamespaceTags(TouchedKeys(items - rest)) == {};
      while rest != {}
        invariant rest <= items.Keys && items == podChanges.namespacePodItems
        invariant Covering(visits, NamespaceTags(TouchedKeys(items - rest)))
        invariant S() == TryAll(s, visits)
        decreases rest
      {
        var key := Pick(rest);
        var previous, current := items[key].previous.Entries(), items[key].current.Entries();
        ghost var a := SyncNamespaces(previous.Keys - current.Keys);
        ghost var b := SyncNamespaces(current.Keys);
        TryConcat(s, visits, a);
        TryConcat(s, visits + a, b);
        TouchedMore(items, rest, key);
        NamespaceTagsThree(TouchedKeys(items - rest), previous.Keys, current.Keys);
        CoveringBoth(visits, a, NamespaceTags(TouchedKeys(items - rest)), NamespaceTags(previous.Keys - current.Keys));
        CoveringBoth(visits + a, b, NamespaceTags(TouchedKeys(items - rest))
            + NamespaceTags(previous.Keys - current.Keys), NamespaceTags(current.Keys));
        visits := visits + a + b;
        rest := rest - {key};
      }
      assert items - rest == items;
    }

    /** The sets of a namespace's labels. */
    method SyncLabelsOf(labels: map<string, string>) returns (ghost visits: seq<Visit>)
      modifies this`tracked, kernel`sets, kernel`log
      ensures Covering(visits, PairTags(Pairs(labels)))
      ensures S() == TryAll(old(S()), visits)
    {
      var rest := labels.Keys;
      visits := [];
      ghost var s := S();
      assert labels - rest == map[];
      assert PairTags(Pairs(labels - rest)) == {};
      while rest != {}
        invariant rest <= labels.Keys && Covering(visits, PairTags(Pairs(labels - rest)))
        invariant S() == TryAll(s, visits)
        decreases rest
      {
        var k := Pick(rest);
        var pair := Label(k, labels[k]);
        PairsOfLabels(labels, rest, k);
        TryMore(s, visits, Sync(NamespaceLabel(pair)));
        CoveringMore(visits, PairTags(Pairs(labels - rest)), NamespaceLabel(pair));
        assert PairTags(Pairs(labels - rest) + {pair}) == PairTags(Pairs(labels - rest)) + {NamespaceLabel(pair)};
        TrySyncNamespacePodLabelSet(pair);
        visits := visits + [Sync(NamespaceLabel(pair))];
        rest := rest - {k};
      }
      assert labels - rest == labels;
    }

    /** The sets of the labels of some namespaces, as far as the namespaces are known. */
    method SyncLabelsOfAll(names: set<string>) returns (ghost visits: seq<Visit>)
      modifies this`tracked, kernel`sets, kernel`log
      ensures Covering(visits, CarriedTags(namespaceInfoMap.entries, names))
      ensures S() == TryAll(old(S()), visits)
    {
      var rest, infos := names, namespaceInfoMap.entries;
      visits := [];
      ghost var s := S();
      assert CarriedTags(infos, names - rest) == {};
      while rest != {}
        invariant rest <= names && infos == namespaceInfoMap.entries
                  && Covering(visits, CarriedTags(infos, names - rest))
        invariant S() == TryAll(s, visits)
        decreases rest
      {
        var ns := Pick(rest);
        CarriedMore(infos, names, rest, ns);
        if ns in infos {
          ghost var more := SyncLabelsOf(infos[ns].labels.Entries());
          TryConcat(s, visits, more);
          CoveringBoth(visits, more, CarriedTags(infos, names - rest), PairTags(Pairs(infos[ns].labels.Entries())));
          visits := visits + more;
        }
        rest := rest - {ns};
      }
      assert names - rest == names;
    }

    method SyncNamespaceLabelItems() returns (ghost visits: seq<Visit>)
      modifies this`tracked, kernel`sets, kernel`log
      ensures Covering(visits, CarriedTags(namespaceInfoMap.entries, TouchedKeys(podChanges.namespaceLabelItems)))
      ensures S() == TryAll(old(S()), visits)
    {
      var items := podChanges.namespaceLabelItems;
      var rest := items.Keys;
      ghost var infos := namespaceInfoMap.entries;
      visits := [];
      ghost var s := S();
      assert CarriedTags(infos, TouchedKeys(items - rest)) == {};
      while rest != {}
        invariant rest <= items.Keys && items == podChanges.namespaceLabelItems && infos == namespaceInfoMap.entries
        invariant Covering(visits, CarriedTags(infos, TouchedKeys(items - rest)))
        invariant S() == TryAll(s, visits)
        decreases rest
      {
        var key := Pick(rest);
        var previous, current := items[key].previous.Entries(), items[key].current.Entries();
        ghost var a := SyncLabelsOfAll(previous.Keys - current.Keys);
        ghost var b := SyncLabelsOfAll(current.Keys);
        TryConcat(s, visits, a);
        TryConcat(s, visits + a, b);
        TouchedMore(items, rest, key);
        CarriedThree(infos, TouchedKeys(items - rest), previous.Keys, current.Keys);
        CoveringBoth(visits, a, CarriedTags(infos, TouchedKeys(items - rest)),
            CarriedTags(infos, previous.Keys - current.Keys));
        CoveringBoth(visits + a, b, CarriedTags(infos, TouchedKeys(items - rest))
            + CarriedTags(infos, previous.Keys - current.Keys), CarriedTags(infos, current.Keys));
        visits := visits + a + b;
        rest := rest - {key};
      }
      assert items - rest == items;
    }

    /** syncPodSets visits exactly the sets a batch of pod changes calls for. */
    method SyncPodSets() returns (ghost visits: seq<Visit>)
      modifies this`tracked, kernel`sets, kernel`log
      ensures VisitsPods(old(S()), namespaceInfoMap.entries, podChanges.podItems, podChanges.namespacePodItems,
                  podChanges.namespaceLabelItems, visits)
      ensures S() == TryAll(old(S()), visits)
    {
      ghost var s := S();
      ghost var a := SyncPodItems();
      ghost var b := SyncNamespaceItems();
      ghost var c := SyncNamespaceLabelItems();
      TryConcat(s, a, b);
      TryConcat(s, a + b, c);
      visits := a + b + c;
      PodVisits(s, namespaceInfoMap.entries, podChanges.podItems, podChanges.namespacePodItems,
          podChanges.namespaceLabelItems, a, b, c);
    }

    // ---------- synchronisation by namespaces ----------

    method SyncPairs(pairs: set<Label>) returns (ghost visits: seq<Visit>)
      modifies this`tracked, kernel`sets, kernel`log
      ensures Covering(visits, PairTags(pairs))
      ensures S() == TryAll(old(S()), visits)
    {
      var rest := pairs;
      visits := [];
      ghost var s := S();
      assert PairTags(pairs - rest) == {};
      while rest != {}
        invariant rest <= pairs && Covering(visits, PairTags(pairs - rest))
        invariant S() == TryAll(s, visits)
        decreases rest
      {
        var pair := Pick(rest);
        TryMore(s, visits, Sync(NamespaceLabel(pair)));
        CoveringMore(visits, PairTags(pairs - rest), NamespaceLabel(pair));
        assert PairTags(pairs - (rest - {pair})) == PairTags(pairs - rest) + {NamespaceLabel(pair)};
        TrySyncNamespacePodLabelSet(pair);
        visits := visits + [Sync(NamespaceLabel(pair))];
        rest := rest - {pair};
      }
      assert pairs - rest == pairs;
    }

    /**
     * One changed namespace: when it is gone its own set is dropped; the sets of its labels, old and
     * new, are synchronised.
     */
    method SyncNamespaceChange(change: Change<Option<NsInfo>>) returns (ghost visits: seq<Visit>)
      modifies this`tracked, kernel`sets, kernel`log
      ensures CoveringChange(visits, change)
      ensures S() == TryAll(old(S()), visits)
    {
      ghost var s := S();
      visits := [];
      if change.previous.Some? {
        var syncLabel := Pairs(change.previous.value.labels.Entries());
        ghost var drops: seq<Visit> := [];
        if change.current.None? {
          TryDeleteNamespacePodSet(change.previous.value.name);
          drops := [Drop(change.previous.value.name)];
          TryMore(s, [], drops[0]);
          assert [] + drops == drops;
        } else {
          syncLabel := syncLabel + Pairs(change.current.value.labels.Entries());
        }
        ghost var more := SyncPairs(syncLabel);
        TryConcat(s, drops, more);
        visits := drops + more;
      } else if change.current.Some? {
        visits := SyncPairs(Pairs(change.current.value.labels.Entries()));
      }
    }

    /** syncNamespaceSets visits exactly what a batch of namespace changes calls for. */
    method SyncNamespaceSets() returns (ghost visits: seq<Visit>)
      modifies this`tracked, kernel`sets, kernel`log
      ensures VisitsNamespaces(namespaceChanges.items, visits)
      ensures S() == TryAll(old(S()), visits)
    {
      var items := namespaceChanges.items;
      var rest := items.Keys;
      visits := [];
      ghost var s := S();
      assert VisitsNamespaces(items - rest, visits);
      while rest != {}
        invariant rest <= items.Keys && items == namespaceChanges.items && VisitsNamespaces(items - rest, visits)
        invariant S() == TryAll(s, visits)
        decreases rest
      {
        var key := Pick(rest);
        ghost var more := SyncNamespaceChange(items[key]);
        TryConcat(s, visits, more);
        NamespaceVisitsMore(items, rest, key, visits, more);
        visits := visits + more;
        rest := rest - {key};
      }
      assert items - rest == items;
    }

    // ---------- unused sets ----------

    /** Generated sets that are not active are destroyed, unless a rule refers to them. */
    method DestroyUnused()
      modifies kernel`sets
      ensures kernel.sets == old(kernel.sets) - set n | n in old(kernel.sets) && Garbage(old(S()), n)
    {
      var names := kernel.sets.Keys;
      var rest := names;
      ghost var s := S();
      ghost var gone: set<SetName> := {};
      assert kernel.sets - gone == kernel.sets;
      while rest != {}
        invariant rest <= names && gone == set n | n in names - rest && Garbage(s, n)
        invariant kernel.sets == s.sets - gone
        decreases rest
      {
        var n := Pick(rest);
        if IsEnnSet(n) && n !in activeIPSets {
          var ok := kernel.DestroyIPSet(n);
          if ok {
            gone := gone + {n};
            assert s.sets - (gone - {n}) - {n} == s.sets - gone;
          }
        }
        rest := rest - {n};
      }
      assert gone == set n | n in s.sets && Garbage(s, n);
    }

    method ForgetUnused()
      modifies this`tracked
      ensures tracked == old(tracked) - set tag | tag in old(tracked) && old(tracked)[tag] !in activeIPSets
    {
      var all := tracked;
      var rest := all.Keys;
      ghost var gone: set<Tag> := {};
      assert tracked - gone == tracked;
      while rest != {}
        invariant rest <= all.Keys && gone == set tag | tag in all.Keys - rest && all[tag] !in activeIPSets
        invariant tracked == all - gone
        decreases rest
      {
        var tag := Pick(rest);
        if all[tag] !in activeIPSets {
          tracked := tracked - {tag};
          assert all - gone - {tag} == all - (gone + {tag});
          gone := gone + {tag};
        }
        rest := rest - {tag};
      }
      assert gone == set tag | tag in all && all[tag] !in activeIPSets;
    }

    /** checkUnusedIPSets. */
    method CheckUnusedIPSets()
      modifies this`tracked, kernel`sets
      ensures S() == Collected(old(S()))
    {
      ghost var s := S();
      DestroyUnused();
      ForgetUnused();
      CollectedIs(s);
    }

    // ---------- sets of nets ----------

    /** The configured range is the only member left; the range that is everything is not added. */
    method EnsureIPRangeSetMember()
      requires IpRangeSet(nm) in kernel.sets
      modifies kernel`sets, kernel`log
      ensures kernel.sets == Synced(old(kernel.sets), IpRangeSet(nm),
                  RangeMembers(cfg, old(kernel.sets)[IpRangeSet(nm)].members))
      ensures kernel.sets[IpRangeSet(nm)].members
           == if cfg.ipRange == "0.0.0.0/0" then old(kernel.sets)[IpRangeSet(nm)].members * {"0.0.0.0/0"}
              else {cfg.ipRange}
    {
      var name := RangeSet(nm.rangeSet);
      var listed := kernel.ListEntry(name);
      ghost var was := kernel.sets[name].members;
      ghost var _ := DeleteUnused(kernel, name, listed.value, {cfg.ipRange});
      if cfg.ipRange == "0.0.0.0/0" {
        return;
      }
      kernel.AddEntry(name, cfg.ipRange);
      SyncedTwice(old(kernel.sets), name, was * {cfg.ipRange}, was * {cfg.ipRange} + {cfg.ipRange});
      assert was * {cfg.ipRange} + {cfg.ipRange} == {cfg.ipRange};
    }

    /** The flannel addresses, when the configured network can be read. */
    ghost function FlannelOf(): Option<set<string>> {
      var r := Flannel.Addresses(cfg.flannelNet, flannelLen);
      if r.Ok? then Some(r.value) else None
    }

    method EnsureFlannelNetSetMember()
      requires FlannelNetSet(nm) in kernel.sets
      modifies kernel`sets, kernel`log
      ensures kernel.sets == if cfg.acceptFlannel && FlannelOf().Some?
                  then Synced(old(kernel.sets), FlannelNetSet(nm), FlannelOf().value) else old(kernel.sets)
    {
      if !cfg.acceptFlannel {
        return;
      }
      var addresses := Flannel.FlannelAddresses(cfg.flannelNet, flannelLen);
      if addresses.Err? {
        return;
      }
      var _, _ := SyncMembers(kernel, FlannelSet(nm.flannelSet), addresses.value);
    }

    // ---------- the synchronisations that make rules ----------

    /** The rules of all policies, then all sets. */
    method SyncRules() returns (ghost ls: seq<ListedPolicy>, ghost order: seq<Key>, ghost tags: seq<Tag>)
      requires OrderFree(nm) && ForeignClean(kernel.table) && HasConfigSets(nm, S())
      modifies this`activeIPSets, this`podXLabelMap, this`tracked, this`activeFilterChains, this`filterChains,
               this`filterRules, kernel
      ensures Walks(ls, order, networkPolicyMap.entries)
      ensures Covers(RulesSynced(nm, cfg, WalkItems(ls), old(S())), tags)
      ensures S() == RulesAndSets(nm, cfg, old(S()), WalkItems(ls), tags)
    {
      activeIPSets := {RangeSet(nm.rangeSet), FlannelSet(nm.flannelSet)};
      ghost var ok;
      ok, ls, order := SyncPolicyRules();
      tags := SyncAllPodSets();
    }

    // ---------- whole synchronisations ----------

    /** The controller and the cluster as a state of a run. */
    ghost function A(): Sys
      reads this`activeIPSets, this`podXLabelMap, this`tracked, this`store, this`flushed, this`walk, this`order,
            this`initAllSynced, kernel`sets, kernel`table
      reads podMatchLabelMap, namespacePodMap, namespaceMatchLabelMap, namespaceInfoMap, podChanges, namespaceChanges,
            networkPolicyChanges
    {
      Sys(store, flushed, podChanges.podItems, podChanges.namespacePodItems, podChanges.namespaceLabelItems,
          namespaceChanges.items,
          networkPolicyChanges.items, namespaceInfoMap.entries, S(), walk, order, !initAllSynced)
    }

    /** What of readiness does not depend on the state of the run: the setup, the policy map and the flags. */
    ghost predicate Settled(u: Setup)
      reads this`flushed, this`initialized, this`networkPolicySynced, this`podSynced, this`namespaceSynced,
            networkPolicyMap
    {
      && u.nm == nm && u.cfg == cfg && u.flannel == FlannelOf() && OrderFree(nm)
      && networkPolicyMap.entries == flushed.policies
      && initialized == (networkPolicySynced && podSynced && namespaceSynced)
    }

    /** The setup, when the state is one a run can be in and the policy map is what has been flushed. */
    ghost function ReadyFor(u: Setup): Option<Setup>
      reads this, kernel, podMatchLabelMap, namespacePodMap, namespaceMatchLabelMap, namespaceInfoMap, podChanges,
            namespaceChanges, networkPolicyChanges, networkPolicyMap
    {
      if Settled(u) && Standing(u, A()) == Some(u) then Some(u) else None
    }

    ghost predicate Ready(u: Setup)
      reads this, kernel, podMatchLabelMap, namespacePodMap, namespaceMatchLabelMap, namespaceInfoMap, podChanges,
            namespaceChanges, networkPolicyChanges, networkPolicyMap
    {
      ReadyFor(u) == Some(u)
    }

    method FlushPods() returns (ghost podOrder: seq<Key>, ghost nsOrder: seq<Key>, ghost labelOrder: seq<Key>)
      requires SingleItems(podChanges.namespaceLabelItems)
      modifies podMatchLabelMap, namespacePodMap, namespaceMatchLabelMap
      ensures PodOrders(old(A()), podOrder, nsOrder, labelOrder)
      ensures S() == PodFlushed(old(S()), namespaceInfoMap.entries, podChanges.podItems, podChanges.namespacePodItems,
                  podChanges.namespaceLabelItems,
                                podOrder, nsOrder, labelOrder)
    {
      podOrder := UpdatePodMatchLabelMap(podMatchLabelMap, podChanges);
      nsOrder := UpdateNamespacePodMap(namespacePodMap, podChanges);
      labelOrder := UpdateNamespaceMatchLabelMapByPod(namespaceMatchLabelMap, namespaceInfoMap.entries, podChanges);
    }

    /**
     * SYNCPOD: the pod indexes and the namespace-label index are patched, then the sets the changes
     * call for are synchronised.
     */
    method SyncByPods() returns (ghost podOrder: seq<Key>, ghost nsOrder: seq<Key>, ghost labelOrder: seq<Key>,
                      ghost visits: seq<Visit>)
      requires SingleItems(podChanges.namespaceLabelItems)
      modifies this`tracked, this`flushed, kernel`sets, kernel`log, podMatchLabelMap, namespacePodMap,
               namespaceMatchLabelMap, podChanges
      ensures PodOrders(old(A()), podOrder, nsOrder, labelOrder)
      ensures VisitsPods(old(S()), namespaceInfoMap.entries, old(podChanges.podItems),
                  old(podChanges.namespacePodItems), old(podChanges.namespaceLabelItems), visits)
      ensures A() == PodSync(old(A()), podOrder, nsOrder, labelOrder, visits)
    {
      ghost var sys := A();
      podOrder, nsOrder, labelOrder := FlushPods();
      ghost var s := S();
      visits := SyncPodSets();
      SameVisits(sys.s, s, sys.infos, sys.podItems, sys.nsItems, sys.labelItems, visits);
      podChanges.CleanUpItem();
      flushed := flushed.(pods := store.pods);
    }

    /** SYNCNAMESPACE. */
    method SyncByNamespaces() returns (ghost infoOrder: seq<string>, ghost visits: seq<Visit>)
      requires OwnKeys(namespaceChanges.items)
               && Replaced(namespaceInfoMap.entries, namespaceChanges.items) == InfosOf(store.namespaces)
      modifies this`tracked, this`flushed, kernel`sets, kernel`log, namespaceMatchLabelMap, namespaceInfoMap,
               namespaceChanges
      ensures Enumerates(infoOrder, old(namespaceChanges.items).Keys)
              && VisitsNamespaces(old(namespaceChanges.items), visits)
      ensures A() == NamespaceSync(old(A()), infoOrder, visits)
    {
      namespaceInfoMap.Update(namespaceChanges);
      infoOrder := UpdateNamespaceMatchLabelMap(namespaceMatchLabelMap, namespacePodMap, namespaceChanges);
      visits := SyncNamespaceSets();
      namespaceChanges.CleanUpItem();
      flushed := flushed.(namespaces := store.namespaces);
    }

    /** SYNCNETWORKPOLICY. */
    method SyncByPolicies() returns (ghost tags: seq<Tag>)
      requires OrderFree(nm) && ForeignClean(kernel.table) && HasConfigSets(nm, S())
      requires Replaced(networkPolicyMap.entries, networkPolicyChanges.items) == store.policies
      modifies this`activeIPSets, this`podXLabelMap, this`tracked, this`activeFilterChains, this`filterChains,
               this`filterRules, this`flushed, this`walk, this`order, kernel, networkPolicyMap, networkPolicyChanges
      ensures Walks(walk, order, store.policies) && Covers(RulesSynced(nm, cfg, WalkItems(walk), old(S())), tags)
      ensures S() == RulesAndSets(nm, cfg, old(S()), WalkItems(walk), tags)
      ensures networkPolicyMap.entries == store.policies && networkPolicyChanges.items == map[]
              && flushed == old(flushed).(policies := store.policies)
    {
      networkPolicyMap.Update(networkPolicyChanges);
      walk, order, tags := SyncRules();
      flushed := flushed.(policies := store.policies);
    }

    /** What SYNCALL does to the configured sets. */
    method EnsureMembers()
      requires HasConfigSets(nm, S())
      modifies kernel`sets, kernel`log
      ensures kernel.sets == ConfigSynced(nm, cfg, FlannelOf(), old(kernel.sets))
    {
      EnsureIPRangeSetMember();
      EnsureFlannelNetSetMember();
    }

    /** SYNCALL: the configured sets, the rules of the policies already applied, all sets, the garbage. */
    method EnsureAll() returns (ghost ls: seq<ListedPolicy>, ghost order: seq<Key>, ghost tags: seq<Tag>)
      requires OrderFree(nm) && ForeignClean(kernel.table) && HasConfigSets(nm, S())
      modifies this`activeIPSets, this`podXLabelMap, this`tracked, this`activeFilterChains, this`filterChains,
               this`filterRules, kernel
      ensures AllOf(nm, cfg, FlannelOf(), networkPolicyMap.entries, old(S()), ls, order, tags) == Some(S())
    {
      EnsureMembers();
      ls, order, tags := SyncRules();
      CheckUnusedIPSets();
    }

    /** The same, with the walk noted. */
    method EnsureWalk() returns (ghost tags: seq<Tag>)
      requires OrderFree(nm) && ForeignClean(kernel.table) && HasConfigSets(nm, S())
      modifies this`activeIPSets, this`podXLabelMap, this`tracked, this`activeFilterChains, this`filterChains,
               this`filterRules, this`walk, this`order, kernel
      ensures AllOf(nm, cfg, FlannelOf(), networkPolicyMap.entries, old(S()), walk, order, tags) == Some(S())
    {
      ghost var ls, o;
      ls, o, tags := EnsureAll();
      ghost var s := S();
      walk, order := ls, o;
      assert S() == s;
    }

    /** The rest of the first synchronisation, once the maps are up to date. */
    method EnsureFirst() returns (ghost tags: seq<Tag>)
      requires OrderFree(nm) && ForeignClean(kernel.table) && HasConfigSets(nm, S())
      modifies this`initAllSynced, this`activeIPSets, this`podXLabelMap, this`tracked, this`activeFilterChains,
               this`filterChains, this`filterRules, this`walk, this`order, kernel
      ensures AllOf(nm, cfg, FlannelOf(), networkPolicyMap.entries, old(S()), walk, order, tags) == Some(S())
      ensures !initAllSynced
    {
      ghost var s := S();
      initAllSynced := false;
      assert S() == s;
      tags := EnsureWalk();
    }

    /** The pod indexes take over pending pods, the namespace map and the namespace-label index pending namespaces. */
    method FlushMaps() returns (ghost podOrder: seq<Key>, ghost nsOrder: seq<Key>, ghost infoOrder: seq<string>)
      requires OwnKeys(namespaceChanges.items)
               && Replaced(namespaceInfoMap.entries, namespaceChanges.items) == InfosOf(store.namespaces)
      modifies podMatchLabelMap, namespacePodMap, namespaceMatchLabelMap, namespaceInfoMap
      ensures Enumerates(podOrder, podChanges.podItems.Keys) && Enumerates(nsOrder, podChanges.namespacePodItems.Keys)
      ensures Enumerates(infoOrder, namespaceChanges.items.Keys)
      ensures podMatchLabelMap.entries == Flush(old(podMatchLabelMap.entries), podOrder, Opened(podChanges.podItems))
      ensures namespacePodMap.entries == Flush(old(namespacePodMap.entries), nsOrder,
                  Opened(podChanges.namespacePodItems))
      ensures namespaceMatchLabelMap.entries
           == Flush(old(namespaceMatchLabelMap.entries), infoOrder,
               NsChanges(namespaceChanges.items, namespacePodMap.entries))
      ensures namespaceInfoMap.entries == InfosOf(store.namespaces)
    {
      podOrder := UpdatePodMatchLabelMap(podMatchLabelMap, podChanges);
      nsOrder := UpdateNamespacePodMap(namespacePodMap, podChanges);
      namespaceInfoMap.Update(namespaceChanges);
      infoOrder := UpdateNamespaceMatchLabelMap(namespaceMatchLabelMap, namespacePodMap, namespaceChanges);
    }

    /** The first synchronisation flushes everything; the label items of pods are discarded unused. */
    method FlushAll() returns (ghost podOrder: seq<Key>, ghost nsOrder: seq<Key>, ghost infoOrder: seq<string>)
      requires OwnKeys(namespaceChanges.items)
               && Replaced(namespaceInfoMap.entries, namespaceChanges.items) == InfosOf(store.namespaces)
      requires Replaced(networkPolicyMap.entries, networkPolicyChanges.items) == store.policies
      modifies this`flushed, podMatchLabelMap, namespacePodMap, namespaceMatchLabelMap, namespaceInfoMap, podChanges,
               namespaceChanges, networkPolicyMap, networkPolicyChanges
      ensures FirstFlushed(old(A()), podOrder, nsOrder, infoOrder) == Some(A())
      ensures networkPolicyMap.entries == store.policies
    {
      networkPolicyMap.Update(networkPolicyChanges);
      podOrder, nsOrder, infoOrder := FlushMaps();
      podChanges.CleanUpItem();
      namespaceChanges.CleanUpItem();
      flushed := store;
    }

    // ---------- steps of a run ----------

    /** The setup, when the pending changes, the maps and the kernel are as the synchronisations need them. */
    ghost function StartableFor(u: Setup): Option<Setup>
      reads this, kernel, podMatchLabelMap, namespacePodMap, namespaceMatchLabelMap, namespaceInfoMap, podChanges,
            namespaceChanges, networkPolicyChanges, networkPolicyMap
    {
      if && u.nm == nm && u.cfg == cfg && u.flannel == FlannelOf() && OrderFree(nm)
         && SingleItems(podChanges.namespaceLabelItems)
         && OwnKeys(namespaceChanges.items)
            && Replaced(namespaceInfoMap.entries, namespaceChanges.items) == InfosOf(store.namespaces)
         && Replaced(networkPolicyMap.entries, networkPolicyChanges.items) == store.policies
         && ForeignClean(kernel.table) && HasConfigSets(nm, S())
         && networkPolicyMap.entries == flushed.policies
      then Some(u) else None
    }

    ghost predicate Startable(u: Setup)
      reads this, kernel, podMatchLabelMap, namespacePodMap, namespaceMatchLabelMap, namespaceInfoMap, podChanges,
            namespaceChanges, networkPolicyChanges, networkPolicyMap
    {
      StartableFor(u) == Some(u)
    }

    /**
     * What a synchronisation needs of the cluster: no address with two pods across the next flush, and
     * names that do not clash.
     */
    ghost predicate Expects(u: Setup, next: Objects)
      reads this`flushed
    {
      PodsApart(flushed.pods, next.pods) && NamesAgree(u, flushed.policies) && NamesAgree(u, next.policies)
    }

    ghost method GetReady(u: Setup)
      requires Ready(u)
      ensures Startable(u)
    {
      StandingStarts(u, A());
    }

    method StepByPods(ghost u: Setup) returns (ghost act: Act)
      requires Startable(u) && !initAllSynced && PodsApart(flushed.pods, store.pods)
      modifies this`tracked, this`flushed, kernel`sets, kernel`log, podMatchLabelMap, namespacePodMap,
               namespaceMatchLabelMap, podChanges
      ensures act.SyncPods? && Taken(u, old(A()), act) == Some(A())
      ensures networkPolicyMap.entries == flushed.policies
    {
      ghost var sys := A();
      ghost var podOrder, nsOrder, labelOrder, visits := SyncByPods();
      act := Act.SyncPods(podOrder, nsOrder, labelOrder, visits);
      PodsStep(u, sys, A(), podOrder, nsOrder, labelOrder, visits);
    }

    method StepByNamespaces(ghost u: Setup) returns (ghost act: Act)
      requires Startable(u) && !initAllSynced
      modifies this`tracked, this`flushed, kernel`sets, kernel`log, namespaceMatchLabelMap, namespaceInfoMap,
               namespaceChanges
      ensures act.SyncNamespaces? && Taken(u, old(A()), act) == Some(A())
      ensures networkPolicyMap.entries == flushed.policies
    {
      ghost var sys := A();
      ghost var infoOrder, visits := SyncByNamespaces();
      act := Act.SyncNamespaces(infoOrder, visits);
      NamespacesStep(u, sys, A(), infoOrder, visits);
    }

    method StepByPolicies(ghost u: Setup) returns (ghost act: Act)
      requires Startable(u) && !initAllSynced && NamesAgree(u, store.policies)
      modifies this`activeIPSets, this`podXLabelMap, this`tracked, this`activeFilterChains, this`filterChains,
               this`filterRules, this`flushed, this`walk, this`order, kernel, networkPolicyMap, networkPolicyChanges
      ensures act.SyncPolicies? && Taken(u, old(A()), act) == Some(A())
      ensures networkPolicyMap.entries == flushed.policies
    {
      ghost var sys := A();
      ghost var tags := SyncByPolicies();
      act := Act.SyncPolicies(walk, order, tags);
      PoliciesStep(u, sys, A(), walk, order, tags);
    }

    method StepByAll(ghost u: Setup) returns (ghost act: Act)
      requires Startable(u) && !initAllSynced && NamesAgree(u, flushed.policies)
      modifies this`activeIPSets, this`podXLabelMap, this`tracked, this`activeFilterChains, this`filterChains,
               this`filterRules, this`walk, this`order, kernel
      ensures act.SyncAll? && Taken(u, old(A()), act) == Some(A())
      ensures networkPolicyMap.entries == flushed.policies
    {
      ghost var sys := A();
      ghost var tags := EnsureWalk();
      act := Act.SyncAll(walk, order, tags);
      AllStep(u, sys, A(), walk, order, tags);
    }

    method StepFirst(ghost u: Setup) returns (ghost act: Act)
      requires Startable(u) && initAllSynced && PodsApart(flushed.pods, store.pods) && NamesAgree(u, store.policies)
      modifies this`initAllSynced, this`activeIPSets, this`podXLabelMap, this`tracked, this`activeFilterChains,
               this`filterChains, this`filterRules, this`flushed, this`walk, this`order, kernel, podMatchLabelMap,
               namespacePodMap, namespaceMatchLabelMap, namespaceInfoMap, podChanges, namespaceChanges,
               networkPolicyMap, networkPolicyChanges
      ensures act.FirstSync? && Taken(u, old(A()), act) == Some(A())
      ensures networkPolicyMap.entries == flushed.policies
    {
      ghost var sys := A();
      ghost var podOrder, nsOrder, infoOrder := FlushAll();
      ghost var mid := A();
      ghost var tags := EnsureFirst();
      act := Act.FirstSync(podOrder, nsOrder, infoOrder, walk, order, tags);
      FirstStep(u, sys, mid, A(), podOrder, nsOrder, infoOrder, walk, order, tags);
    }

    /** The synchronisations that make no rules. */
    method StepBySets(syncType: SyncType, ghost u: Setup) returns (ghost act: Act)
      requires Startable(u) && !initAllSynced && PodsApart(flushed.pods, store.pods)
               && (syncType.SYNCPOD? || syncType.SYNCNAMESPACE?)
      modifies this`tracked, this`flushed, kernel`sets, kernel`log, podMatchLabelMap, namespacePodMap,
               namespaceMatchLabelMap, namespaceInfoMap, podChanges, namespaceChanges
      ensures Taken(u, old(A()), act) == Some(A()) && SyncKind(act) == Some(syncType)
      ensures networkPolicyMap.entries == flushed.policies
    {
      if syncType.SYNCPOD? {
        act := StepByPods(u);
      } else {
        act := StepByNamespaces(u);
      }
    }

    /** One synchronisation after the first. */
    method StepBy(syncType: SyncType, ghost u: Setup) returns (ghost act: Act)
      requires Startable(u) && !initAllSynced && PodsApart(flushed.pods, store.pods) && NamesAgree(u, flushed.policies)
               && NamesAgree(u, store.policies)
      modifies this`activeIPSets, this`podXLabelMap, this`tracked, this`activeFilterChains, this`filterChains,
               this`filterRules, this`flushed, this`walk, this`order, kernel, podMatchLabelMap, namespacePodMap,
               namespaceMatchLabelMap, namespaceInfoMap, podChanges, namespaceChanges, networkPolicyMap,
               networkPolicyChanges
      ensures Taken(u, old(A()), act) == Some(A()) && SyncKind(act) == Some(syncType)
      ensures networkPolicyMap.entries == flushed.policies
    {
      match syncType
      case SYNCALL => act := StepByAll(u);
      case SYNCNETWORKPOLICY => act := StepByPolicies(u);
      case _ => act := StepBySets(syncType, u);
    }

    /** The first synchronisation, or a later one. */
    method StepOrFirst(syncType: SyncType, ghost u: Setup) returns (ghost act: Act)
      requires Startable(u) && Expects(u, store)
      modifies this`initAllSynced, this`activeIPSets, this`podXLabelMap, this`tracked, this`activeFilterChains,
               this`filterChains, this`filterRules, this`flushed, this`walk, this`order, kernel, podMatchLabelMap,
               namespacePodMap, namespaceMatchLabelMap, namespaceInfoMap, podChanges, namespaceChanges,
               networkPolicyMap, networkPolicyChanges
      ensures Taken(u, old(A()), act) == Some(A()) && AskedFor(act, syncType, !old(initAllSynced))
      ensures networkPolicyMap.entries == flushed.policies
    {
      if initAllSynced {
        act := StepFirst(u);
      } else {
        act := StepBy(syncType, u);
      }
    }

    /** After a step of a run the controller is ready for the next one. */
    ghost method StayReady(u: Setup, sys: Sys, act: Act)
      requires Settled(u) && Standing(u, sys) == Some(u) && Taken(u, sys, act) == Some(A())
      ensures Ready(u)
    {
      StandingNext(u, sys, act, A());
    }

    /** So it is when only its flags have changed. */
    ghost method KeepReady(u: Setup, sys: Sys)
      requires Settled(u) && Standing(u, sys) == Some(u) && A() == sys
      ensures Ready(u)
    {}

    // ---------- the start ----------

    /** The controller's own two sets, made at the beginning of every synchronisation. */
    method EnsureConfigSets()
      modifies kernel`sets
      ensures kernel.sets == Created(Created(old(kernel.sets), FlannelNetSet(nm)), IpRangeSet(nm))
    {
      kernel.CreateIPSet(FlannelSet(nm.flannelSet));
      kernel.CreateIPSet(RangeSet(nm.rangeSet));
    }

    /** A new controller, on a kernel none of whose sets and rules are its own, is ready, and a run begins. */
    method StartUp(ghost u: Setup)
      requires Unused() && u.nm == nm && u.cfg == cfg && u.flannel == FlannelOf() && OrderFree(nm)
      requires KernelClean(S()) && forall n :: n in kernel.sets ==> n.ForeignSet?
      modifies kernel`sets
      ensures Ready(u) && Init(nm, A())
    {
      EnsureConfigSets();
      StandingFirst(u, A());
    }

    // ---------- handlers ----------

    /** In a run the two sets are there already. */
    method EnsureThere(ghost u: Setup)
      requires Ready(u)
      modifies kernel`sets
      ensures A() == old(A()) && Ready(u)
    {
      ghost var sys := A();
      StandingStarts(u, sys);
      EnsureConfigSets();
      assert A() == sys;
    }

    /** A synchronisation once all sources have been received. */
    method SyncReceived(syncType: SyncType, ghost u: Setup) returns (ghost act: Act)
      requires Ready(u) && Expects(u, store)
      modifies this`initAllSynced, this`activeIPSets, this`podXLabelMap, this`tracked, this`activeFilterChains,
               this`filterChains, this`filterRules, this`flushed, this`walk, this`order, kernel, podMatchLabelMap,
               namespacePodMap, namespaceMatchLabelMap, namespaceInfoMap, podChanges, namespaceChanges,
               networkPolicyMap, networkPolicyChanges
      ensures Taken(u, old(A()), act) == Some(A()) && AskedFor(act, syncType, !old(initAllSynced)) && Ready(u)
      ensures Leaves(syncType, old(initAllSynced), A()) == Some(A())
    {
      ghost var sys := A();
      GetReady(u);
      act := StepOrFirst(syncType, u);
      StepLeaves(u, sys, act, A(), syncType);
      StayReady(u, sys, act);
    }

    /**
     * syncEnnPolicy: nothing but the controller's own sets until all three sources have been received;
     * then the first call does everything, whatever it was asked for, and a later one what it was asked
     * for. Each is a step of a run, so the invariant of runs holds between any two calls.
     */
    method SyncEnnPolicy(syncType: SyncType, ghost u: Setup) returns (ghost acts: seq<Act>)
      requires Ready(u) && Expects(u, store)
      modifies this`initAllSynced, this`activeIPSets, this`podXLabelMap, this`tracked, this`activeFilterChains,
               this`filterChains, this`filterRules, this`flushed, this`walk, this`order, kernel, podMatchLabelMap,
               namespacePodMap, namespaceMatchLabelMap, namespaceInfoMap, podChanges, namespaceChanges,
               networkPolicyMap, networkPolicyChanges
      ensures Reaches(u, old(A()), acts) == Some(A()) && Ready(u)
      ensures if networkPolicySynced && podSynced && namespaceSynced
                  then |acts| == 1 && AskedFor(acts[0], syncType, !old(initAllSynced)) else acts == []
      ensures networkPolicySynced && podSynced && namespaceSynced && (syncType.SYNCPOD? || old(initAllSynced)) ==>
                podChanges.podItems == map[] && podChanges.namespacePodItems == map[]
                && podChanges.namespaceLabelItems == map[] && flushed.pods == store.pods
      ensures networkPolicySynced && podSynced && namespaceSynced && (syncType.SYNCNAMESPACE? || old(initAllSynced)) ==>
                namespaceChanges.items == map[] && flushed.namespaces == store.namespaces
      ensures networkPolicySynced && podSynced && namespaceSynced
              && (syncType.SYNCNETWORKPOLICY? || old(initAllSynced)) ==>
                networkPolicyChanges.items == map[] && flushed.policies == store.policies
      ensures networkPolicySynced && podSynced && namespaceSynced && (syncType.SYNCALL? || old(initAllSynced)) ==>
                forall n :: n in kernel.sets && !n.ForeignSet? ==> n in activeIPSets
      ensures Answer(networkPolicySynced && podSynced && namespaceSynced, syncType, old(initAllSynced), acts, A())
                  == Some(acts)
    {
      ghost var sys := A();
      EnsureThere(u);
      if !networkPolicySynced || !podSynced || !namespaceSynced {
        return [];
      }
      ghost var act := SyncReceived(syncType, u);
      ReachesOne(u, sys, act);
      acts := [act];
    }

    /** The second half of a handler: a synchronisation, when something is pending and everything has been received. */
    method React(changed: bool, syncType: SyncType, ghost u: Setup) returns (ghost acts: seq<Act>)
      requires Ready(u) && Expects(u, store)
      modifies this`initAllSynced, this`activeIPSets, this`podXLabelMap, this`tracked, this`activeFilterChains,
               this`filterChains, this`filterRules, this`flushed, this`walk, this`order, kernel, podMatchLabelMap,
               namespacePodMap, namespaceMatchLabelMap, namespaceInfoMap, podChanges, namespaceChanges,
               networkPolicyMap, networkPolicyChanges
      ensures Reaches(u, old(A()), acts) == Some(A()) && Ready(u)
      ensures if changed && initialized then |acts| == 1 && AskedFor(acts[0], syncType, !old(initAllSynced))
                  else acts == []
    {
      acts := [];
      if changed && initialized {
        acts := SyncEnnPolicy(syncType, u);
      }
    }

    /** The first half of a pod handler: the change map is updated, which is an event of the run. */
    method PodReported(key: Key, previous: Option<Pod>, current: Option<Pod>) returns (changed: bool)
      requires previous == Find(store.pods, key)
      modifies this`store, podChanges
      ensures A() == PodEvent(old(A()), key, current) && changed == PendsFor(SYNCPOD, A())
    {
      changed := podChanges.Update(key, previous, current);
      store := store.(pods := Stored(store.pods, key, current));
    }

    method NamespaceReported(key: string, previous: Option<Namespace>, current: Option<Namespace>)
                             returns (changed: bool)
      requires previous == Find(store.namespaces, key)
      modifies this`store, namespaceChanges
      ensures A() == NamespaceEvent(old(A()), key, current) && changed == PendsFor(SYNCNAMESPACE, A())
    {
      changed := namespaceChanges.Update(key, previous, current);
      store := store.(namespaces := Stored(store.namespaces, key, current));
    }

    method PolicyReported(key: Key, previous: Option<PolicySpec>, current: Option<PolicySpec>) returns (changed: bool)
      requires PolicyView(previous) == Find(store.policies, key)
      modifies this`store, networkPolicyChanges
      ensures A() == PolicyEvent(old(A()), key, PolicyView(current)) && changed == PendsFor(SYNCNETWORKPOLICY, A())
    {
      changed := networkPolicyChanges.Update(key, previous, current);
      store := store.(policies := Stored(store.policies, key, PolicyView(current)));
    }

    method PodEvented(key: Key, previous: Option<Pod>, current: Option<Pod>, ghost u: Setup) returns (changed: bool)
      requires Ready(u) && previous == Find(store.pods, key)
      modifies this`store, podChanges
      ensures Taken(u, old(A()), PodChanges(key, current)) == Some(A()) && Ready(u) && changed == PendsFor(SYNCPOD, A())
      ensures store == old(store).(pods := Stored(old(store).pods, key, current))
    {
      ghost var sys := A();
      changed := PodReported(key, previous, current);
      PodStands(u, sys, key, current, A());
    }

    method NamespaceEvented(key: string, previous: Option<Namespace>, current: Option<Namespace>, ghost u: Setup)
                            returns (changed: bool)
      requires Ready(u) && previous == Find(store.namespaces, key) && (current.Some? ==> current.value.name == key)
      modifies this`store, namespaceChanges
      ensures Taken(u, old(A()), NamespaceChanges(key, current)) == Some(A()) && Ready(u)
              && changed == PendsFor(SYNCNAMESPACE, A())
      ensures store == old(store).(namespaces := Stored(old(store).namespaces, key, current))
    {
      ghost var sys := A();
      changed := NamespaceReported(key, previous, current);
      NamespaceStands(u, sys, key, current, A());
    }

    method PolicyEvented(key: Key, previous: Option<PolicySpec>, current: Option<PolicySpec>, ghost u: Setup)
                         returns (changed: bool)
      requires Ready(u) && PolicyView(previous) == Find(store.policies, key)
               && (current.Some? ==> Key(current.value.ns, current.value.name) == key)
      modifies this`store, networkPolicyChanges
      ensures Taken(u, old(A()), PolicyChanges(key, PolicyView(current))) == Some(A()) && Ready(u)
              && changed == PendsFor(SYNCNETWORKPOLICY, A())
      ensures store == old(store).(policies := Stored(old(store).policies, key, PolicyView(current)))
    {
      ghost var sys := A();
      changed := PolicyReported(key, previous, current);
      PolicyStands(u, sys, key, PolicyView(current), A());
    }

    /** The rest of a handler, after its event. */
    method Finish(changed: bool, syncType: SyncType, ghost u: Setup, ghost sys: Sys, ghost event: Act)
                  returns (ghost acts: seq<Act>)
      requires Ready(u) && Expects(u, store) && Taken(u, sys, event) == Some(A()) && changed == PendsFor(syncType, A())
               && sys.started == !initAllSynced
      modifies this`initAllSynced, this`activeIPSets, this`podXLabelMap, this`tracked, this`activeFilterChains,
               this`filterChains, this`filterRules, this`flushed, this`walk, this`order, kernel, podMatchLabelMap,
               namespacePodMap, namespaceMatchLabelMap, namespaceInfoMap, podChanges, namespaceChanges,
               networkPolicyMap, networkPolicyChanges
      ensures Ready(u) && Handled(u, sys, event, syncType, initialized, acts, A())
    {
      ghost var mid := A();
      ghost var more := React(changed, syncType, u);
      HandledBy(u, sys, event, mid, syncType, initialized, more, A());
      acts := [event] + more;
    }

    /** OnPodAdd, OnPodUpdate and OnPodDelete, which differ in which of the two pods is missing. */
    method OnPod(key: Key, previous: Option<Pod>, current: Option<Pod>, ghost u: Setup) returns (ghost acts: seq<Act>)
      requires Ready(u) && previous == Find(store.pods, key)
               && Expects(u, store.(pods := Stored(store.pods, key, current)))
      modifies this`store, this`initAllSynced, this`activeIPSets, this`podXLabelMap, this`tracked,
               this`activeFilterChains, this`filterChains, this`filterRules, this`flushed, this`walk, this`order,
               kernel, podMatchLabelMap, namespacePodMap, namespaceMatchLabelMap, namespaceInfoMap, podChanges,
               namespaceChanges, networkPolicyMap, networkPolicyChanges
      ensures Ready(u) && Handled(u, old(A()), PodChanges(key, current), SYNCPOD, initialized, acts, A())
      ensures initialized ==> podChanges.podItems == map[] && podChanges.namespacePodItems == map[]
                              && podChanges.namespaceLabelItems == map[]
    {
      ghost var sys := A();
      var changed := PodEvented(key, previous, current, u);
      acts := Finish(changed, SYNCPOD, u, sys, PodChanges(key, current));
      if initialized {
        HandledFlushes(u, sys, PodChanges(key, current), SYNCPOD, acts, A());
      }
    }

    /** OnNamespaceAdd, OnNamespaceUpdate and OnNamespaceDelete. */
    method OnNamespace(key: string, previous: Option<Namespace>, current: Option<Namespace>, ghost u: Setup)
                       returns (ghost acts: seq<Act>)
      requires Ready(u) && previous == Find(store.namespaces, key) && (current.Some? ==> current.value.name == key)
      requires Expects(u, store.(namespaces := Stored(store.namespaces, key, current)))
      modifies this`store, this`initAllSynced, this`activeIPSets, this`podXLabelMap, this`tracked,
               this`activeFilterChains, this`filterChains, this`filterRules, this`flushed, this`walk, this`order,
               kernel, podMatchLabelMap, namespacePodMap, namespaceMatchLabelMap, namespaceInfoMap, podChanges,
               namespaceChanges, networkPolicyMap, networkPolicyChanges
      ensures Ready(u) && Handled(u, old(A()), NamespaceChanges(key, current), SYNCNAMESPACE, initialized, acts, A())
      ensures initialized ==> namespaceChanges.items == map[]
    {
      ghost var sys := A();
      var changed := NamespaceEvented(key, previous, current, u);
      acts := Finish(changed, SYNCNAMESPACE, u, sys, NamespaceChanges(key, current));
      if initialized {
        HandledFlushes(u, sys, NamespaceChanges(key, current), SYNCNAMESPACE, acts, A());
      }
    }

    /** OnNetworkPolicyAdd, OnNetworkPolicyUpdate and OnNetworkPolicyDelete. */
    method OnNetworkPolicy(key: Key, previous: Option<PolicySpec>, current: Option<PolicySpec>, ghost u: Setup)
                           returns (ghost acts: seq<Act>)
      requires Ready(u) && PolicyView(previous) == Find(store.policies, key)
               && (current.Some? ==> Key(current.value.ns, current.value.name) == key)
      requires Expects(u, store.(policies := Stored(store.policies, key, PolicyView(current))))
      modifies this`store, this`initAllSynced, this`activeIPSets, this`podXLabelMap, this`tracked,
               this`activeFilterChains, this`filterChains, this`filterRules, this`flushed, this`walk, this`order,
               kernel, podMatchLabelMap, namespacePodMap, namespaceMatchLabelMap, namespaceInfoMap, podChanges,
               namespaceChanges, networkPolicyMap, networkPolicyChanges
      ensures Ready(u)
              && Handled(u, old(A()), PolicyChanges(key, PolicyView(current)), SYNCNETWORKPOLICY, initialized, acts,
                     A())
      ensures initialized ==> networkPolicyChanges.items == map[]
    {
      ghost var sys := A();
      var changed := PolicyEvented(key, previous, current, u);
      acts := Finish(changed, SYNCNETWORKPOLICY, u, sys, PolicyChanges(key, PolicyView(current)));
      if initialized {
        HandledFlushes(u, sys, PolicyChanges(key, PolicyView(current)), SYNCNETWORKPOLICY, acts, A());
      }
    }

    /** The first half of a Synced callback: a source has been received. */
    method NoteNetworkPolicies()
      modifies this`networkPolicySynced, this`initialized
      ensures networkPolicySynced && initialized == (networkPolicySynced && podSynced && namespaceSynced)
    {
      networkPolicySynced := true;
      initialized := networkPolicySynced && podSynced && namespaceSynced;
    }

    method NotePods()
      modifies this`podSynced, this`initialized
      ensures podSynced && initialized == (networkPolicySynced && podSynced && namespaceSynced)
    {
      podSynced := true;
      initialized := networkPolicySynced && podSynced && namespaceSynced;
    }

    method NoteNamespaces()
      modifies this`namespaceSynced, this`initialized
      ensures namespaceSynced && initialized == (networkPolicySynced && podSynced && namespaceSynced)
    {
      namespaceSynced := true;
      initialized := networkPolicySynced && podSynced && namespaceSynced;
    }

    method ReceiveNetworkPolicies(ghost u: Setup)
      requires Ready(u)
      modifies this`networkPolicySynced, this`initialized
      ensures Ready(u) && A() == old(A()) && networkPolicySynced
    {
      ghost var sys := A();
      NoteNetworkPolicies();
      KeepReady(u, sys);
    }

    method ReceivePods(ghost u: Setup)
      requires Ready(u)
      modifies this`podSynced, this`initialized
      ensures Ready(u) && A() == old(A()) && podSynced
    {
      ghost var sys := A();
      NotePods();
      KeepReady(u, sys);
    }

    method ReceiveNamespaces(ghost u: Setup)
      requires Ready(u)
      modifies this`namespaceSynced, this`initialized
      ensures Ready(u) && A() == old(A()) && namespaceSynced
    {
      ghost var sys := A();
      NoteNamespaces();
      KeepReady(u, sys);
    }

    /** The Synced callbacks: each sets its own flag and no other, and tries a synchronisation of its kind. */
    method OnNetworkPolicySynced(ghost u: Setup) returns (ghost acts: seq<Act>)
      requires Ready(u) && Expects(u, store)
      modifies this`networkPolicySynced, this`initialized, this`initAllSynced, this`activeIPSets, this`podXLabelMap,
               this`tracked, this`activeFilterChains, this`filterChains, this`filterRules, this`flushed, this`walk,
               this`order, kernel, podMatchLabelMap, namespacePodMap, namespaceMatchLabelMap, namespaceInfoMap,
               podChanges, namespaceChanges, networkPolicyMap, networkPolicyChanges
      ensures Ready(u) && Reaches(u, old(A()), acts) == Some(A()) && networkPolicySynced
      ensures Answer(networkPolicySynced && podSynced && namespaceSynced, SYNCNETWORKPOLICY, old(initAllSynced), acts,
                  A())
              == Some(acts)
    {
      ReceiveNetworkPolicies(u);
      acts := SyncEnnPolicy(SYNCNETWORKPOLICY, u);
    }

    method OnPodSynced(ghost u: Setup) returns (ghost acts: seq<Act>)
      requires Ready(u) && Expects(u, store)
      modifies this`podSynced, this`initialized, this`initAllSynced, this`activeIPSets, this`podXLabelMap,
               this`tracked, this`activeFilterChains, this`filterChains, this`filterRules, this`flushed, this`walk,
               this`order, kernel, podMatchLabelMap, namespacePodMap, namespaceMatchLabelMap, namespaceInfoMap,
               podChanges, namespaceChanges, networkPolicyMap, networkPolicyChanges
      ensures Ready(u) && Reaches(u, old(A()), acts) == Some(A()) && podSynced
      ensures Answer(networkPolicySynced && podSynced && namespaceSynced, SYNCPOD, old(initAllSynced), acts, A())
                  == Some(acts)
    {
      ReceivePods(u);
      acts := SyncEnnPolicy(SYNCPOD, u);
    }

    method OnNamespaceSynced(ghost u: Setup) returns (ghost acts: seq<Act>)
      requires Ready(u) && Expects(u, store)
      modifies this`namespaceSynced, this`initialized, this`initAllSynced, this`activeIPSets, this`podXLabelMap,
               this`tracked, this`activeFilterChains, this`filterChains, this`filterRules, this`flushed, this`walk,
               this`order, kernel, podMatchLabelMap, namespacePodMap, namespaceMatchLabelMap, namespaceInfoMap,
               podChanges, namespaceChanges, networkPolicyMap, networkPolicyChanges
      ensures Ready(u) && Reaches(u, old(A()), acts) == Some(A()) && namespaceSynced
      ensures Answer(networkPolicySynced && podSynced && namespaceSynced, SYNCNAMESPACE, old(initAllSynced), acts, A())
                  == Some(acts)
    {
      ReceiveNamespaces(u);
      acts := SyncEnnPolicy(SYNCNAMESPACE, u);
    }

    /** Sync, called by the ticker of SyncLoop. */
    method SyncPeriodically(ghost u: Setup) returns (ghost acts: seq<Act>)
      requires Ready(u) && Expects(u, store)
      modifies this`initAllSynced, this`activeIPSets, this`podXLabelMap, this`tracked, this`activeFilterChains,
               this`filterChains, this`filterRules, this`flushed, this`walk, this`order, kernel, podMatchLabelMap,
               namespacePodMap, namespaceMatchLabelMap, namespaceInfoMap, podChanges, namespaceChanges,
               networkPolicyMap, networkPolicyChanges
      ensures Ready(u) && Reaches(u, old(A()), acts) == Some(A())
      ensures Answer(networkPolicySynced && podSynced && namespaceSynced, SYNCALL, old(initAllSynced), acts, A())
                  == Some(acts)
      ensures networkPolicySynced && podSynced && namespaceSynced ==>
                forall n :: n in kernel.sets && !n.ForeignSet? ==> n in activeIPSets
    {
      acts := SyncEnnPolicy(SYNCALL, u);
    }
  }

  /** The first synchronisation does everything, a later one what it is asked for. */
  ghost predicate AskedFor(a: Act, syncType: SyncType, started: bool) {
    if started then SyncKind(a) == Some(syncType) else a.FirstSync?
  }

  /** Something is pending that a synchronisation of this kind flushes. */
  ghost predicate PendsFor(syncType: SyncType, sys: Sys) {
    match syncType
    case SYNCALL => true
    case SYNCNETWORKPOLICY => sys.policyItems != map[]
    case SYNCPOD => sys.podItems != map[] || sys.nsItems != map[] || sys.labelItems != map[]
    case SYNCNAMESPACE => sys.infoItems != map[]
  }

  /**
   * What a handler does: the event, and then one synchronisation of its kind exactly when all sources
   * have been received and something of that kind is pending.
   */
  ghost predicate Handled(u: Setup, sys: Sys, event: Act, syncType: SyncType, initialized: bool, acts: seq<Act>,
                          sys': Sys) {
    && Taken(u, sys, event).Some? && acts != [] && acts[0] == event
    && Reaches(u, sys, acts) == Some(sys')
    && if initialized && PendsFor(syncType, Taken(u, sys, event).value)
           then |acts| == 2 && AskedFor(acts[1], syncType, sys.started) else |acts| == 1
  }

  lemma HandledBy(u: Setup, sys: Sys, event: Act, mid: Sys, syncType: SyncType, initialized: bool, more: seq<Act>,
                  sys': Sys)
    requires Taken(u, sys, event) == Some(mid) && Reaches(u, mid, more) == Some(sys')
    requires if initialized && PendsFor(syncType, mid) then |more| == 1 && AskedFor(more[0], syncType, sys.started)
                 else more == []
    ensures Handled(u, sys, event, syncType, initialized, [event] + more, sys')
  {
    ReachesThen(u, sys, event, mid, more);
  }

  // ---------- what a synchronisation leaves pending ----------

  /** A synchronisation takes over everything pending of its kind, and the first one everything. */
  lemma StepFlushes(u: Setup, sys: Sys, a: Act, sys': Sys)
    requires Taken(u, sys, a) == Some(sys')
    ensures a.SyncPods? || a.FirstSync? ==>
              sys'.podItems == map[] && sys'.nsItems == map[] && sys'.labelItems == map[]
              && sys'.flushed.pods == sys'.store.pods
    ensures a.SyncNamespaces? || a.FirstSync? ==>
              sys'.infoItems == map[] && sys'.flushed.namespaces == sys'.store.namespaces
    ensures a.SyncPolicies? || a.FirstSync? ==>
              sys'.policyItems == map[] && sys'.flushed.policies == sys'.store.policies
  {}

  /** One of everything leaves no generated set that is not active. */
  lemma StepCollects(u: Setup, sys: Sys, a: Act, sys': Sys)
    requires Standing(u, sys) == Some(u) && Taken(u, sys, a) == Some(sys')
    ensures a.SyncAll? || a.FirstSync? ==> forall n :: n in sys'.s.sets && !n.ForeignSet? ==> n in sys'.s.active
  {
    if a.SyncAll? || a.FirstSync? {
      BaseRestorable(u, sys, a);
      RulesResult(u, sys, a);
      forall n | n in sys'.s.sets && !n.ForeignSet? ensures n in sys'.s.active {
        CollectsAt(u, RulesBase(u, sys, a), RulePolicies(sys, a), a.ls, a.order, a.tags, n);
      }
    }
  }

  /** What a synchronisation of this kind, or the first one, leaves. */
  ghost predicate Left(syncType: SyncType, first: bool, sys: Sys) {
    && (syncType.SYNCPOD? || first ==>
          sys.podItems == map[] && sys.nsItems == map[] && sys.labelItems == map[]
          && sys.flushed.pods == sys.store.pods)
    && (syncType.SYNCNAMESPACE? || first ==>
          sys.infoItems == map[] && sys.flushed.namespaces == sys.store.namespaces)
    && (syncType.SYNCNETWORKPOLICY? || first ==>
          sys.policyItems == map[] && sys.flushed.policies == sys.store.policies)
    && (syncType.SYNCALL? || first ==> forall n :: n in sys.s.sets && !n.ForeignSet? ==> n in sys.s.active)
  }

  /** The state, when that is what is left. */
  ghost function Leaves(syncType: SyncType, first: bool, sys: Sys): Option<Sys> {
    if Left(syncType, first, sys) then Some(sys) else None
  }

  /** What a call does: nothing before all sources have been received, then the one step it is asked for. */
  ghost function Answer(received: bool, syncType: SyncType, first: bool, acts: seq<Act>, sys: Sys): Option<seq<Act>> {
    if (if received then |acts| == 1 && AskedFor(acts[0], syncType, !first) && Left(syncType, first, sys)
            else acts == [])
    then Some(acts) else None
  }

  lemma StepLeaves(u: Setup, sys: Sys, a: Act, sys': Sys, syncType: SyncType)
    requires Standing(u, sys) == Some(u) && Taken(u, sys, a) == Some(sys') && AskedFor(a, syncType, sys.started)
    ensures Leaves(syncType, !sys.started, sys') == Some(sys')
  {
    StepFlushes(u, sys, a, sys');
    StepCollects(u, sys, a, sys');
  }

  /** After a handler that could synchronise, nothing of its kind is pending. */
  lemma HandledFlushes(u: Setup, sys: Sys, event: Act, syncType: SyncType, acts: seq<Act>, sys': Sys)
    requires Handled(u, sys, event, syncType, true, acts, sys') && !syncType.SYNCALL?
    ensures !PendsFor(syncType, sys')
    ensures syncType.SYNCPOD? ==> sys'.podItems == map[] && sys'.nsItems == map[] && sys'.labelItems == map[]
    ensures syncType.SYNCNAMESPACE? ==> sys'.infoItems == map[]
    ensures syncType.SYNCNETWORKPOLICY? ==> sys'.policyItems == map[]
  {
    var mid := Taken(u, sys, event).value;
    assert acts == [event] + acts[1..];
    ReachesThen(u, sys, event, mid, acts[1..]);
    if PendsFor(syncType, mid) {
      assert acts[1..] == [acts[1]];
      OneFlushes(u, mid, acts[1], syncType, sys.started, sys');
    } else {
      assert acts[1..] == [];
    }
  }

  lemma OneFlushes(u: Setup, mid: Sys, a: Act, syncType: SyncType, started: bool, sys': Sys)
    requires Reaches(u, mid, [a]) == Some(sys') && AskedFor(a, syncType, started) && !syncType.SYNCALL?
    ensures !PendsFor(syncType, sys')
  {
    ReachesOne(u, mid, a);
    StepFlushes(u, mid, a, sys');
  }

  /** A controller on a kernel that holds nothing of its own yet: ready for its handlers, at the start of a run. */
  method Launch(nm: Namer, cfg: Config, flannelLen: int, kernel: Kernel, ghost u: Setup) returns (policy: EnnPolicy)
    requires u.nm == nm && u.cfg == cfg && OrderFree(nm)
    requires u.flannel == var r := Flannel.Addresses(cfg.flannelNet, flannelLen); if r.Ok? then Some(r.value) else None
    requires ForeignClean(kernel.table) && ForeignIgnores(kernel.table)
    requires forall n :: n in kernel.sets ==> n.ForeignSet? && !("ENN" <= RenderSet(n))
    modifies kernel`sets
    ensures fresh(policy) && policy.kernel == kernel && policy.Ready(u) && Init(nm, policy.A())
  {
    policy := new EnnPolicy(nm, cfg, flannelLen, kernel);
    policy.StartUp(u);
  }

  // ---------- events, on states ----------

  lemma PodTaken(u: Setup, sys: Sys, key: Key, current: Option<Pod>)
    ensures Taken(u, sys, PodChanges(key, current)) == Some(PodEvent(sys, key, current))
  {}

  lemma PodStands(u: Setup, sys: Sys, key: Key, current: Option<Pod>, sys': Sys)
    requires Standing(u, sys) == Some(u) && sys' == PodEvent(sys, key, current)
    ensures Taken(u, sys, PodChanges(key, current)) == Some(sys') && Standing(u, sys') == Some(u)
  {
    PodTaken(u, sys, key, current);
    StandingNext(u, sys, PodChanges(key, current), sys');
  }

  lemma NamespaceTaken(u: Setup, sys: Sys, key: string, current: Option<Namespace>)
    requires current.Some? ==> current.value.name == key
    ensures Taken(u, sys, NamespaceChanges(key, current)) == Some(NamespaceEvent(sys, key, current))
  {}

  lemma NamespaceStands(u: Setup, sys: Sys, key: string, current: Option<Namespace>, sys': Sys)
    requires Standing(u, sys) == Some(u) && sys' == NamespaceEvent(sys, key, current)
    requires current.Some? ==> current.value.name == key
    ensures Taken(u, sys, NamespaceChanges(key, current)) == Some(sys') && Standing(u, sys') == Some(u)
  {
    NamespaceTaken(u, sys, key, current);
    StandingNext(u, sys, NamespaceChanges(key, current), sys');
  }

  lemma PolicyTaken(u: Setup, sys: Sys, key: Key, current: Option<Policy>)
    requires current.Some? ==> Key(current.value.ns, current.value.name) == key
    ensures Taken(u, sys, PolicyChanges(key, current)) == Some(PolicyEvent(sys, key, current))
  {}

  lemma PolicyStands(u: Setup, sys: Sys, key: Key, current: Option<Policy>, sys': Sys)
    requires Standing(u, sys) == Some(u) && sys' == PolicyEvent(sys, key, current)
    requires current.Some? ==> Key(current.value.ns, current.value.name) == key
    ensures Taken(u, sys, PolicyChanges(key, current)) == Some(sys') && Standing(u, sys') == Some(u)
  {
    PolicyTaken(u, sys, key, current);
    StandingNext(u, sys, PolicyChanges(key, current), sys');
  }

  /** Where some steps lead, when each can be taken. */
  ghost function Reaches(u: Setup, sys: Sys, acts: seq<Act>): Option<Sys>
    decreases |acts|
  {
    if acts == [] then Some(sys)
    else
      var next := Taken(u, sys, acts[0]);
      if next.None? then None else Reaches(u, next.value, acts[1..])
  }

  lemma ReachesOne(u: Setup, sys: Sys, a: Act)
    ensures Reaches(u, sys, [a]) == Taken(u, sys, a)
  {
    assert [a][1..] == [];
  }

  lemma ReachesThen(u: Setup, sys: Sys, a: Act, mid: Sys, more: seq<Act>)
    requires Taken(u, sys, a) == Some(mid)
    ensures Reaches(u, sys, [a] + more) == Reaches(u, mid, more)
  {
    assert ([a] + more)[1..] == more;
  }

  ghost predicate Path(u: Setup, states: seq<Sys>, acts: seq<Act>) {
    |states| == |acts| + 1 && forall i :: 0 <= i < |acts| ==> Taken(u, states[i], acts[i]) == Some(states[i + 1])
  }

  lemma {:induction false} ReachesPath(u: Setup, sys: Sys, acts: seq<Act>, sys': Sys) returns (states: seq<Sys>)
    requires Reaches(u, sys, acts) == Some(sys')
    ensures Path(u, states, acts) && states[0] == sys && states[|acts|] == sys'
    decreases |acts|
  {
    if acts == [] {
      states := [sys];
    } else {
      var rest := ReachesPath(u, Taken(u, sys, acts[0]).value, acts[1..], sys');
      states := [sys] + rest;
      forall i | 0 <= i < |acts| ensures Taken(u, states[i], acts[i]) == Some(states[i + 1]) {
        if i > 0 {
          assert acts[1..][i - 1] == acts[i] && rest[i - 1] == states[i];
        }
      }
    }
  }

  /** What handlers do from the start on is a run, so every theorem about runs holds of it. */
  lemma ReachesRun(u: Setup, sys: Sys, acts: seq<Act>, sys': Sys) returns (states: seq<Sys>)
    requires Init(u.nm, sys) && Reaches(u, sys, acts) == Some(sys')
    ensures IsRun(u, states, acts) && states[0] == sys && states[|acts|] == sys'
  {
    states := ReachesPath(u, sys, acts, sys');
    forall i | 0 <= i < |acts| ensures Enabled(u, states[i], acts[i]) && states[i + 1] == Next(u, states[i], acts[i]) {
      assert Taken(u, states[i], acts[i]) == Some(states[i + 1]);
    }
  }
}
