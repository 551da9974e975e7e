/** The three synchronisations that make rules, and runs of all steps from the start. */
module Runs {
  import opened Options
  import opened Names
  import opened Naming
  import opened Netfilter
  import opened Orders
  import opened Policies
  import opened Indexes
  import opened Joins
  import opened Coalescing
  import opened Pods
  import opened Restoring
  import opened Reconciler
  import opened Syncs
  import opened RuleSync
  import opened IndexMaps
  import opened Cluster

  // ---------- sets of nets ----------

  /** The configured range alone; the range that is everything, which no set can hold, is never added. */
  function RangeMembers(cfg: Config, members: set<string>): set<string> {
    if cfg.Unlimited() then members * {cfg.ipRange} else {cfg.ipRange}
  }

  /** The ip range, and the flannel addresses when they are accepted and could be enumerated. */
  function ConfigSynced(nm: Namer, cfg: Config, flannel: Option<set<string>>, sets: Sets): Sets {
    var r := IpRangeSet(nm);
    var ranged := if r in sets then Synced(sets, r, RangeMembers(cfg, sets[r].members)) else sets;
    if cfg.acceptFlannel && flannel.Some? then Synced(ranged, FlannelNetSet(nm), flannel.value) else ranged
  }

  ghost predicate ConfigFilled(nm: Namer, cfg: Config, flannel: Option<set<string>>, sets: Sets) {
    && IpRangeSet(nm) in sets && FlannelNetSet(nm) in sets
    && sets[IpRangeSet(nm)].members == (if cfg.ipRange == "0.0.0.0/0" then {} else {cfg.ipRange})
    && (cfg.acceptFlannel ==> sets[FlannelNetSet(nm)].members == if flannel.Some? then flannel.value else {})
  }

  ghost predicate ExceptRight(nm: Namer, sets: Sets, item: Item) {
    item.Peer? && item.clause.BlockPeer? ==>
      ExceptOf(nm, item) in sets && sets[ExceptOf(nm, item)].members == set net | net in item.clause.block.except
  }

  ghost predicate ExceptsRight(nm: Namer, sets: Sets, items: seq<Item>) {
    forall item :: item in items ==> ExceptRight(nm, sets, item)
  }

  /** Blocks that share an except set except the same nets. */
  ghost predicate ExceptsAgree(nm: Namer, items: seq<Item>) {
    forall a, b ::
      a in items && b in items && a.Peer? && b.Peer? && a.clause.BlockPeer? && b.clause.BlockPeer?
      && ExceptOf(nm, a) == ExceptOf(nm, b)
      ==> (set net | net in a.clause.block.except) == (set net | net in b.clause.block.except)
  }

  lemma {:induction false} AppliedExcepts(nm: Namer, items: seq<Item>, s: State)
    requires ExceptsAgree(nm, items)
    ensures ExceptsRight(nm, Applied(nm, items, s).sets, items)
  {
    if items != [] {
      var n := |items| - 1;
      assert items == items[..n] + [items[n]];
      assert forall item :: item in items[..n] ==> item in items;
      AppliedExcepts(nm, items[..n], s);
      var s1 := Applied(nm, items[..n], s);
      forall item | item in items ensures ExceptRight(nm, ItemSets(nm, items[n], s1.sets), item) {
        if item.Peer? && item.clause.BlockPeer? {
          ExceptStep(nm, items, items[n], s1.sets, item, item in items[..n]);
        }
      }
    }
  }

  lemma ExceptStep(nm: Namer, items: seq<Item>, last: Item, sets: Sets, item: Item, before: bool)
    requires ExceptsAgree(nm, items) && last in items && item in items && item.Peer? && item.clause.BlockPeer?
    requires if before then ExceptRight(nm, sets, item) else item == last
    ensures ExceptRight(nm, ItemSets(nm, last, sets), item)
  {
    if last.Peer? && last.clause.BlockPeer? && ExceptOf(nm, last) == ExceptOf(nm, item) {
      assert (set net | net in last.clause.block.except) == (set net | net in item.clause.block.except);
    }
  }

  /**
   * After a walk every except set lists what its block excepts exactly when blocks that share a set
   * except the same nets; otherwise the last block walked wins and the others are wrong.
   */
  lemma ExceptsExactly(nm: Namer, items: seq<Item>, s: State)
    ensures ExceptsRight(nm, Applied(nm, items, s).sets, items) <==> ExceptsAgree(nm, items)
  {
    if ExceptsAgree(nm, items) {
      AppliedExcepts(nm, items, s);
    }
    if ExceptsRight(nm, Applied(nm, items, s).sets, items) {
      forall a, b | a in items && b in items && a.Peer? && b.Peer? && a.clause.BlockPeer? && b.clause.BlockPeer?
          && ExceptOf(nm, a) == ExceptOf(nm, b)
        ensures (set net | net in a.clause.block.except) == (set net | net in b.clause.block.except)
      {
        assert ExceptRight(nm, Applied(nm, items, s).sets, a) && ExceptRight(nm, Applied(nm, items, s).sets, b);
      }
    }
  }

  ghost predicate HasBlock(policies: map<Key, Policy>, k: Key, d: Direction, b: IpBlock) {
    k in policies && d in policies[k].types && exists r :: r in policies[k].Rules(d) && b in r.blocks
  }

  /** Within one policy and direction, blocks with the same CIDR except the same nets. */
  ghost predicate DistinctCidrs(policies: map<Key, Policy>) {
    forall k, d, a, b :: HasBlock(policies, k, d, a) && HasBlock(policies, k, d, b) && a.cidr == b.cidr
      ==> (set net | net in a.except) == (set net | net in b.except)
  }

  ghost predicate ExceptNamesClear(nm: Namer, items: seq<Item>) {
    forall a, b ::
      a in items && b in items && a.Peer? && b.Peer? && a.clause.BlockPeer? && b.clause.BlockPeer?
      && ExceptOf(nm, a) == ExceptOf(nm, b)
      ==> GroupOf(a) == GroupOf(b)
  }

  lemma BlockItem(ls: seq<ListedPolicy>, order: seq<Key>, policies: map<Key, Policy>, k: Key, d: Direction,
                  b: IpBlock) returns (item: Item)
    requires Walks(ls, order, policies) && HasBlock(policies, k, d, b)
    ensures item in WalkItems(ls) && item.Peer? && item.clause.BlockPeer? && item.clause.block == b
    ensures item.ns == policies[k].ns && item.policy == policies[k].name && item.dir == d
  {
    var p := policies[k];
    var r :| r in p.Rules(d) && b in r.blocks;
    item := Peer(p.ns, p.name, p.selector, d, BlockPeer(b, r.ports));
    assert RuleHas(r, item.clause) && ItemOf(p, item);
    WalkVisits(ls, order, policies, item);
  }

  lemma ItemBlock(ls: seq<ListedPolicy>, order: seq<Key>, policies: map<Key, Policy>, item: Item)
    requires Walks(ls, order, policies) && item in WalkItems(ls) && item.Peer? && item.clause.BlockPeer?
    requires forall k :: k in policies ==> Key(policies[k].ns, policies[k].name) == k
    ensures HasBlock(policies, Key(item.ns, item.policy), item.dir, item.clause.block)
  {
    WalkVisits(ls, order, policies, item);
    var k :| k in policies && ItemOf(policies[k], item);
    var r :| r in policies[k].Rules(item.dir) && RuleHas(r, item.clause);
  }

  lemma SharedBlocks(nm: Namer, ls: seq<ListedPolicy>, order: seq<Key>, policies: map<Key, Policy>, a: Item, b: Item)
    requires Walks(ls, order, policies) && DistinctCidrs(policies)
    requires forall k :: k in policies ==> Key(policies[k].ns, policies[k].name) == k
    requires a in WalkItems(ls) && b in WalkItems(ls) && a.Peer? && b.Peer? && a.clause.BlockPeer?
             && b.clause.BlockPeer? && GroupOf(a) == GroupOf(b)
    ensures (set net | net in a.clause.block.except) == (set net | net in b.clause.block.except)
  {
    ItemBlock(ls, order, policies, a);
    ItemBlock(ls, order, policies, b);
  }

  lemma SameCidrs(nm: Namer, ls: seq<ListedPolicy>, order: seq<Key>, policies: map<Key, Policy>, k: Key, d: Direction,
                  a: IpBlock, b: IpBlock)
    requires Walks(ls, order, policies) && ExceptsAgree(nm, WalkItems(ls))
    requires HasBlock(policies, k, d, a) && HasBlock(policies, k, d, b) && a.cidr == b.cidr
    ensures (set net | net in a.except) == (set net | net in b.except)
  {
    var x := BlockItem(ls, order, policies, k, d, a);
    var y := BlockItem(ls, order, policies, k, d, b);
    assert GroupOf(x) == GroupOf(y);
  }

  /** With names that do not clash, sharing an except set is having the same CIDR in one policy and direction. */
  lemma DistinctCidrsAgree(nm: Namer, ls: seq<ListedPolicy>, order: seq<Key>, policies: map<Key, Policy>)
    requires Walks(ls, order, policies) && ExceptNamesClear(nm, WalkItems(ls))
    requires forall k :: k in policies ==> Key(policies[k].ns, policies[k].name) == k
    ensures ExceptsAgree(nm, WalkItems(ls)) <==> DistinctCidrs(policies)
  {
    var items := WalkItems(ls);
    if DistinctCidrs(policies) {
      forall a, b | a in items && b in items && a.Peer? && b.Peer? && a.clause.BlockPeer? && b.clause.BlockPeer?
          && ExceptOf(nm, a) == ExceptOf(nm, b)
        ensures (set net | net in a.clause.block.except) == (set net | net in b.clause.block.except)
      {
        SharedBlocks(nm, ls, order, policies, a, b);
      }
    }
    if ExceptsAgree(nm, items) {
      forall k, d, a, b | HasBlock(policies, k, d, a) && HasBlock(policies, k, d, b) && a.cidr == b.cidr
        ensures (set net | net in a.except) == (set net | net in b.except)
      {
        SameCidrs(nm, ls, order, policies, k, d, a, b);
      }
    }
  }

  lemma {:induction false} AppliedOthers(nm: Namer, items: seq<Item>, s: State)
    ensures forall n ::
              n in s.sets && !n.ExceptSet?
              ==> n in Applied(nm, items, s).sets && Applied(nm, items, s).sets[n] == s.sets[n]
  {
    if items != [] {
      AppliedOthers(nm, items[..|items| - 1], s);
    }
  }

  ghost predicate Sections(ls: seq<ListedPolicy>) {
    forall i :: 0 <= i < |ls| ==> |ls[i].sections| == |ls[i].policy.types|
  }

  /** The invariant on sets of nets. */
  ghost predicate NetsInv(nm: Namer, cfg: Config, flannel: Option<set<string>>, sys: Sys) {
    && ConfigFilled(nm, cfg, flannel, sys.s.sets)
    && Sections(sys.walk)
    && ExceptsRight(nm, sys.s.sets, WalkItems(sys.walk))
  }

  ghost predicate SameNets(sets: Sets, sets': Sets) {
    forall n :: n in sets && !HoldsPods(n) ==> n in sets' && sets'[n].members == sets[n].members
  }

  lemma NetsKept(nm: Namer, cfg: Config, flannel: Option<set<string>>, sys: Sys, s': State)
    requires NetsInv(nm, cfg, flannel, sys) && SameNets(sys.s.sets, s'.sets)
    ensures NetsInv(nm, cfg, flannel, sys.(s := s'))
  {
    forall item | item in WalkItems(sys.walk) ensures ExceptRight(nm, s'.sets, item) {
      assert ExceptRight(nm, sys.s.sets, item);
    }
  }

  lemma FullSameNets(s: State, mean: Reading, tags: seq<Tag>)
    requires WellTracked(s, mean)
    ensures SameNets(s.sets, FullAll(s, tags).sets)
  {
    FullKeeps(s, tags);
    forall n | n in s.sets && !HoldsPods(n) ensures FullAll(s, tags).sets[n] == s.sets[n] {
      forall tag | tag in s.tracked ensures s.tracked[tag] != n {
        assert TagWell(s.selectors, mean, tag, s.tracked[tag]);
      }
    }
  }

  /** Making the rules fills the except sets and leaves the configured sets as they were. */
  lemma RulesNets(nm: Namer, cfg: Config, flannel: Option<set<string>>, mean: Reading, s: State, items: seq<Item>,
                  tags: seq<Tag>)
    requires WellTracked(s, mean) && NothingStray(s, mean) && AllMean(nm, mean, items)
    requires ConfigFilled(nm, cfg, flannel, s.sets) && ExceptsAgree(nm, items)
    ensures var s' := RulesAndSets(nm, cfg, s, items, tags);
                ConfigFilled(nm, cfg, flannel, s'.sets) && ExceptsRight(nm, s'.sets, items)
  {
    var s0 := s.(active := {IpRangeSet(nm), FlannelNetSet(nm)});
    var s1, s2 := Applied(nm, items, s0), RulesSynced(nm, cfg, items, s);
    SameTracking(s, s0, mean);
    WalkKeepsTracking(nm, items, s0, mean);
    AppliedOthers(nm, items, s0);
    AppliedExcepts(nm, items, s0);
    FullSameNets(s2, mean, tags);
    forall item | item in items ensures ExceptRight(nm, FullAll(s2, tags).sets, item) {
      assert ExceptRight(nm, s1.sets, item);
    }
  }

  // ---------- the synchronisations that make rules ----------

  /** SYNCNETWORKPOLICY: flush the policies, make the rules, fill all sets. */
  ghost function PolicySync(nm: Namer, cfg: Config, sys: Sys, ls: seq<ListedPolicy>, order: seq<Key>,
                            tags: seq<Tag>): Sys
    requires Sections(ls)
  {
    sys.(s := RulesAndSets(nm, cfg, sys.s, WalkItems(ls), tags),
        flushed := sys.flushed.(policies := sys.store.policies),
         policyItems := map[], walk := ls, order := order, started := true)
  }

  /**
   * SYNCALL: fill the configured sets, make the rules of the policies as last flushed, fill all sets,
   * collect garbage.
   */
  ghost function AllSync(nm: Namer, cfg: Config, flannel: Option<set<string>>, sys: Sys, ls: seq<ListedPolicy>,
                         order: seq<Key>, tags: seq<Tag>): Sys
    requires Sections(ls)
  {
    var s := sys.s.(sets := ConfigSynced(nm, cfg, flannel, sys.s.sets));
    sys.(s := Collected(RulesAndSets(nm, cfg, s, WalkItems(ls), tags)), walk := ls, order := order, started := true)
  }

  /** What the walk, the listing of tracked sets and the names have to be for a synchronisation of rules. */
  ghost predicate RulesReady(nm: Namer, cfg: Config, mean: Reading, s: State, policies: map<Key, Policy>,
                             ls: seq<ListedPolicy>, order: seq<Key>, tags: seq<Tag>) {
    && Walks(ls, order, policies) && Sections(ls)
    && NamesGood(nm, cfg, mean, WalkItems(ls)) && ExceptsAgree(nm, WalkItems(ls))
    && Covers(RulesSynced(nm, cfg, WalkItems(ls), s), tags)
  }

  lemma PolicySyncInv(nm: Namer, cfg: Config, flannel: Option<set<string>>, mean: Reading, sys: Sys,
                      ls: seq<ListedPolicy>, order: seq<Key>, tags: seq<Tag>)
    requires Inv(nm, cfg, mean, sys) && ConfigFilled(nm, cfg, flannel, sys.s.sets)
    requires RulesReady(nm, cfg, mean, sys.s, sys.store.policies, ls, order, tags)
    ensures var sys' := PolicySync(nm, cfg, sys, ls, order, tags);
                Inv(nm, cfg, mean, sys') && NetsInv(nm, cfg, flannel, sys')
  {
    var mid := sys.(flushed := sys.flushed.(policies := sys.store.policies), policyItems := map[]);
    RulesStep(nm, cfg, mean, mid, ls, order, tags);
    RulesNets(nm, cfg, flannel, mean, sys.s, WalkItems(ls), tags);
    RulesParts(nm, cfg, mean, mid, PolicySync(nm, cfg, sys, ls, order, tags));
  }

  lemma RulesParts(nm: Namer, cfg: Config, mean: Reading, sys: Sys, sys': Sys)
    requires PendingInv(sys) && IndexInv(sys)
    requires sys' == sys.(s := sys'.s, walk := sys'.walk, order := sys'.order, started := true)
    requires sys'.s.pml == sys.s.pml && sys'.s.npm == sys.s.npm && sys'.s.nmlm == sys.s.nmlm
    requires SetInv(nm, mean, sys') && RulesInv(nm, cfg, sys')
    ensures Inv(nm, cfg, mean, sys')
  {}

  lemma ConfigKeeps(nm: Namer, cfg: Config, flannel: Option<set<string>>, s: State, mean: Reading)
    requires WellTracked(s, mean) && NothingStray(s, mean) && Named(nm, s) && Kinds(s) && HasConfigSets(nm, s)
    ensures var s' := s.(sets := ConfigSynced(nm, cfg, flannel, s.sets));
            WellTracked(s', mean) && NothingStray(s', mean) && Named(nm, s') && Kinds(s') && HasConfigSets(nm, s')
  {
    var s' := s.(sets := ConfigSynced(nm, cfg, flannel, s.sets));
    forall n ensures !Stray(s', mean, n) {
      assert !Stray(s, mean, n);
      SameDesires(s, s', mean(n));
    }
    forall tag | tag in s'.tracked ensures NamedTag(nm, s'.selectors, tag, s'.tracked[tag]) {
      assert NamedTag(nm, s.selectors, tag, s.tracked[tag]);
    }
  }

  lemma CollectedNamed(nm: Namer, s: State)
    requires Named(nm, s) && Kinds(s)
    ensures Named(nm, Collected(s)) && Kinds(Collected(s))
  {
    forall tag | tag in Collected(s).tracked ensures NamedTag(nm, s.selectors, tag, Collected(s).tracked[tag]) {
      assert NamedTag(nm, s.selectors, tag, s.tracked[tag]);
    }
  }

  lemma CollectedRules(nm: Namer, cfg: Config, sys: Sys)
    requires RulesInv(nm, cfg, sys) && Named(nm, sys.s)
    ensures RulesInv(nm, cfg, sys.(s := Collected(sys.s)))
  {
    var s := Collected(sys.s);
    forall item | item in WalkItems(sys.walk) ensures ItemTracks(s, item) {
      forall tag | tag in sys.s.tracked && UsesTag(item, tag) ensures tag in s.tracked {
        UsedActive(nm, WalkItems(sys.walk), item, sys.s, tag);
      }
      TracksSame(sys.s, s, item);
    }
  }

  /** What is active is kept by collection. */
  lemma CollectedKeepsActive(s: State, n: SetName)
    requires n in s.active && n in s.sets
    ensures n in Collected(s).sets && Collected(s).sets[n] == s.sets[n]
  {}

  lemma CollectedNets(nm: Namer, cfg: Config, flannel: Option<set<string>>, s: State, items: seq<Item>)
    requires ConfigFilled(nm, cfg, flannel, s.sets) && ExceptsRight(nm, s.sets, items)
             && s.active == ActiveSets(nm, items)
    ensures ConfigFilled(nm, cfg, flannel, Collected(s).sets) && ExceptsRight(nm, Collected(s).sets, items)
  {
    ConfigSetsActive(nm, items);
    CollectedKeepsActive(s, IpRangeSet(nm));
    CollectedKeepsActive(s, FlannelNetSet(nm));
    forall item | item in items ensures ExceptRight(nm, Collected(s).sets, item) {
      assert ExceptRight(nm, s.sets, item);
      ActiveSetsOfItem(nm, items, item);
    }
  }

  /** A synchronisation of everything establishes the invariant from one on pending changes, indexes and sets. */
  lemma AllSyncInv(nm: Namer, cfg: Config, flannel: Option<set<string>>, mean: Reading, sys: Sys,
                   ls: seq<ListedPolicy>, order: seq<Key>, tags: seq<Tag>)
    requires PendingInv(sys) && IndexInv(sys) && SetInv(nm, mean, sys)
    requires cfg.acceptFlannel && flannel.None? ==> sys.s.sets[FlannelNetSet(nm)].members == {}
    requires cfg.ipRange == "0.0.0.0/0" ==> sys.s.sets[IpRangeSet(nm)].members == {}
    requires RulesReady(nm, cfg, mean, sys.s.(sets := ConfigSynced(nm, cfg, flannel, sys.s.sets)),
                 sys.flushed.policies, ls, order, tags)
    ensures var sys' := AllSync(nm, cfg, flannel, sys, ls, order, tags);
                Inv(nm, cfg, mean, sys') && NetsInv(nm, cfg, flannel, sys')
  {
    var items := WalkItems(ls);
    var s0 := sys.s.(sets := ConfigSynced(nm, cfg, flannel, sys.s.sets));
    var s1 := RulesAndSets(nm, cfg, s0, items, tags);
    ConfigKeeps(nm, cfg, flannel, sys.s, mean);
    RulesStep(nm, cfg, mean, sys.(s := s0), ls, order, tags);
    RulesNets(nm, cfg, flannel, mean, s0, items, tags);
    var mid := sys.(s := s1, walk := ls, order := order, started := true);
    AllSyncEnds(nm, cfg, flannel, mean, sys, mid);
  }

  lemma AllSyncEnds(nm: Namer, cfg: Config, flannel: Option<set<string>>, mean: Reading, sys: Sys, mid: Sys)
    requires PendingInv(sys) && IndexInv(sys)
    requires mid == sys.(s := mid.s, walk := mid.walk, order := mid.order, started := true)
    requires mid.s.pml == sys.s.pml && mid.s.npm == sys.s.npm && mid.s.nmlm == sys.s.nmlm
    requires SetInv(nm, mean, mid) && RulesInv(nm, cfg, mid) && ActiveExist(mid.s) && NetsInv(nm, cfg, flannel, mid)
    ensures var sys' := mid.(s := Collected(mid.s)); Inv(nm, cfg, mean, sys') && NetsInv(nm, cfg, flannel, sys')
  {
    var sys' := mid.(s := Collected(mid.s));
    CollectedConsistent(nm, mid.s, mean);
    CollectedNamed(nm, mid.s);
    CollectedRules(nm, cfg, mid);
    CollectedNets(nm, cfg, flannel, mid.s, WalkItems(mid.walk));
    RulesParts(nm, cfg, mean, sys, sys');
  }

  // ---------- the first synchronisation ----------

  /** Before the first synchronisation nothing is flushed and no pod set exists. */
  ghost predicate Fresh(nm: Namer, sys: Sys) {
    && sys.flushed == Objects(map[], map[], map[]) && sys.infos == map[]
    && sys.s.pml == map[] && sys.s.npm == map[] && sys.s.nmlm == map[] && sys.s.tracked == map[]
    && (forall n: SetName :: n in sys.s.sets ==> !HoldsPods(n))
    && FlannelNetSet(nm) in sys.s.sets && sys.s.sets[FlannelNetSet(nm)].members == {}
    && IpRangeSet(nm) in sys.s.sets && sys.s.sets[IpRangeSet(nm)].members == {}
  }

  ghost predicate FirstOrders(sys: Sys, podOrder: seq<Key>, nsOrder: seq<Key>, infoOrder: seq<string>) {
    Enumerates(podOrder, sys.podItems.Keys) && Enumerates(nsOrder, sys.nsItems.Keys)
    && Enumerates(infoOrder, sys.infoItems.Keys)
  }

  /**
   * All maps are updated; the namespace-label index is joined by namespaces, and the pending label
   * items are discarded.
   */
  ghost function FirstFlush(sys: Sys, podOrder: seq<Key>, nsOrder: seq<Key>, infoOrder: seq<string>): Sys
    requires FirstOrders(sys, podOrder, nsOrder, infoOrder)
  {
    var npm := Flush(sys.s.npm, nsOrder, Opened(sys.nsItems));
    sys.(s := sys.s.(pml := Flush(sys.s.pml, podOrder, Opened(sys.podItems)), npm := npm,
        nmlm := Flush(sys.s.nmlm, infoOrder, NsChanges(sys.infoItems, npm))),
         infos := InfosOf(sys.store.namespaces), flushed := sys.store,
         podItems := map[], nsItems := map[], labelItems := map[], infoItems := map[], policyItems := map[])
  }

  lemma FirstFlushIndexes(sys: Sys, podOrder: seq<Key>, nsOrder: seq<Key>, infoOrder: seq<string>)
    requires PendingInv(sys) && IndexInv(sys) && FirstOrders(sys, podOrder, nsOrder, infoOrder)
             && PodsApart(sys.flushed.pods, sys.store.pods)
    requires sys.infos == map[] && sys.s.nmlm == map[]
    ensures IndexInv(FirstFlush(sys, podOrder, nsOrder, infoOrder))
  {
    var npm := Flush(sys.s.npm, nsOrder, Opened(sys.nsItems));
    LabelIndexFlush(sys, podOrder);
    LabelItemsSame(sys);
    NamespaceIndexFlush(sys, nsOrder, nsOrder);
    ApartAfter(sys.flushed.pods, sys.store.pods);
    ApartViews(sys.store.pods, sys.store.pods);
    NamespaceViewsSingle(sys.store.pods);
    PodsOneNamespace(npm, NamespaceViews(sys.store.pods));
    assert Joined(sys.s.nmlm, npm, sys.infos);
    NamespaceFlushIndexes(sys, npm, infoOrder);
  }

  lemma FirstFlushSets(nm: Namer, mean: Reading, s: State, s': State)
    requires Named(nm, s) && Kinds(s) && HasConfigSets(nm, s) && s.tracked == map[]
             && (forall n: SetName :: n in s.sets ==> !HoldsPods(n))
    requires s'.sets == s.sets && s'.tracked == s.tracked && s'.selectors == s.selectors
    ensures Consistent(s', mean) && Named(nm, s') && Kinds(s') && HasConfigSets(nm, s')
  {
    assert forall n :: !Stray(s', mean, n);
  }

  lemma FirstFlushPending(sys: Sys, podOrder: seq<Key>, nsOrder: seq<Key>, infoOrder: seq<string>)
    requires PendingInv(sys) && FirstOrders(sys, podOrder, nsOrder, infoOrder)
    ensures PendingInv(FirstFlush(sys, podOrder, nsOrder, infoOrder))
  {}

  /** The join holds after the first synchronisation too, although the pods' pending label items are thrown away. */
  lemma FirstFlushInv(nm: Namer, cfg: Config, mean: Reading, sys: Sys, podOrder: seq<Key>, nsOrder: seq<Key>,
                      infoOrder: seq<string>)
    requires Inv(nm, cfg, mean, sys) && Fresh(nm, sys) && FirstOrders(sys, podOrder, nsOrder, infoOrder)
             && PodsApart(sys.flushed.pods, sys.store.pods)
    ensures var sys' := FirstFlush(sys, podOrder, nsOrder, infoOrder);
                PendingInv(sys') && IndexInv(sys') && SetInv(nm, mean, sys')
  {
    FirstFlushPending(sys, podOrder, nsOrder, infoOrder);
    FirstFlushIndexes(sys, podOrder, nsOrder, infoOrder);
    FirstFlushSets(nm, mean, sys.s, FirstFlush(sys, podOrder, nsOrder, infoOrder).s);
  }

  // ---------- runs ----------

  datatype Act =
    | PodChanges(key: Key, pod: Option<Pod>)
    | NamespaceChanges(name: string, namespace: Option<Namespace>)
    | PolicyChanges(key: Key, policy: Option<Policy>)
    | FirstSync(podOrder: seq<Key>, nsOrder: seq<Key>, infoOrder: seq<string>, ls: seq<ListedPolicy>, order: seq<Key>,
        tags: seq<Tag>)
    | SyncAll(ls: seq<ListedPolicy>, order: seq<Key>, tags: seq<Tag>)
    | SyncPolicies(ls: seq<ListedPolicy>, order: seq<Key>, tags: seq<Tag>)
    | SyncPods(podOrder: seq<Key>, nsOrder: seq<Key>, labelOrder: seq<Key>, visits: seq<Visit>)
    | SyncNamespaces(infoOrder: seq<string>, visits: seq<Visit>)

  /** One configuration of the controller, with the meanings of the names in use. */
  datatype Setup = Setup(nm: Namer, cfg: Config, flannel: Option<set<string>>, mean: Reading)

  /**
   * What can happen. Orders are any orders of the maps ranged over; an address never belongs to two
   * pods across a flush, and names in use do not clash.
   */
  ghost predicate Enabled(u: Setup, sys: Sys, a: Act) {
    match a
    case PodChanges(_, _) => true
    case NamespaceChanges(name, namespace) => namespace.Some? ==> namespace.value.name == name
    case PolicyChanges(key, policy) => policy.Some? ==> Key(policy.value.ns, policy.value.name) == key
    case FirstSync(podOrder, nsOrder, infoOrder, ls, order, tags) =>
      && !sys.started && FirstOrders(sys, podOrder, nsOrder, infoOrder) && PodsApart(sys.flushed.pods, sys.store.pods)
      && var mid := FirstFlush(sys, podOrder, nsOrder, infoOrder).s;
         RulesReady(u.nm, u.cfg, u.mean, mid.(sets := ConfigSynced(u.nm, u.cfg, u.flannel, mid.sets)),
             sys.store.policies, ls, order, tags)
    case SyncAll(ls, order, tags) =>
      sys.started && RulesReady(u.nm, u.cfg, u.mean, sys.s.(sets := ConfigSynced(u.nm, u.cfg, u.flannel, sys.s.sets)),
          sys.flushed.policies, ls, order, tags)
    case SyncPolicies(ls, order, tags) =>
      sys.started && RulesReady(u.nm, u.cfg, u.mean, sys.s, sys.store.policies, ls, order, tags)
    case SyncPods(podOrder, nsOrder, labelOrder, visits) =>
      && sys.started && PodOrders(sys, podOrder, nsOrder, labelOrder) && PodsApart(sys.flushed.pods, sys.store.pods)
      && VisitsPods(sys.s, sys.infos, sys.podItems, sys.nsItems, sys.labelItems, visits)
    case SyncNamespaces(infoOrder, visits) =>
      sys.started && Enumerates(infoOrder, sys.infoItems.Keys) && VisitsNamespaces(sys.infoItems, visits)
  }

  ghost function Next(u: Setup, sys: Sys, a: Act): Sys
    requires Enabled(u, sys, a)
  {
    match a
    case PodChanges(key, pod) => PodEvent(sys, key, pod)
    case NamespaceChanges(name, namespace) => NamespaceEvent(sys, name, namespace)
    case PolicyChanges(key, policy) => PolicyEvent(sys, key, policy)
    case FirstSync(podOrder, nsOrder, infoOrder, ls, order, tags) =>
      AllSync(u.nm, u.cfg, u.flannel, FirstFlush(sys, podOrder, nsOrder, infoOrder), ls, order, tags)
    case SyncAll(ls, order, tags) => AllSync(u.nm, u.cfg, u.flannel, sys, ls, order, tags)
    case SyncPolicies(ls, order, tags) => PolicySync(u.nm, u.cfg, sys, ls, order, tags)
    case SyncPods(podOrder, nsOrder, labelOrder, visits) => PodSync(sys, podOrder, nsOrder, labelOrder, visits)
    case SyncNamespaces(infoOrder, visits) => NamespaceSync(sys, infoOrder, visits)
  }

  /** A step, when it can be taken. */
  ghost function Taken(u: Setup, sys: Sys, a: Act): Option<Sys> {
    if Enabled(u, sys, a) then Some(Next(u, sys, a)) else None
  }

  /** The whole invariant. */
  ghost predicate Sound(u: Setup, sys: Sys) {
    && Inv(u.nm, u.cfg, u.mean, sys)
    && (if sys.started then NetsInv(u.nm, u.cfg, u.flannel, sys) else Fresh(u.nm, sys))
  }

  lemma InitSound(u: Setup, sys: Sys)
    requires Init(u.nm, sys)
    ensures Sound(u, sys)
  {
    InitInv(u.nm, u.cfg, u.mean, sys);
  }

  lemma EventSound(u: Setup, sys: Sys, a: Act)
    requires Sound(u, sys) && Enabled(u, sys, a) && (a.PodChanges? || a.NamespaceChanges? || a.PolicyChanges?)
    ensures Sound(u, Next(u, sys, a))
  {
    match a
    case PodChanges(key, pod) => PodEventInv(u.nm, u.cfg, u.mean, sys, key, pod);
    case NamespaceChanges(name, namespace) => NamespaceEventInv(u.nm, u.cfg, u.mean, sys, name, namespace);
    case PolicyChanges(key, policy) => PolicyEventInv(u.nm, u.cfg, u.mean, sys, key, policy);
  }

  lemma RulesSound(u: Setup, sys: Sys, a: Act)
    requires Sound(u, sys) && Enabled(u, sys, a) && (a.FirstSync? || a.SyncAll? || a.SyncPolicies?)
    ensures Sound(u, Next(u, sys, a))
  {
    if a.FirstSync? {
      FirstSound(u, sys, a);
    } else if a.SyncAll? {
      AllSyncInv(u.nm, u.cfg, u.flannel, u.mean, sys, a.ls, a.order, a.tags);
    } else {
      PolicySyncInv(u.nm, u.cfg, u.flannel, u.mean, sys, a.ls, a.order, a.tags);
    }
  }

  lemma FirstSound(u: Setup, sys: Sys, a: Act)
    requires Sound(u, sys) && Enabled(u, sys, a) && a.FirstSync?
    ensures Sound(u, Next(u, sys, a))
  {
    FirstFlushInv(u.nm, u.cfg, u.mean, sys, a.podOrder, a.nsOrder, a.infoOrder);
    AllSyncInv(u.nm, u.cfg, u.flannel, u.mean, FirstFlush(sys, a.podOrder, a.nsOrder, a.infoOrder), a.ls, a.order,
        a.tags);
  }

  lemma VisitsNets(u: Setup, sys: Sys, s: State, visits: seq<Visit>)
    requires NetsInv(u.nm, u.cfg, u.flannel, sys) && Trackable(s) && s.sets == sys.s.sets
    ensures NetsInv(u.nm, u.cfg, u.flannel, sys.(s := TryAll(s, visits)))
  {
    VisitsKeep(s, visits);
    NetsKept(u.nm, u.cfg, u.flannel, sys, TryAll(s, visits));
  }

  lemma SetsSound(u: Setup, sys: Sys, a: Act)
    requires Sound(u, sys) && Enabled(u, sys, a) && (a.SyncPods? || a.SyncNamespaces?)
    ensures Sound(u, Next(u, sys, a))
  {
    ConsistentTrackable(sys.s, u.mean);
    match a
    case SyncPods(podOrder, nsOrder, labelOrder, visits) =>
      PodSyncInv(u.nm, u.cfg, u.mean, sys, podOrder, nsOrder, labelOrder, visits);
      VisitsNets(u, sys, PodFlushed(sys.s, sys.infos, sys.podItems, sys.nsItems, sys.labelItems, podOrder, nsOrder,
          labelOrder), visits);
    case SyncNamespaces(infoOrder, visits) =>
      NamespaceSyncInv(u.nm, u.cfg, u.mean, sys, infoOrder, visits);
      VisitsNets(u, sys, NamespaceFlushed(sys.s, sys.infoItems, infoOrder), visits);
  }

  /** Every step keeps the invariant. */
  lemma NextSound(u: Setup, sys: Sys, a: Act)
    requires Sound(u, sys) && Enabled(u, sys, a)
    ensures Sound(u, Next(u, sys, a))
  {
    if a.SyncPods? || a.SyncNamespaces? {
      SetsSound(u, sys, a);
    } else if a.FirstSync? || a.SyncAll? || a.SyncPolicies? {
      RulesSound(u, sys, a);
    } else {
      EventSound(u, sys, a);
    }
  }

  /** A run: a state for every moment, each following from the one before by an enabled step. */
  ghost predicate IsRun(u: Setup, states: seq<Sys>, acts: seq<Act>) {
    && |states| == |acts| + 1
    && Init(u.nm, states[0])
    && forall i :: 0 <= i < |acts| ==> Enabled(u, states[i], acts[i]) && states[i + 1] == Next(u, states[i], acts[i])
  }

  /** The invariant holds at every moment of every run. */
  lemma {:induction false} RunSound(u: Setup, states: seq<Sys>, acts: seq<Act>, i: nat)
    requires IsRun(u, states, acts) && i < |states|
    ensures Sound(u, states[i])
  {
    if i == 0 {
      InitSound(u, states[0]);
    } else {
      RunSound(u, states, acts, i - 1);
      NextSound(u, states[i - 1], acts[i - 1]);
    }
  }

  /**
   * Incremental refines full, over whole runs: at every moment a full synchronisation over the
   * controller's present maps would change no set, and starting from emptied pod sets it would fill
   * them to exactly what they hold.
   */
  lemma RunRefinesFull(u: Setup, states: seq<Sys>, acts: seq<Act>, i: nat, tags: seq<Tag>, emptied: Sets)
    requires IsRun(u, states, acts) && i < |states|
    requires var s := states[i].s;
             && Covers(s, tags) && emptied.Keys == s.sets.Keys
             && forall n ::
                  n in s.sets
                  ==> emptied[n] == s.sets[n]
                      || (emptied[n] == s.sets[n].(members := {})
                          && exists tag :: tag in s.tracked && s.tracked[tag] == n)
    ensures FullAll(states[i].s, tags) == states[i].s
    ensures FullAll(states[i].s.(sets := emptied), tags) == states[i].s
  {
    RunSound(u, states, acts, i);
    IncrementalRefinesFull(states[i].s, u.mean, tags, emptied);
  }

  /** And at every moment of every run, the namespace-label index is the join of the other two maps. */
  lemma RunJoined(u: Setup, states: seq<Sys>, acts: seq<Act>, i: nat, pair: Label, ip: string)
    requires IsRun(u, states, acts) && i < |states|
    ensures var sys := states[i];
            ip in Get(sys.s.nmlm, pair) <==> exists ns :: Carries(sys.infos, ns, pair) && ip in Get(sys.s.npm, ns)
  {
    RunSound(u, states, acts, i);
    JoinedMeans(states[i].s.nmlm, states[i].s.npm, states[i].infos, pair, ip);
  }

  // ---------- keys are never lost ----------

  lemma {:induction false} AppliedIndexes(nm: Namer, items: seq<Item>, s: State)
    ensures var s' := Applied(nm, items, s); s'.pml == s.pml && s'.npm == s.npm && s'.nmlm == s.nmlm
  {
    if items != [] {
      AppliedIndexes(nm, items[..|items| - 1], s);
    }
  }

  /** Making rules, filling sets and collecting leave the indexes alone. */
  lemma RulesIndexes(nm: Namer, cfg: Config, s: State, items: seq<Item>, tags: seq<Tag>)
    ensures var s' := RulesAndSets(nm, cfg, s, items, tags); s'.pml == s.pml && s'.npm == s.npm && s'.nmlm == s.nmlm
  {
    AppliedIndexes(nm, items, s.(active := {IpRangeSet(nm), FlannelNetSet(nm)}));
    FullKeeps(RulesSynced(nm, cfg, items, s), tags);
  }

  lemma FirstGrows(sys: Sys, podOrder: seq<Key>, nsOrder: seq<Key>, infoOrder: seq<string>)
    requires FirstOrders(sys, podOrder, nsOrder, infoOrder)
    ensures Grows(sys.s, FirstFlush(sys, podOrder, nsOrder, infoOrder).s)
  {
    var npm := Flush(sys.s.npm, nsOrder, Opened(sys.nsItems));
    FlushGrows(sys.s.pml, podOrder, Opened(sys.podItems));
    FlushGrows(sys.s.npm, nsOrder, Opened(sys.nsItems));
    assert NsChanges(sys.infoItems, npm).Keys == sys.infoItems.Keys;
    FlushGrows(sys.s.nmlm, infoOrder, NsChanges(sys.infoItems, npm));
  }

  lemma RulesGrow(u: Setup, sys: Sys, a: Act)
    requires Enabled(u, sys, a) && (a.FirstSync? || a.SyncAll? || a.SyncPolicies?)
    ensures Grows(sys.s, Next(u, sys, a).s)
  {
    var mid := if a.FirstSync? then FirstFlush(sys, a.podOrder, a.nsOrder, a.infoOrder).s else sys.s;
    if a.FirstSync? {
      FirstGrows(sys, a.podOrder, a.nsOrder, a.infoOrder);
    }
    var s := if a.SyncPolicies? then mid else mid.(sets := ConfigSynced(u.nm, u.cfg, u.flannel, mid.sets));
    RulesIndexes(u.nm, u.cfg, s, WalkItems(a.ls), a.tags);
  }

  lemma VisitsGrow(u: Setup, sys: Sys, a: Act)
    requires Enabled(u, sys, a) && Trackable(sys.s) && (a.SyncPods? || a.SyncNamespaces?)
    ensures Grows(sys.s, Next(u, sys, a).s)
  {
    if a.SyncPods? {
      PodFlushGrows(sys.s, sys.infos, sys.podItems, sys.nsItems, sys.labelItems, a.podOrder, a.nsOrder, a.labelOrder);
      VisitsIndexes(PodFlushed(sys.s, sys.infos, sys.podItems, sys.nsItems, sys.labelItems, a.podOrder, a.nsOrder,
                               a.labelOrder), a.visits);
    } else {
      assert NsChanges(sys.infoItems, sys.s.npm).Keys == sys.infoItems.Keys;
      FlushGrows(sys.s.nmlm, a.infoOrder, NsChanges(sys.infoItems, sys.s.npm));
      VisitsIndexes(NamespaceFlushed(sys.s, sys.infoItems, a.infoOrder), a.visits);
    }
  }

  lemma NextGrows(u: Setup, sys: Sys, a: Act)
    requires Sound(u, sys) && Enabled(u, sys, a)
    ensures Grows(sys.s, Next(u, sys, a).s)
  {
    ConsistentTrackable(sys.s, u.mean);
    if a.SyncPods? || a.SyncNamespaces? {
      VisitsGrow(u, sys, a);
    } else if a.FirstSync? || a.SyncAll? || a.SyncPolicies? {
      RulesGrow(u, sys, a);
    }
  }

  /** Over a run the indexes never lose a key, so a label once seen stays known and its set can be emptied later. */
  lemma RunGrows(u: Setup, states: seq<Sys>, acts: seq<Act>, i: nat, j: nat)
    requires IsRun(u, states, acts) && i <= j < |states|
    ensures Grows(states[i].s, states[j].s)
  {
    forall k: nat | k < |acts| ensures Grows(states[k].s, states[k + 1].s) {
      RunNextGrows(u, states, acts, k);
    }
    GrowingStates(states, i, j);
  }

  lemma {:induction false} GrowingStates(states: seq<Sys>, i: nat, j: nat)
    requires i <= j < |states| && forall k: nat :: k + 1 < |states| ==> Grows(states[k].s, states[k + 1].s)
    ensures Grows(states[i].s, states[j].s)
    decreases j
  {
    if i < j {
      GrowingStates(states, i, j - 1);
      assert Grows(states[j - 1].s, states[j - 1 + 1].s);
      GrowsOn(states[i].s, states[j - 1].s, states[j].s);
    }
  }

  lemma RunNextGrows(u: Setup, states: seq<Sys>, acts: seq<Act>, i: nat)
    requires IsRun(u, states, acts) && i < |acts|
    ensures Grows(states[i].s, states[i + 1].s)
  {
    RunSound(u, states, acts, i);
    NextGrows(u, states[i], acts[i]);
  }

  lemma GrowsOn(a: State, b: State, c: State)
    requires Grows(a, b) && Grows(b, c)
    ensures Grows(a, c)
  {}

  // ---------- what the invariant says of pending changes ----------

  lemma SinglePods(sys: Sys)
    requires PendingInv(sys)
    ensures SingleItems(sys.labelItems)
  {
    SingleChanges(sys.labelItems, sys.flushed.pods, sys.store.pods);
  }

  lemma SingleChanges(items: NamespaceItems, flushed: map<Key, Pod>, store: map<Key, Pod>)
    requires Coalesced(items, flushed, store, PodNamespaceView)
    ensures SingleItems(items)
  {
    forall k | k in items ensures Single(items[k].previous.Entries()) && Single(items[k].current.Entries()) {
      assert items[k] == Change(PodNamespaceView(Find(flushed, k)), PodNamespaceView(Find(store, k)));
    }
  }

  lemma NamespaceItemsOwn(sys: Sys)
    requires PendingInv(sys)
    ensures OwnKeys(sys.infoItems) && Replaced(sys.infos, sys.infoItems) == InfosOf(sys.store.namespaces)
  {
    var r := Replaced(sys.infos, sys.infoItems);
    forall ns
      ensures ns in r <==> ns in sys.store.namespaces
      ensures ns in r ==> r[ns] == NsInfo(sys.store.namespaces[ns].name, sys.store.namespaces[ns].labels)
    {
      OneInfoTakesOver(sys, ns);
    }
    InfosAre(r, sys.store.namespaces);
  }

  lemma InfosAre(infos: Infos, namespaces: map<string, Namespace>)
    requires forall ns :: ns in infos <==> ns in namespaces
    requires forall ns :: ns in infos ==> infos[ns] == NsInfo(namespaces[ns].name, namespaces[ns].labels)
    ensures infos == InfosOf(namespaces)
  {
    assert infos.Keys == InfosOf(namespaces).Keys;
  }

  lemma OneInfoTakesOver(sys: Sys, ns: string)
    requires PendingInv(sys)
    ensures var r := Replaced(sys.infos, sys.infoItems);
            && (ns in r <==> ns in sys.store.namespaces)
            && (ns in r ==> r[ns] == NsInfo(sys.store.namespaces[ns].name, sys.store.namespaces[ns].labels))
  {
    assert Find(sys.flushed.namespaces, ns).Some? <==> ns in sys.infos;
  }

  lemma PoliciesTakeOver(sys: Sys)
    requires PendingInv(sys)
    ensures Replaced(sys.flushed.policies, sys.policyItems) == sys.store.policies
  {
    ReplacedIsStore(sys.policyItems, sys.flushed.policies, sys.store.policies, Itself);
  }

  /** However the policies are walked, the names in use do not clash. */
  ghost predicate NamesAgree(u: Setup, policies: map<Key, Policy>) {
    forall ls, order ::
      Walks(ls, order, policies) && Sections(ls)
      ==> NamesGood(u.nm, u.cfg, u.mean, WalkItems(ls)) && ExceptsAgree(u.nm, WalkItems(ls))
  }
}
