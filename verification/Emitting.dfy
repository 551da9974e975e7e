/** What a walk has produced so far: the two script buffers, the active chains, and the sets. */
module Emitting {
  import opened Names
  import opened Naming
  import opened Netfilter
  import opened Orders
  import opened Policies
  import opened IndexMaps
  import opened Pods
  import opened Compiler
  import opened Restoring
  import opened Reconciler
  import opened RuleSync

  datatype Build = Build(chains: seq<Chain>, rules: seq<Cmd>, active: set<Chain>, s: State)

  function Elements<T>(s: seq<T>): set<T> { set x | x in s }

  ghost function Emit(nm: Namer, cfg: Config, item: Item, b: Build): Build {
    Build(b.chains + ItemChains(nm, cfg, item),
          b.rules + Cmds(Parts(nm, cfg, item, b.active)),
          b.active + Elements(ItemChains(nm, cfg, item)),
          ItemApplied(nm, item, b.s))
  }

  ghost function EmitAll(nm: Namer, cfg: Config, items: seq<Item>, b: Build): Build {
    if items == [] then b else Emit(nm, cfg, items[|items| - 1], EmitAll(nm, cfg, items[..|items| - 1], b))
  }

  lemma EmitOne(nm: Namer, cfg: Config, item: Item, b: Build)
    ensures EmitAll(nm, cfg, [item], b) == Emit(nm, cfg, item, b)
  {
    assert [item][..0] == [];
  }

  lemma EmitMore(nm: Namer, cfg: Config, items: seq<Item>, item: Item, b: Build)
    ensures EmitAll(nm, cfg, items + [item], b) == Emit(nm, cfg, item, EmitAll(nm, cfg, items, b))
  {
    assert (items + [item])[..|items|] == items;
  }

  lemma {:induction false} EmitConcat(nm: Namer, cfg: Config, x: seq<Item>, y: seq<Item>, b: Build)
    ensures EmitAll(nm, cfg, x + y, b) == EmitAll(nm, cfg, y, EmitAll(nm, cfg, x, b))
  {
    if y == [] {
      assert x + y == x;
    } else {
      var n := |y| - 1;
      assert (x + y)[..|x + y| - 1] == x + y[..n];
      EmitConcat(nm, cfg, x, y[..n], b);
    }
  }

  /** What a walk produces from empty buffers. */
  ghost function Built(nm: Namer, cfg: Config, items: seq<Item>, chains: seq<Chain>, s: State): Build {
    Build(chains + Chains(nm, cfg, items), Body(nm, cfg, items), Active(nm, cfg, items), Applied(nm, items, s))
  }

  lemma ActiveMore(nm: Namer, cfg: Config, items: seq<Item>)
    requires items != []
    ensures Active(nm, cfg, items) == Active(nm, cfg, items[..|items| - 1])
                + Elements(ItemChains(nm, cfg, items[|items| - 1]))
  {}

  lemma ChainsMore(nm: Namer, cfg: Config, items: seq<Item>, chains: seq<Chain>)
    requires items != []
    ensures chains + Chains(nm, cfg, items) == chains + Chains(nm, cfg, items[..|items| - 1])
                + ItemChains(nm, cfg, items[|items| - 1])
  {}

  /** Emitting a whole walk into empty buffers gives the script and the sets of the walk. */
  lemma {:induction false} EmitIs(nm: Namer, cfg: Config, items: seq<Item>, chains: seq<Chain>, s: State)
    ensures EmitAll(nm, cfg, items, Build(chains, [], {}, s)) == Built(nm, cfg, items, chains, s)
  {
    if items == [] {
      assert Active(nm, cfg, items) == {};
    } else {
      EmitIs(nm, cfg, items[..|items| - 1], chains, s);
      ActiveMore(nm, cfg, items);
      ChainsMore(nm, cfg, items, chains);
    }
  }

  // ---------- the commands of one item, written out ----------

  lemma AppendsOne(c: Chain, rule: Rule)
    ensures Appends(c, [rule]) == [Append(c, rule)]
  {
    assert [rule][..0] == [];
  }

  lemma AppendsTwo(c: Chain, a: Rule, b: Rule)
    ensures Appends(c, [a, b]) == [Append(c, a), Append(c, b)]
  {
    assert [a, b][..1] == [a];
    AppendsOne(c, a);
  }

  lemma PortsMore(c: Chain, base: seq<Match>, ports: seq<Port>, i: nat, target: Target)
    requires i < |ports|
    ensures Appends(c, PortRules(base, ports[..i + 1], target))
         == Appends(c, PortRules(base, ports[..i], target)) + [Append(c, Rule(base + PortMatches(ports[i]), target))]
  {
    assert ports[..i + 1][..i] == ports[..i];
    var before, last := PortRules(base, ports[..i], target), Rule(base + PortMatches(ports[i]), target);
    assert (before + [last])[..|before|] == before;
  }

  lemma {:induction false} AppendsConcat(c: Chain, a: seq<Rule>, b: seq<Rule>)
    ensures Appends(c, a + b) == Appends(c, a) + Appends(c, b)
  {
    if b == [] {
      assert a + b == a;
    } else {
      var n := |b| - 1;
      assert (a + b)[..|a + b| - 1] == a + b[..n];
      AppendsConcat(c, a, b[..n]);
    }
  }

  lemma CmdsOne(p: Part)
    ensures Cmds([p]) == Appends(p.chain, p.rules)
  {
    assert [p][..0] == [];
  }

  lemma {:induction false} CmdsConcat(a: seq<Part>, b: seq<Part>)
    ensures Cmds(a + b) == Cmds(a) + Cmds(b)
  {
    if b == [] {
      assert a + b == a;
    } else {
      var n := |b| - 1;
      assert (a + b)[..|a + b| - 1] == a + b[..n] && (a + b)[|a + b| - 1] == b[n];
      CmdsConcat(a, b[..n]);
      Associate(Cmds(a), Cmds(b[..n]), Appends(b[n].chain, b[n].rules));
    }
  }

  ghost function BlockCmds(nm: Namer, item: Item): seq<Cmd>
    requires item.Peer? && item.clause.BlockPeer?
  {
    [Append(BlockChainOf(nm, item), Rule([MatchSet(ExceptOf(nm, item), FarSide(item.dir))], Reject)),
        Append(BlockChainOf(nm, item), Rule([], Accept))]
  }

  lemma PeerCmds(nm: Namer, cfg: Config, item: Item, active: set<Chain>)
    requires item.Peer?
    ensures Cmds(Parts(nm, cfg, item, active))
         == [Append(PlyChain(nm, item.dir, item.ns), Rule([], Jump(DispatchOf(nm, item))))]
            + Appends(DispatchOf(nm, item), PeerRules(nm, item))
            + (if item.clause.BlockPeer? then BlockCmds(nm, item) else [])
  {
    var jump := Rule([], Jump(DispatchOf(nm, item)));
    var a, b := Part(PlyChain(nm, item.dir, item.ns), [jump]), Part(DispatchOf(nm, item), PeerRules(nm, item));
    CmdsOne(a);
    CmdsOne(b);
    CmdsConcat([a], [b]);
    assert [a] + [b] == [a, b];
    AppendsOne(a.chain, jump);
    if item.clause.BlockPeer? {
      var rules := BlockRules(ExceptOf(nm, item), item.dir);
      CmdsOne(Part(BlockChainOf(nm, item), rules));
      AppendsTwo(BlockChainOf(nm, item), rules[0], rules[1]);
      CmdsConcat([a, b], [Part(BlockChainOf(nm, item), rules)]);
    } else {
      assert [a, b] + [] == [a, b];
    }
  }

  ghost function EntryCmds(nm: Namer, d: Direction, ns: string): seq<Cmd> {
    [Append(EnnForward, EntryRule(nm, d, ns)), Append(EnnOutput, EntryRule(nm, d, ns))]
  }

  ghost function NamespaceCmds(nm: Namer, cfg: Config, d: Direction, ns: string): seq<Cmd> {
    Appends(NamespaceChain(nm, d, ns), FlannelRules(nm, cfg, d))
        + Appends(NamespaceChain(nm, d, ns), RangeRules(nm, cfg, d, ns))
  }

  lemma EntryPartCmds(nm: Namer, d: Direction, ns: string)
    ensures Cmds([Part(EnnForward, [EntryRule(nm, d, ns)]), Part(EnnOutput, [EntryRule(nm, d, ns)])])
                == EntryCmds(nm, d, ns)
  {
    var e := EntryRule(nm, d, ns);
    var a, b := Part(EnnForward, [e]), Part(EnnOutput, [e]);
    CmdsOne(a);
    CmdsOne(b);
    AppendsOne(EnnForward, e);
    AppendsOne(EnnOutput, e);
    CmdsConcat([a], [b]);
    assert [a] + [b] == [a, b];
  }

  lemma EnterCmds(nm: Namer, cfg: Config, ns: string, d: Direction, active: set<Chain>)
    ensures Cmds(Parts(nm, cfg, Enter(ns, d), active))
         == (if NamespaceChain(nm, d, ns) in active then [] else EntryCmds(nm, d, ns))
            + (if PlyChain(nm, d, ns) in active then [] else NamespaceCmds(nm, cfg, d, ns))
  {
    var c := NamespaceChain(nm, d, ns);
    var flannel, range := FlannelRules(nm, cfg, d), RangeRules(nm, cfg, d, ns);
    EntryPartCmds(nm, d, ns);
    CmdsOne(Part(c, flannel + range));
    AppendsConcat(c, flannel, range);
    var a := if c in active then [] else [Part(EnnForward, [EntryRule(nm, d, ns)]),
        Part(EnnOutput, [EntryRule(nm, d, ns)])];
    var b := if PlyChain(nm, d, ns) in active then [] else [Part(c, flannel + range)];
    CmdsConcat(a, b);
  }

  // ---------- one item, as one step on the buffers ----------

  /** Items that touch no set. */
  lemma NoSets(nm: Namer, item: Item, s: State)
    requires item.Enter? || (item.Peer? && item.clause.OnlyPorts?)
    ensures ItemApplied(nm, item, s) == s
  {
    assert CreatedAll(s.sets, {}).Keys == s.sets.Keys;
  }

  lemma PeerEmit(nm: Namer, cfg: Config, item: Item, b: Build)
    requires item.Peer? && !item.clause.BlockPeer?
    ensures var c := DispatchOf(nm, item);
            Emit(nm, cfg, item, b)
            == Build(b.chains + [c],
                     b.rules + [Append(PlyChain(nm, item.dir, item.ns), Rule([], Jump(c)))]
                         + Appends(c, PeerRules(nm, item)),
                     b.active + {c}, ItemApplied(nm, item, b.s))
  {
    var c := DispatchOf(nm, item);
    PeerCmds(nm, cfg, item, b.active);
    assert ItemChains(nm, cfg, item) == [c];
    assert Elements([c]) == {c};
    assert b.rules + ([Append(PlyChain(nm, item.dir, item.ns), Rule([], Jump(c)))] + Appends(c, PeerRules(nm, item))
               + [])
        == b.rules + [Append(PlyChain(nm, item.dir, item.ns), Rule([], Jump(c)))] + Appends(c, PeerRules(nm, item));
  }

  lemma BlockEmit(nm: Namer, cfg: Config, item: Item, b: Build)
    requires item.Peer? && item.clause.BlockPeer?
    ensures var c, k := DispatchOf(nm, item), BlockChainOf(nm, item);
            Emit(nm, cfg, item, b)
            == Build(b.chains + [c] + [k],
                     b.rules + [Append(PlyChain(nm, item.dir, item.ns), Rule([], Jump(c)))]
                         + Appends(c, PeerRules(nm, item)) + BlockCmds(nm, item),
                     b.active + {c} + {k}, ItemApplied(nm, item, b.s))
  {
    var c, k := DispatchOf(nm, item), BlockChainOf(nm, item);
    PeerCmds(nm, cfg, item, b.active);
    assert ItemChains(nm, cfg, item) == [c, k];
    assert Elements([c, k]) == {c, k};
    assert b.chains + [c, k] == b.chains + [c] + [k];
    assert b.active + {c, k} == b.active + {c} + {k};
    Regroup(b.rules, [Append(PlyChain(nm, item.dir, item.ns), Rule([], Jump(c)))], Appends(c, PeerRules(nm, item)),
        BlockCmds(nm, item));
  }

  lemma Associate<T>(a: seq<T>, b: seq<T>, c: seq<T>)
    ensures a + (b + c) == a + b + c
  {}

  lemma Regroup<T>(a: seq<T>, b: seq<T>, c: seq<T>, d: seq<T>)
    ensures a + (b + c + d) == a + b + c + d
  {}

  lemma EnterChains(nm: Namer, cfg: Config, ns: string, d: Direction, chains: seq<Chain>, active: set<Chain>)
    ensures var c, ply, all := NamespaceChain(nm, d, ns), PlyChain(nm, d, ns), ItemChains(nm, cfg, Enter(ns, d));
            chains + all == chains + [c] + [ply] && active + Elements(all) == active + {c} + {ply}
  {
    var c, ply := NamespaceChain(nm, d, ns), PlyChain(nm, d, ns);
    assert ItemChains(nm, cfg, Enter(ns, d)) == [c, ply];
    assert Elements([c, ply]) == {c, ply};
  }

  /** Entering a namespace: its entries unless they are there, its rules unless they are. */
  lemma EnterEmit(nm: Namer, cfg: Config, ns: string, d: Direction, b: Build)
    ensures var c, ply := NamespaceChain(nm, d, ns), PlyChain(nm, d, ns);
            Emit(nm, cfg, Enter(ns, d), b)
            == Build(b.chains + [c] + [ply],
                     b.rules + (if c in b.active then [] else EntryCmds(nm, d, ns))
                         + (if ply in b.active then [] else NamespaceCmds(nm, cfg, d, ns)),
                     b.active + {c} + {ply}, b.s)
  {
    var c, ply := NamespaceChain(nm, d, ns), PlyChain(nm, d, ns);
    EnterCmds(nm, cfg, ns, d, b.active);
    Associate(b.rules, if c in b.active then [] else EntryCmds(nm, d, ns), if ply in b.active then []
        else NamespaceCmds(nm, cfg, d, ns));
    NoSets(nm, Enter(ns, d), b.s);
    EnterChains(nm, cfg, ns, d, b.chains, b.active);
  }

  /** Beginning a policy: the sets of its namespace, of each pair of its selector, and of the selector. */
  lemma BeginEmit(nm: Namer, cfg: Config, item: Item, b: Build)
    requires item.Begin?
    ensures Emit(nm, cfg, item, b) == b.(s := ItemApplied(nm, item, b.s))
  {
    assert Elements<Chain>([]) == {};
    assert b.chains + [] == b.chains && b.rules + [] == b.rules;
  }

  // ---------- sets created one by one ----------

  lemma CreatedMore(sets: Sets, names: set<SetName>, n: SetName)
    ensures Created(CreatedAll(sets, names), n) == CreatedAll(sets, names + {n})
    ensures CreatedAll(sets, {}) == sets
  {
    var a, b := Created(CreatedAll(sets, names), n), CreatedAll(sets, names + {n});
    assert a.Keys == b.Keys;
    assert CreatedAll(sets, {}).Keys == sets.Keys;
  }

  lemma PodPeerApplied(nm: Namer, item: Item, s: State)
    requires item.Peer? && item.clause.PodPeer?
    ensures var name := LabelSet(nm, item.ns, item.clause.pair);
            ItemApplied(nm, item, s) == s.(tracked := Noted(s.tracked, PodLabel(NsLabel(item.ns, item.clause.pair)),
                name),
                                           active := s.active + {name}, sets := Created(s.sets, name))
  {
    CreatedMore(s.sets, {}, LabelSet(nm, item.ns, item.clause.pair));
  }

  lemma NamespacePeerApplied(nm: Namer, item: Item, s: State)
    requires item.Peer? && item.clause.NamespacePeer?
    ensures var name := NamespaceLabelSet(nm, item.clause.pair);
            ItemApplied(nm, item, s) == s.(tracked := Noted(s.tracked, NamespaceLabel(item.clause.pair), name),
                                           active := s.active + {name}, sets := Created(s.sets, name))
  {
    CreatedMore(s.sets, {}, NamespaceLabelSet(nm, item.clause.pair));
  }

  lemma BlockPeerApplied(nm: Namer, item: Item, s: State)
    requires item.Peer? && item.clause.BlockPeer?
    ensures var name := ExceptOf(nm, item);
            ItemApplied(nm, item, s) == s.(active := s.active + {name},
                sets := Synced(Created(s.sets, name), name, set net | net in item.clause.block.except))
  {
    CreatedMore(s.sets, {}, ExceptOf(nm, item));
  }

  lemma FramesMore(before: seq<Cmd>, plies: seq<Chain>, c: Chain)
    ensures before + Frames(plies + [c]) == before + Frames(plies) + [Insert(c, CONNTRACK), Append(c, DEFAULT)]
  {
    assert (plies + [c])[..|plies|] == plies;
  }

  lemma TakeMore<T>(s: seq<T>, i: nat)
    requires i < |s|
    ensures s[..i + 1] == s[..i] + [s[i]]
  {}

  lemma BlocksMore(p: Policy, d: Direction, blocks: seq<IpBlock>, i: nat, ports: seq<Port>)
    requires i < |blocks|
    ensures BlockItems(p, d, blocks[..i + 1], ports)
         == BlockItems(p, d, blocks[..i], ports) + [Peer(p.ns, p.name, p.selector, d, BlockPeer(blocks[i], ports))]
  {
    assert blocks[..i + 1][..i] == blocks[..i];
  }

  /** A walk over some of the policies and what has been emitted for it. */
  ghost predicate WalkEmitted(nm: Namer, cfg: Config, ls: seq<ListedPolicy>, order: seq<Key>,
                              policies: map<Key, Policy>, b: Build, b': Build) {
    Walks(ls, order, policies) && b' == EmitAll(nm, cfg, WalkItems(ls), b)
  }

  lemma WalksMore(ls: seq<ListedPolicy>, order: seq<Key>, policies: map<Key, Policy>, rest: set<Key>, key: Key,
                  l: ListedPolicy)
    requires rest <= policies.Keys && key in rest && Walks(ls, order, policies - rest)
    requires l.policy == policies[key] && ListsPolicy(l)
    ensures Walks(ls + [l], order + [key], policies - (rest - {key}))
  {
    EnumeratesMore(order, (policies - rest).Keys, key);
    assert (policies - (rest - {key})).Keys == (policies - rest).Keys + {key};
  }

  lemma WalkMore(nm: Namer, cfg: Config, ls: seq<ListedPolicy>, order: seq<Key>, policies: map<Key, Policy>,
                 rest: set<Key>, key: Key, l: ListedPolicy, b: Build, before: Build, after: Build)
    requires rest <= policies.Keys && key in rest && WalkEmitted(nm, cfg, ls, order, policies - rest, b, before)
    requires l.policy == policies[key] && ListsPolicy(l) && after == EmitAll(nm, cfg, PolicyItems(l), before)
    ensures WalkEmitted(nm, cfg, ls + [l], order + [key], policies - (rest - {key}), b, after)
  {
    WalksMore(ls, order, policies, rest, key, l);
    assert (ls + [l])[..|ls|] == ls;
    EmitConcat(nm, cfg, WalkItems(ls), PolicyItems(l), b);
  }

  ghost predicate ListsTypes(policy: Policy, types: seq<Direction>, sections: seq<seq<ListedRule>>) {
    |sections| == |types| && forall i :: 0 <= i < |sections| ==> ListsRules(sections[i], policy.Rules(types[i]))
  }

  /** The listings of a policy's types so far, and what has been emitted for them. */
  ghost predicate TypesEmitted(nm: Namer, cfg: Config, policy: Policy, types: seq<Direction>,
                               sections: seq<seq<ListedRule>>, b: Build, b': Build) {
    ListsTypes(policy, types, sections) && b' == EmitAll(nm, cfg, SectionItems(policy, types, sections), b)
  }

  lemma ListsTypesMore(policy: Policy, types: seq<Direction>, sections: seq<seq<ListedRule>>, d: Direction,
                       ls: seq<ListedRule>)
    requires ListsTypes(policy, types, sections) && ListsRules(ls, policy.Rules(d))
    ensures ListsTypes(policy, types + [d], sections + [ls])
  {}

  lemma SectionEmits(nm: Namer, cfg: Config, policy: Policy, types: seq<Direction>, sections: seq<seq<ListedRule>>,
                     d: Direction, ls: seq<ListedRule>, b: Build, before: Build, after: Build)
    requires TypesEmitted(nm, cfg, policy, types, sections, b, before) && ListsRules(ls, policy.Rules(d))
    requires after == EmitAll(nm, cfg, [Enter(policy.ns, d)] + RulesItems(policy, d, ls), before)
    ensures TypesEmitted(nm, cfg, policy, types + [d], sections + [ls], b, after)
  {
    ListsTypesMore(policy, types, sections, d, ls);
    SectionStep(nm, cfg, policy, types + [d], sections + [ls], b);
    assert (types + [d])[..|types|] == types && (sections + [ls])[..|types|] == sections;
  }

  lemma SectionStep(nm: Namer, cfg: Config, policy: Policy, types: seq<Direction>, sections: seq<seq<ListedRule>>,
                    b: Build)
    requires |sections| == |types| && types != []
    ensures var n := |types| - 1;
            EmitAll(nm, cfg, SectionItems(policy, types, sections), b)
            == EmitAll(nm, cfg, [Enter(policy.ns, types[n])] + RulesItems(policy, types[n], sections[n]),
                EmitAll(nm, cfg, SectionItems(policy, types[..n], sections[..n]), b))
  {
    var n := |types| - 1;
    var before, enter, rules := SectionItems(policy, types[..n], sections[..n]), [Enter(policy.ns, types[n])],
        RulesItems(policy, types[n], sections[n]);
    assert before + enter + rules == before + (enter + rules);
    EmitConcat(nm, cfg, before, enter + rules, b);
  }

  ghost function LabelSets(nm: Namer, ns: string, pairs: set<Label>): set<SetName> {
    set pair | pair in pairs :: LabelSet(nm, ns, pair)
  }

  /** The sets of a namespace and of some pairs, created, noted and activated. */
  ghost function BegunSets(nm: Namer, ns: string, pairs: set<Label>, s: State): State {
    s.(tracked := NotedAll(Noted(s.tracked, NamespacePods(ns), NamespaceSet(nm, ns)), nm, ns, pairs),
       active := s.active + {NamespaceSet(nm, ns)} + LabelSets(nm, ns, pairs),
       sets := CreatedAll(s.sets, {NamespaceSet(nm, ns)} + LabelSets(nm, ns, pairs)))
  }

  lemma NotedMore(nm: Namer, ns: string, pairs: set<Label>, pair: Label, tracked: map<Tag, SetName>)
    ensures Noted(NotedAll(tracked, nm, ns, pairs), PodLabel(NsLabel(ns, pair)), LabelSet(nm, ns, pair))
                == NotedAll(tracked, nm, ns, pairs + {pair})
  {
    var tag := PodLabel(NsLabel(ns, pair));
    var a, b := Noted(NotedAll(tracked, nm, ns, pairs), tag, LabelSet(nm, ns, pair)),
        NotedAll(tracked, nm, ns, pairs + {pair});
    assert a.Keys == b.Keys;
  }

  /** The sets of some pairs have been created, noted and activated, and nothing else was done. */
  ghost predicate LabelsEnsured(nm: Namer, ns: string, pairs: set<Label>, tracked: map<Tag, SetName>,
                                active: set<SetName>, sets: Sets, tracked': map<Tag, SetName>, active': set<SetName>,
                                sets': Sets) {
    && tracked' == NotedAll(tracked, nm, ns, pairs)
    && active' == active + LabelSets(nm, ns, pairs)
    && sets' == CreatedAll(sets, LabelSets(nm, ns, pairs))
  }

  lemma LabelSetsNone(nm: Namer, ns: string, tracked: map<Tag, SetName>, active: set<SetName>, sets: Sets)
    ensures LabelsEnsured(nm, ns, {}, tracked, active, sets, tracked, active, sets)
  {
    assert LabelSets(nm, ns, {}) == {};
    assert NotedAll(tracked, nm, ns, {}).Keys == tracked.Keys;
    assert CreatedAll(sets, {}).Keys == sets.Keys;
  }

  lemma LabelSetsMore(nm: Namer, ns: string, selector: Selector, rest: set<string>, k: string,
                      tracked: map<Tag, SetName>, active: set<SetName>, sets: Sets, tracked': map<Tag, SetName>,
                      active': set<SetName>, sets': Sets)
    requires k in rest && rest <= selector.Keys
    requires LabelsEnsured(nm, ns, Pairs(selector - rest), tracked, active, sets, tracked', active', sets')
    ensures var pair := Label(k, selector[k]);
            LabelsEnsured(nm, ns, Pairs(selector - (rest - {k})), tracked, active, sets,
                          Noted(tracked', PodLabel(NsLabel(ns, pair)), LabelSet(nm, ns, pair)),
                              active' + {LabelSet(nm, ns, pair)}, Created(sets', LabelSet(nm, ns, pair)))
  {
    var pair, before := Label(k, selector[k]), Pairs(selector - rest);
    PairsOfLabels(selector, rest, k);
    NotedMore(nm, ns, before, pair, tracked);
    assert LabelSets(nm, ns, before + {pair}) == LabelSets(nm, ns, before) + {LabelSet(nm, ns, pair)};
    CreatedMore(sets, LabelSets(nm, ns, before), LabelSet(nm, ns, pair));
  }

  /** The visited part of a selector, as words and as a selector. */
  ghost predicate Listed(selector: Selector, rest: set<string>, order: seq<string>, xLabel: seq<string>,
                         specLabel: Selector) {
    && rest <= selector.Keys && Enumerates(order, selector.Keys - rest)
    && xLabel == Flatten(order, selector) && specLabel == selector - rest
  }

  lemma ListedMore(selector: Selector, rest: set<string>, order: seq<string>, xLabel: seq<string>,
                   specLabel: Selector, k: string)
    requires Listed(selector, rest, order, xLabel, specLabel) && k in rest
    ensures Listed(selector, rest - {k}, order + [k], xLabel + [k, selector[k]], specLabel[k := selector[k]])
  {
    EnumeratesMore(order, selector.Keys - rest, k);
    assert selector.Keys - (rest - {k}) == selector.Keys - rest + {k};
    FlattenLast(order, k, selector);
    assert specLabel[k := selector[k]] == selector - (rest - {k});
  }

  /** The namespace's set first, then those of the pairs. */
  lemma BegunIs(nm: Namer, ns: string, pairs: set<Label>, s: State)
    ensures BegunSets(nm, ns, pairs, s)
         == s.(tracked := NotedAll(Noted(s.tracked, NamespacePods(ns), NamespaceSet(nm, ns)), nm, ns, pairs),
               active := s.active + {NamespaceSet(nm, ns)} + LabelSets(nm, ns, pairs),
               sets := CreatedAll(Created(s.sets, NamespaceSet(nm, ns)), LabelSets(nm, ns, pairs)))
  {
    var n, names := NamespaceSet(nm, ns), LabelSets(nm, ns, pairs);
    var a, b := CreatedAll(s.sets, {n} + names), CreatedAll(Created(s.sets, n), names);
    assert a.Keys == b.Keys;
  }

  lemma BegunAll(nm: Namer, item: Item, s: State)
    requires item.Begin?
    ensures var now, name, key := BegunSets(nm, item.ns, Pairs(item.selector), s),
                SelectorSet(nm, item.ns, item.selector), Key(item.ns, item.policy);
            ItemApplied(nm, item, s)
            == if item.selector == map[] then now
               else now.(tracked := now.tracked[XLabel(key) := name],
                   selectors := now.selectors[key := Scoped(item.ns, item.selector)],
                         active := now.active + {name}, sets := Created(now.sets, name))
  {
    BegunNames(nm, item, s.active);
    if item.selector != map[] {
      CreatedMore(s.sets, {NamespaceSet(nm, item.ns)} + LabelSets(nm, item.ns, Pairs(item.selector)),
          SelectorSet(nm, item.ns, item.selector));
    }
  }

  lemma BegunNames(nm: Namer, item: Item, active: set<SetName>)
    requires item.Begin?
    ensures var names, own := {NamespaceSet(nm, item.ns)} + LabelSets(nm, item.ns, Pairs(item.selector)),
                SelectorSet(nm, item.ns, item.selector);
            && SetsOf(nm, item) == (if item.selector == map[] then names else names + {own})
            && active + SetsOf(nm, item)
               == (if item.selector == map[] then active + {NamespaceSet(nm, item.ns)}
                   + LabelSets(nm, item.ns, Pairs(item.selector))
                   else active + {NamespaceSet(nm, item.ns)} + LabelSets(nm, item.ns, Pairs(item.selector)) + {own})
  {}

  lemma SelectorsEmit(nm: Namer, cfg: Config, policy: Policy, d: Direction, pods: bool, lists: seq<seq<Label>>,
                      labels: seq<Label>, ports: seq<Port>, b: Build)
    ensures EmitAll(nm, cfg, SelectorItems(policy, d, pods, lists + [labels], ports), b)
         == EmitAll(nm, cfg, LabelItems(policy, d, pods, labels, ports),
             EmitAll(nm, cfg, SelectorItems(policy, d, pods, lists, ports), b))
  {
    assert (lists + [labels])[..|lists|] == lists;
    EmitConcat(nm, cfg, SelectorItems(policy, d, pods, lists, ports), LabelItems(policy, d, pods, labels, ports), b);
  }

  lemma SelectorsMore(lists: seq<seq<Label>>, selects: seq<Selector>, i: nat, labels: seq<Label>)
    requires i < |selects| && ListsSelectors(lists, selects[..i]) && Enumerates(labels, Pairs(selects[i]))
    ensures ListsSelectors(lists + [labels], selects[..i + 1])
  {}

  lemma RulesEmit(nm: Namer, cfg: Config, policy: Policy, d: Direction, ls: seq<ListedRule>, l: ListedRule, b: Build)
    ensures EmitAll(nm, cfg, RulesItems(policy, d, ls + [l]), b)
                == EmitAll(nm, cfg, RuleItems(policy, d, l), EmitAll(nm, cfg, RulesItems(policy, d, ls), b))
  {
    assert (ls + [l])[..|ls|] == ls;
    EmitConcat(nm, cfg, RulesItems(policy, d, ls), RuleItems(policy, d, l), b);
  }

  lemma ListsMore(ls: seq<ListedRule>, rules: seq<PeerRule>, i: nat, l: ListedRule)
    requires i < |rules| && ListsRules(ls, rules[..i]) && Lists(l, rules[i])
    ensures ListsRules(ls + [l], rules[..i + 1])
  {}

  lemma RuleEmits(nm: Namer, cfg: Config, policy: Policy, d: Direction, l: ListedRule, only: seq<Item>, b: Build)
    requires only == PortItems(policy, d, l)
    ensures EmitAll(nm, cfg, RuleItems(policy, d, l), b)
         == EmitAll(nm, cfg, BlockItems(policy, d, l.blocks, l.ports),
                    EmitAll(nm, cfg, SelectorItems(policy, d, false, l.namespaces, l.ports),
                            EmitAll(nm, cfg, SelectorItems(policy, d, true, l.pods, l.ports),
                                EmitAll(nm, cfg, only, b))))
  {
    var x, y, z := SelectorItems(policy, d, true, l.pods, l.ports),
        SelectorItems(policy, d, false, l.namespaces, l.ports), BlockItems(policy, d, l.blocks, l.ports);
    EmitConcat(nm, cfg, only + x + y, z, b);
    EmitConcat(nm, cfg, only + x, y, b);
    EmitConcat(nm, cfg, only, x, b);
  }
}
