/** Ingress and egress are compiled as exact mirror images. */
module Mirror {
  import opened Names
  import opened Naming
  import opened Netfilter
  import opened Policies
  import opened Compiler
  import opened Verdicts
  import opened Entries

  function Opposite(d: Direction): Direction { if d.Ingress? then Egress else Ingress }

  function MirrorItem(item: Item): Item {
    match item
    case Begin(_, _, _) => item
    case Enter(ns, d) => Enter(ns, Opposite(d))
    case Peer(ns, policy, selector, d, clause) => Peer(ns, policy, selector, Opposite(d), clause)
  }

  function Mirrored(items: seq<Item>): (r: seq<Item>)
    ensures |r| == |items| && forall i :: 0 <= i < |r| ==> r[i] == MirrorItem(items[i])
  {
    if items == [] then [] else Mirrored(items[..|items| - 1]) + [MirrorItem(items[|items| - 1])]
  }

  // ---------- mirrored policies have mirrored walks ----------

  /** Every ingress rule becomes the same egress rule and the other way round. */
  function MirrorPolicy(p: Policy): Policy {
    p.(ingress := p.egress, egress := p.ingress, types := MirrorTypes(p.types))
  }

  function MirrorTypes(types: seq<Direction>): (r: seq<Direction>)
    ensures |r| == |types| && forall i :: 0 <= i < |r| ==> r[i] == Opposite(types[i])
  {
    if types == [] then [] else MirrorTypes(types[..|types| - 1]) + [Opposite(types[|types| - 1])]
  }

  lemma MirroredConcat(a: seq<Item>, b: seq<Item>)
    ensures Mirrored(a + b) == Mirrored(a) + Mirrored(b)
  {
    var x, y := Mirrored(a + b), Mirrored(a) + Mirrored(b);
    forall i | 0 <= i < |x| ensures x[i] == y[i] {
      assert (a + b)[i] == if i < |a| then a[i] else b[i - |a|];
    }
  }

  lemma {:induction false} MirrorLabels(p: Policy, d: Direction, pods: bool, labels: seq<Label>, ports: seq<Port>)
    ensures LabelItems(MirrorPolicy(p), Opposite(d), pods, labels, ports)
                == Mirrored(LabelItems(p, d, pods, labels, ports))
  {
    if labels != [] {
      MirrorLabels(p, d, pods, labels[..|labels| - 1], ports);
    }
  }

  lemma {:induction false} MirrorSelectors(p: Policy, d: Direction, pods: bool, lists: seq<seq<Label>>,
                                           ports: seq<Port>)
    ensures SelectorItems(MirrorPolicy(p), Opposite(d), pods, lists, ports)
                == Mirrored(SelectorItems(p, d, pods, lists, ports))
  {
    if lists != [] {
      var n := |lists| - 1;
      MirrorSelectors(p, d, pods, lists[..n], ports);
      MirrorLabels(p, d, pods, lists[n], ports);
      MirroredConcat(SelectorItems(p, d, pods, lists[..n], ports), LabelItems(p, d, pods, lists[n], ports));
    }
  }

  lemma {:induction false} MirrorBlocks(p: Policy, d: Direction, blocks: seq<IpBlock>, ports: seq<Port>)
    ensures BlockItems(MirrorPolicy(p), Opposite(d), blocks, ports) == Mirrored(BlockItems(p, d, blocks, ports))
  {
    if blocks != [] {
      MirrorBlocks(p, d, blocks[..|blocks| - 1], ports);
    }
  }

  lemma MirrorRule(p: Policy, d: Direction, l: ListedRule)
    ensures RuleItems(MirrorPolicy(p), Opposite(d), l) == Mirrored(RuleItems(p, d, l))
  {
    var a, b := PortItems(p, d, l), SelectorItems(p, d, true, l.pods, l.ports);
    var c, e := SelectorItems(p, d, false, l.namespaces, l.ports), BlockItems(p, d, l.blocks, l.ports);
    MirrorSelectors(p, d, true, l.pods, l.ports);
    MirrorSelectors(p, d, false, l.namespaces, l.ports);
    MirrorBlocks(p, d, l.blocks, l.ports);
    assert PortItems(MirrorPolicy(p), Opposite(d), l) == Mirrored(a);
    MirroredConcat(a, b);
    MirroredConcat(a + b, c);
    MirroredConcat(a + b + c, e);
  }

  lemma {:induction false} MirrorRules(p: Policy, d: Direction, ls: seq<ListedRule>)
    ensures RulesItems(MirrorPolicy(p), Opposite(d), ls) == Mirrored(RulesItems(p, d, ls))
  {
    if ls != [] {
      var n := |ls| - 1;
      MirrorRules(p, d, ls[..n]);
      MirrorRule(p, d, ls[n]);
      MirroredConcat(RulesItems(p, d, ls[..n]), RuleItems(p, d, ls[n]));
    }
  }

  lemma {:induction false} MirrorSections(p: Policy, types: seq<Direction>, sections: seq<seq<ListedRule>>)
    requires |types| == |sections|
    ensures SectionItems(MirrorPolicy(p), MirrorTypes(types), sections) == Mirrored(SectionItems(p, types, sections))
  {
    if types != [] {
      var n := |types| - 1;
      MirrorSections(p, types[..n], sections[..n]);
      MirrorRules(p, types[n], sections[n]);
      var before, enter := SectionItems(p, types[..n], sections[..n]), [Enter(p.ns, types[n])];
      assert Mirrored(enter) == [Enter(p.ns, Opposite(types[n]))];
      assert MirrorTypes(types)[..n] == MirrorTypes(types[..n]);
      MirroredConcat(before, enter);
      MirroredConcat(before + enter, RulesItems(p, types[n], sections[n]));
    }
  }

  function MirrorListed(l: ListedPolicy): ListedPolicy { l.(policy := MirrorPolicy(l.policy)) }

  function MirrorWalk(ls: seq<ListedPolicy>): (r: seq<ListedPolicy>)
    ensures |r| == |ls| && forall i :: 0 <= i < |r| ==> r[i] == MirrorListed(ls[i])
  {
    if ls == [] then [] else MirrorWalk(ls[..|ls| - 1]) + [MirrorListed(ls[|ls| - 1])]
  }

  lemma MirrorPolicyItems(l: ListedPolicy)
    requires |l.sections| == |l.policy.types|
    ensures PolicyItems(MirrorListed(l)) == Mirrored(PolicyItems(l))
  {
    var begin := [Begin(l.policy.ns, l.policy.name, l.policy.selector)];
    MirrorSections(l.policy, l.policy.types, l.sections);
    assert Mirrored(begin) == begin;
    MirroredConcat(begin, SectionItems(l.policy, l.policy.types, l.sections));
  }

  lemma {:induction false} MirrorItems(ls: seq<ListedPolicy>)
    requires forall i :: 0 <= i < |ls| ==> |ls[i].sections| == |ls[i].policy.types|
    ensures WalkItems(MirrorWalk(ls)) == Mirrored(WalkItems(ls))
  {
    if ls != [] {
      var n := |ls| - 1;
      MirrorItems(ls[..n]);
      MirrorPolicyItems(ls[n]);
      assert MirrorWalk(ls)[..n] == MirrorWalk(ls[..n]);
      MirroredConcat(WalkItems(ls[..n]), PolicyItems(ls[n]));
    }
  }

  function MirrorPolicies(policies: map<Key, Policy>): map<Key, Policy> {
    map k | k in policies :: MirrorPolicy(policies[k])
  }

  /** The mirrored walk is a walk over the mirrored policies. */
  lemma MirrorWalks(ls: seq<ListedPolicy>, order: seq<Key>, policies: map<Key, Policy>)
    requires Walks(ls, order, policies)
    ensures Walks(MirrorWalk(ls), order, MirrorPolicies(policies))
  {
    assert MirrorPolicies(policies).Keys == policies.Keys;
    forall i | 0 <= i < |ls| ensures ListsPolicy(MirrorListed(ls[i])) {
      var l := ls[i];
      forall j | 0 <= j < |l.sections|
        ensures MirrorPolicy(l.policy).Rules(MirrorTypes(l.policy.types)[j]) == l.policy.Rules(l.policy.types[j])
      {}
    }
  }

  // ---------- mirrored verdicts ----------

  /** Two worlds that agree, the except sets of mirrored blocks having the same members. */
  ghost predicate Alike(w: World, w': World, nm: Namer, items: seq<Item>) {
    && w'.inNet == w.inNet
    && (forall n: SetName, a :: !n.ExceptSet? ==> (w'.Has(n, a) <==> w.Has(n, a)))
    && (forall item, a ::
          item in items && item.Peer? && item.clause.BlockPeer?
          ==> (w'.Has(ExceptOf(nm, MirrorItem(item)), a) <==> w.Has(ExceptOf(nm, item), a)))
  }

  lemma MirrorMatch(w: World, w': World, nm: Namer, items: seq<Item>, item: Item, p: Packet)
    requires Alike(w, w', nm, items) && item.Peer?
    ensures ItemMatch(w', nm, MirrorItem(item), p.Swap()) <==> ItemMatch(w, nm, item, p)
  {
    assert p.Swap().Address(FarSide(Opposite(item.dir))) == p.Address(FarSide(item.dir));
    assert p.Swap().Address(OwnSide(Opposite(item.dir))) == p.Address(OwnSide(item.dir));
  }

  lemma MirrorGroup(a: Item, b: Item)
    requires a.Peer? && b.Peer?
    ensures GroupOf(MirrorItem(a)) == GroupOf(MirrorItem(b)) <==> GroupOf(a) == GroupOf(b)
  {}

  lemma MirrorGroupMatch(w: World, w': World, nm: Namer, items: seq<Item>, item: Item, p: Packet)
    requires Alike(w, w', nm, items) && item.Peer?
    ensures GroupMatch(w', nm, Mirrored(items), GroupOf(MirrorItem(item)), p.Swap())
            <==> GroupMatch(w, nm, items, GroupOf(item), p)
  {
    forall j | 0 <= j < |items| && items[j].Peer?
      ensures ItemMatch(w', nm, Mirrored(items)[j], p.Swap()) <==> ItemMatch(w, nm, items[j], p)
      ensures GroupOf(Mirrored(items)[j]) == GroupOf(MirrorItem(item)) <==> GroupOf(items[j]) == GroupOf(item)
    {
      MirrorMatch(w, w', nm, items, items[j], p);
      MirrorGroup(items[j], item);
    }
    assert forall j :: 0 <= j < |items| ==> (Mirrored(items)[j].Peer? <==> items[j].Peer?);
  }

  lemma MirrorGroupVerdict(w: World, w': World, nm: Namer, items: seq<Item>, item: Item, p: Packet)
    requires Alike(w, w', nm, items) && item in items && item.Peer?
    ensures GroupVerdict(w', nm, Mirrored(items), MirrorItem(item), p.Swap()) == GroupVerdict(w, nm, items, item, p)
  {
    MirrorGroupMatch(w, w', nm, items, item, p);
    assert p.Swap().Address(FarSide(Opposite(item.dir))) == p.Address(FarSide(item.dir));
  }

  lemma {:induction false} MirrorFirst(w: World, w': World, nm: Namer, items: seq<Item>, walked: seq<Item>,
                                       ns: string, d: Direction, p: Packet)
    requires Alike(w, w', nm, items) && walked <= items
    ensures FirstVerdict(w', nm, Mirrored(items), Mirrored(walked), ns, Opposite(d), p.Swap())
                == FirstVerdict(w, nm, items, walked, ns, d, p)
  {
    if walked != [] {
      var n := |walked| - 1;
      MirrorFirst(w, w', nm, items, walked[..n], ns, d, p);
      assert Mirrored(walked)[..n] == Mirrored(walked[..n]);
      assert walked[n] == items[n];
      if walked[n].Peer? {
        MirrorGroupVerdict(w, w', nm, items, walked[n], p);
      }
    }
  }

  lemma MirrorNamespace(w: World, w': World, nm: Namer, cfg: Config, items: seq<Item>, ns: string, d: Direction,
                        p: Packet)
    requires Alike(w, w', nm, items)
    ensures NamespaceVerdict(w', nm, cfg, Mirrored(items), ns, Opposite(d), p.Swap())
                == NamespaceVerdict(w, nm, cfg, items, ns, d, p)
  {
    MirrorFirst(w, w', nm, items, items, ns, d, p);
    assert p.Swap().Address(FarSide(Opposite(d))) == p.Address(FarSide(d));
  }

  lemma MirrorEntered(items: seq<Item>, ns: string, d: Direction)
    requires Enter(ns, d) in items
    ensures Enter(ns, Opposite(d)) in Mirrored(items)
  {
    var e :| 0 <= e < |items| && items[e] == Enter(ns, d);
    assert Mirrored(items)[e] == Enter(ns, Opposite(d));
  }

  /**
   * Mirror theorem. Turn every ingress rule into the same egress rule and every egress rule into the
   * same ingress rule, and swap a packet's addresses: the namespace's other chain, in the table
   * compiled of a walk over the mirrored policies, decides the same.
   */
  lemma MirrorTheorem(w: World, w': World, nm: Namer, cfg: Config, policies: map<Key, Policy>, ls: seq<ListedPolicy>,
                      order: seq<Key>, t: Table, t': Table, ns: string, d: Direction, p: Packet)
    requires Walks(ls, order, policies) && Governed(policies, ns, d) && Alike(w, w', nm, WalkItems(ls))
    requires NoClash(nm, cfg, WalkItems(ls)) && Compiled(nm, cfg, WalkItems(ls), t)
    requires NoClash(nm, cfg, WalkItems(MirrorWalk(ls))) && Compiled(nm, cfg, WalkItems(MirrorWalk(ls)), t')
    ensures Walks(MirrorWalk(ls), order, MirrorPolicies(policies))
    ensures Governed(MirrorPolicies(policies), ns, Opposite(d))
    ensures NamespaceChain(nm, d, ns) in t && NamespaceChain(nm, Opposite(d), ns) in t'
    ensures Eval(w', t', NamespaceChain(nm, Opposite(d), ns), p.Swap()) == Eval(w, t, NamespaceChain(nm, d, ns), p)
  {
    var items := WalkItems(ls);
    MirrorItems(ls);
    MirrorWalks(ls, order, policies);
    GovernedEntered(policies, ls, order, ns, d);
    MirrorEntered(items, ns, d);
    GovernedEntered(MirrorPolicies(policies), MirrorWalk(ls), order, ns, Opposite(d));
    NamespaceChainVerdict(w, nm, cfg, items, t, ns, d, p);
    NamespaceChainVerdict(w', nm, cfg, Mirrored(items), t', ns, Opposite(d), p.Swap());
    MirrorNamespace(w, w', nm, cfg, items, ns, d, p);
  }
}
