/** Network policies as the controller keeps them, and the ways its loops can walk through one. */
module Policies {
  import opened Names
  import opened Orders

  datatype Key = Key(ns: string, name: string)

  datatype Label = Label(key: string, value: string)

  datatype Port = Port(protocol: string, port: string)

  datatype IpBlock = IpBlock(cidr: string, except: seq<string>)

  type Selector = map<string, string>

  datatype PeerRule = PeerRule(ports: seq<Port>, pods: seq<Selector>, namespaces: seq<Selector>, blocks: seq<IpBlock>)

  datatype Policy = Policy(name: string, ns: string, selector: Selector,
                           ingress: seq<PeerRule>, egress: seq<PeerRule>, types: seq<Direction>) {
    function Rules(d: Direction): seq<PeerRule> { if d.Ingress? then ingress else egress }
  }

  function Pairs(m: Selector): set<Label> {
    set k | k in m :: Label(k, m[k])
  }

  // ---------- one peer of one rule ----------

  /** What one dispatch jump is emitted for; every label pair of a peer selector is a clause of its own. */
  datatype Clause =
    | OnlyPorts(ports: seq<Port>)
    | PodPeer(pair: Label, ports: seq<Port>)
    | NamespacePeer(pair: Label, ports: seq<Port>)
    | BlockPeer(block: IpBlock, ports: seq<Port>)

  /** A rule with each selector listed in the order some loop visited its pairs. */
  datatype ListedRule = ListedRule(ports: seq<Port>, pods: seq<seq<Label>>, namespaces: seq<seq<Label>>,
      blocks: seq<IpBlock>)

  ghost predicate ListsSelectors(lists: seq<seq<Label>>, selectors: seq<Selector>) {
    |lists| == |selectors| && forall i :: 0 <= i < |lists| ==> Enumerates(lists[i], Pairs(selectors[i]))
  }

  ghost predicate Lists(l: ListedRule, r: PeerRule) {
    && l.ports == r.ports && l.blocks == r.blocks
    && ListsSelectors(l.pods, r.pods) && ListsSelectors(l.namespaces, r.namespaces)
  }

  ghost predicate ListsRules(ls: seq<ListedRule>, rs: seq<PeerRule>) {
    |ls| == |rs| && forall i :: 0 <= i < |ls| ==> Lists(ls[i], rs[i])
  }

  // ---------- the walk ----------

  /** The events of a walk over the policies, in the order in which they emit anything. */
  datatype Item =
    | Begin(ns: string, policy: string, selector: Selector)
    | Enter(ns: string, dir: Direction)
    | Peer(ns: string, policy: string, selector: Selector, dir: Direction, clause: Clause)

  function LabelItems(p: Policy, d: Direction, pods: bool, labels: seq<Label>, ports: seq<Port>): seq<Item> {
    if labels == [] then [] else
      var last := labels[|labels| - 1];
      LabelItems(p, d, pods, labels[..|labels| - 1], ports)
      + [Peer(p.ns, p.name, p.selector, d, if pods then PodPeer(last, ports) else NamespacePeer(last, ports))]
  }

  function SelectorItems(p: Policy, d: Direction, pods: bool, lists: seq<seq<Label>>, ports: seq<Port>): seq<Item> {
    if lists == [] then [] else
      SelectorItems(p, d, pods, lists[..|lists| - 1], ports) + LabelItems(p, d, pods, lists[|lists| - 1], ports)
  }

  function BlockItems(p: Policy, d: Direction, blocks: seq<IpBlock>, ports: seq<Port>): seq<Item> {
    if blocks == [] then [] else
      BlockItems(p, d, blocks[..|blocks| - 1], ports)
      + [Peer(p.ns, p.name, p.selector, d, BlockPeer(blocks[|blocks| - 1], ports))]
  }

  function PortItems(p: Policy, d: Direction, l: ListedRule): seq<Item> {
    if |l.pods| == 0 && |l.namespaces| == 0 && |l.blocks| == 0 && |l.ports| > 0
    then [Peer(p.ns, p.name, p.selector, d, OnlyPorts(l.ports))]
    else []
  }

  function RuleItems(p: Policy, d: Direction, l: ListedRule): seq<Item> {
    PortItems(p, d, l)
    + SelectorItems(p, d, true, l.pods, l.ports)
    + SelectorItems(p, d, false, l.namespaces, l.ports)
    + BlockItems(p, d, l.blocks, l.ports)
  }

  function RulesItems(p: Policy, d: Direction, ls: seq<ListedRule>): seq<Item> {
    if ls == [] then [] else RulesItems(p, d, ls[..|ls| - 1]) + RuleItems(p, d, ls[|ls| - 1])
  }

  /** A policy with the listing used for each of its policy types. */
  datatype ListedPolicy = ListedPolicy(policy: Policy, sections: seq<seq<ListedRule>>)

  ghost predicate ListsPolicy(l: ListedPolicy) {
    && |l.sections| == |l.policy.types|
    && forall i :: 0 <= i < |l.sections| ==> ListsRules(l.sections[i], l.policy.Rules(l.policy.types[i]))
  }

  function SectionItems(p: Policy, types: seq<Direction>, sections: seq<seq<ListedRule>>): seq<Item>
    requires |types| == |sections|
  {
    if types == [] then [] else
      var n := |types| - 1;
      SectionItems(p, types[..n], sections[..n]) + [Enter(p.ns, types[n])] + RulesItems(p, types[n], sections[n])
  }

  function PolicyItems(l: ListedPolicy): seq<Item>
    requires |l.sections| == |l.policy.types|
  {
    [Begin(l.policy.ns, l.policy.name, l.policy.selector)] + SectionItems(l.policy, l.policy.types, l.sections)
  }

  function WalkItems(ls: seq<ListedPolicy>): seq<Item>
    requires forall i :: 0 <= i < |ls| ==> |ls[i].sections| == |ls[i].policy.types|
  {
    if ls == [] then [] else WalkItems(ls[..|ls| - 1]) + PolicyItems(ls[|ls| - 1])
  }

  /** A walk over a policy map: each policy once, in any order, each selector in any order. */
  ghost predicate Walks(ls: seq<ListedPolicy>, order: seq<Key>, policies: map<Key, Policy>) {
    && Enumerates(order, policies.Keys)
    && |ls| == |order|
    && forall i :: 0 <= i < |ls| ==> order[i] in policies && ls[i].policy == policies[order[i]] && ListsPolicy(ls[i])
  }

  // ---------- which clauses a policy has, without any order ----------

  ghost predicate RuleHas(r: PeerRule, c: Clause) {
    c.ports == r.ports &&
    match c
    case OnlyPorts(ports) => r.pods == [] && r.namespaces == [] && r.blocks == [] && ports != []
    case PodPeer(pair, _) => exists i :: 0 <= i < |r.pods| && pair in Pairs(r.pods[i])
    case NamespacePeer(pair, _) => exists i :: 0 <= i < |r.namespaces| && pair in Pairs(r.namespaces[i])
    case BlockPeer(block, _) => block in r.blocks
  }

  ghost predicate PolicyHas(p: Policy, d: Direction, c: Clause) {
    d in p.types && exists r :: r in p.Rules(d) && RuleHas(r, c)
  }

  ghost predicate FromPolicy(p: Policy, item: Item)
    requires item.Peer?
  {
    p.ns == item.ns && p.name == item.policy && p.selector == item.selector && PolicyHas(p, item.dir, item.clause)
  }

  lemma {:induction false} LabelItemsAre(p: Policy, d: Direction, pods: bool, labels: seq<Label>, ports: seq<Port>,
                                         item: Item)
    ensures item in LabelItems(p, d, pods, labels, ports)
       <==> exists pair ::
              pair in labels
              && item == Peer(p.ns, p.name, p.selector, d, if pods then PodPeer(pair, ports)
                     else NamespacePeer(pair, ports))
  {
    if labels != [] {
      var n := |labels| - 1;
      LabelItemsAre(p, d, pods, labels[..n], ports, item);
      assert labels == labels[..n] + [labels[n]];
    }
  }

  ghost predicate SelectorHas(lists: seq<seq<Label>>, pair: Label) {
    exists i :: 0 <= i < |lists| && pair in lists[i]
  }

  lemma {:induction false} SelectorItemsAre(p: Policy, d: Direction, pods: bool, lists: seq<seq<Label>>,
                                            ports: seq<Port>, item: Item)
    ensures item in SelectorItems(p, d, pods, lists, ports)
       <==> exists pair ::
              SelectorHas(lists, pair)
              && item == Peer(p.ns, p.name, p.selector, d, if pods then PodPeer(pair, ports)
                     else NamespacePeer(pair, ports))
  {
    if lists != [] {
      var n := |lists| - 1;
      SelectorItemsAre(p, d, pods, lists[..n], ports, item);
      LabelItemsAre(p, d, pods, lists[n], ports, item);
      forall pair
        ensures SelectorHas(lists, pair) <==> SelectorHas(lists[..n], pair) || pair in lists[n]
      {
        if SelectorHas(lists[..n], pair) {
          var i :| 0 <= i < n && pair in lists[..n][i];
          assert pair in lists[i];
        }
        if SelectorHas(lists, pair) && pair !in lists[n] {
          var i :| 0 <= i < |lists| && pair in lists[i];
          assert pair in lists[..n][i];
        }
      }
    }
  }

  lemma {:induction false} BlockItemsAre(p: Policy, d: Direction, blocks: seq<IpBlock>, ports: seq<Port>, item: Item)
    ensures item in BlockItems(p, d, blocks, ports)
       <==> exists block :: block in blocks && item == Peer(p.ns, p.name, p.selector, d, BlockPeer(block, ports))
  {
    if blocks != [] {
      var n := |blocks| - 1;
      BlockItemsAre(p, d, blocks[..n], ports, item);
      assert blocks == blocks[..n] + [blocks[n]];
    }
  }

  lemma ListedLabels(lists: seq<seq<Label>>, selectors: seq<Selector>, pair: Label)
    requires ListsSelectors(lists, selectors)
    ensures SelectorHas(lists, pair) <==> exists i :: 0 <= i < |selectors| && pair in Pairs(selectors[i])
  {
    if SelectorHas(lists, pair) {
      var i :| 0 <= i < |lists| && pair in lists[i];
      assert pair in Pairs(selectors[i]);
    }
    if exists i :: 0 <= i < |selectors| && pair in Pairs(selectors[i]) {
      var i :| 0 <= i < |selectors| && pair in Pairs(selectors[i]);
      assert pair in lists[i];
    }
  }

  lemma RuleItemsAre(p: Policy, d: Direction, l: ListedRule, r: PeerRule, item: Item)
    requires Lists(l, r)
    ensures item in RuleItems(p, d, l)
       <==> item.Peer? && item == Peer(p.ns, p.name, p.selector, d, item.clause) && RuleHas(r, item.clause)
  {
    SelectorItemsAre(p, d, true, l.pods, l.ports, item);
    SelectorItemsAre(p, d, false, l.namespaces, l.ports, item);
    BlockItemsAre(p, d, l.blocks, l.ports, item);
    if item.Peer? {
      match item.clause
      case OnlyPorts(_) =>
      case PodPeer(pair, _) => ListedLabels(l.pods, r.pods, pair);
      case NamespacePeer(pair, _) => ListedLabels(l.namespaces, r.namespaces, pair);
      case BlockPeer(_, _) =>
    }
    RuleItemsSplit(p, d, l, item);
  }

  lemma RuleItemsSplit(p: Policy, d: Direction, l: ListedRule, item: Item)
    ensures item in RuleItems(p, d, l)
       <==> (item in PortItems(p, d, l) || item in SelectorItems(p, d, true, l.pods, l.ports)
             || item in SelectorItems(p, d, false, l.namespaces, l.ports)
                || item in BlockItems(p, d, l.blocks, l.ports))
  {}

  ghost predicate RulesHave(rs: seq<PeerRule>, c: Clause) {
    exists r :: r in rs && RuleHas(r, c)
  }

  lemma RulesHaveMore(rs: seq<PeerRule>, n: nat, c: Clause)
    requires |rs| == n + 1
    ensures RulesHave(rs, c) <==> RulesHave(rs[..n], c) || RuleHas(rs[n], c)
  {
    assert rs == rs[..n] + [rs[n]];
  }

  lemma {:induction false} RulesItemsAre(p: Policy, d: Direction, ls: seq<ListedRule>, rs: seq<PeerRule>, item: Item)
    requires ListsRules(ls, rs)
    ensures item in RulesItems(p, d, ls)
       <==> item.Peer? && item == Peer(p.ns, p.name, p.selector, d, item.clause) && RulesHave(rs, item.clause)
  {
    if ls != [] {
      var n := |ls| - 1;
      RulesItemsAre(p, d, ls[..n], rs[..n], item);
      RuleItemsAre(p, d, ls[n], rs[n], item);
      if item.Peer? {
        RulesHaveMore(rs, n, item.clause);
      }
    }
  }

  /** What the walk emits for one policy type. */
  ghost predicate SectionHas(p: Policy, d: Direction, item: Item) {
    match item
    case Begin(_, _, _) => false
    case Enter(ns, dir) => ns == p.ns && dir == d
    case Peer(_, _, _, _, clause) => item == Peer(p.ns, p.name, p.selector, d, clause) && RulesHave(p.Rules(d), clause)
  }

  lemma SectionItemsLast(p: Policy, types: seq<Direction>, sections: seq<seq<ListedRule>>, item: Item)
    requires |types| == |sections| > 0
    ensures var n := |types| - 1;
            (item in SectionItems(p, types, sections)
             <==> item in SectionItems(p, types[..n], sections[..n]) || item == Enter(p.ns, types[n])
                  || item in RulesItems(p, types[n], sections[n]))
  {}

  lemma SectionLast(p: Policy, d: Direction, listed: seq<ListedRule>, item: Item)
    requires ListsRules(listed, p.Rules(d))
    ensures item == Enter(p.ns, d) || item in RulesItems(p, d, listed) <==> SectionHas(p, d, item)
  {
    RulesItemsAre(p, d, listed, p.Rules(d), item);
  }

  lemma {:induction false} SectionItemsAre(p: Policy, types: seq<Direction>, sections: seq<seq<ListedRule>>, item: Item)
    requires |types| == |sections|
    requires forall i :: 0 <= i < |types| ==> ListsRules(sections[i], p.Rules(types[i]))
    ensures item in SectionItems(p, types, sections) <==> exists d :: d in types && SectionHas(p, d, item)
  {
    if types != [] {
      var n := |types| - 1;
      SectionItemsAre(p, types[..n], sections[..n], item);
      SectionItemsLast(p, types, sections, item);
      SectionLast(p, types[n], sections[n], item);
      assert types == types[..n] + [types[n]];
    }
  }

  ghost predicate ItemOf(p: Policy, item: Item) {
    match item
    case Begin(ns, policy, selector) => ns == p.ns && policy == p.name && selector == p.selector
    case Enter(ns, dir) => ns == p.ns && dir in p.types
    case Peer(_, _, _, _, _) => FromPolicy(p, item)
  }

  lemma PolicyItemsAre(l: ListedPolicy, item: Item)
    requires ListsPolicy(l)
    ensures item in PolicyItems(l) <==> ItemOf(l.policy, item)
  {
    SectionItemsAre(l.policy, l.policy.types, l.sections, item);
    if item.Peer? && FromPolicy(l.policy, item) {
      assert SectionHas(l.policy, item.dir, item);
    }
    if item.Enter? && ItemOf(l.policy, item) {
      assert SectionHas(l.policy, item.dir, item);
    }
  }

  lemma {:induction false} WalkItemsLast(ls: seq<ListedPolicy>, item: Item)
    requires ls != [] && forall i :: 0 <= i < |ls| ==> |ls[i].sections| == |ls[i].policy.types|
    ensures item in WalkItems(ls) <==> item in WalkItems(ls[..|ls| - 1]) || item in PolicyItems(ls[|ls| - 1])
  {}

  /** A walk visits exactly the clauses of the policies, whatever its order. */
  lemma {:induction false} WalkItemsAre(ls: seq<ListedPolicy>, item: Item)
    requires forall i :: 0 <= i < |ls| ==> ListsPolicy(ls[i])
    requires forall i :: 0 <= i < |ls| ==> |ls[i].sections| == |ls[i].policy.types|
    ensures item in WalkItems(ls) <==> AnyOf(ls, item)
  {
    if ls == [] {
      assert WalkItems(ls) == [];
      assert !AnyOf(ls, item);
    } else {
      var before, last := ls[..|ls| - 1], ls[|ls| - 1];
      assert ls == before + [last];
      WalkItemsAre(before, item);
      PolicyItemsAre(last, item);
      WalkItemsLast(ls, item);
      AnyOfLast(ls, item);
    }
  }

  ghost predicate AnyOf(ls: seq<ListedPolicy>, item: Item) {
    exists l :: l in ls && ItemOf(l.policy, item)
  }

  lemma AnyOfLast(ls: seq<ListedPolicy>, item: Item)
    requires ls != []
    ensures AnyOf(ls, item) <==> AnyOf(ls[..|ls| - 1], item) || ItemOf(ls[|ls| - 1].policy, item)
  {
    assert ls == ls[..|ls| - 1] + [ls[|ls| - 1]];
  }

  lemma WalkVisits(ls: seq<ListedPolicy>, order: seq<Key>, policies: map<Key, Policy>, item: Item)
    requires Walks(ls, order, policies)
    ensures item in WalkItems(ls) <==> exists k :: k in policies && ItemOf(policies[k], item)
  {
    WalkItemsAre(ls, item);
    if item in WalkItems(ls) {
      var l :| l in ls && ItemOf(l.policy, item);
      var i :| 0 <= i < |ls| && ls[i] == l;
      assert order[i] in policies;
    }
    if exists k :: k in policies && ItemOf(policies[k], item) {
      var k :| k in policies && ItemOf(policies[k], item);
      assert k in order;
      var i :| 0 <= i < |order| && order[i] == k;
      assert ls[i] in ls && ItemOf(ls[i].policy, item);
    }
  }
}
