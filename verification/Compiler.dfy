/**
 * The rules a walk over the policies emits, chain by chain, and what the finished table
 * decides about a packet.
 */
module Compiler {
  import opened Names
  import opened Naming
  import opened Netfilter
  import opened Policies

  // ---------- the pieces of a rule ----------

  /** The side of a packet that belongs to the pods a policy protects. */
  function OwnSide(d: Direction): Side { if d.Ingress? then Dst else Src }

  function FarSide(d: Direction): Side { if d.Ingress? then Src else Dst }

  ghost function OwnMatches(nm: Namer, ns: string, selector: Selector, d: Direction): seq<Match> {
    if selector == map[] then [] else [MatchSet(SelectorSet(nm, ns, selector), OwnSide(d))]
  }

  function FarMatches(nm: Namer, ns: string, d: Direction, clause: Clause): seq<Match> {
    match clause
    case OnlyPorts(_) => []
    case PodPeer(pair, _) => [MatchSet(LabelSet(nm, ns, pair), FarSide(d))]
    case NamespacePeer(pair, _) => [MatchSet(NamespaceLabelSet(nm, pair), FarSide(d))]
    case BlockPeer(block, _) => [MatchNet(block.cidr, FarSide(d))]
  }

  function PortMatches(port: Port): seq<Match> { [MatchProtocol(port.protocol), MatchPort(port.port)] }

  function PortRules(base: seq<Match>, ports: seq<Port>, target: Target): seq<Rule> {
    if ports == [] then [] else
      PortRules(base, ports[..|ports| - 1], target) + [Rule(base + PortMatches(ports[|ports| - 1]), target)]
  }

  /** One rule per port; a clause other than ports-only gets one unconditional rule when there is no port. */
  function ClauseRules(base: seq<Match>, clause: Clause, target: Target): seq<Rule> {
    if clause.ports == [] && !clause.OnlyPorts? then [Rule(base, target)] else PortRules(base, clause.ports, target)
  }

  function TargetOf(nm: Namer, item: Item): Target
    requires item.Peer?
  {
    if item.clause.BlockPeer? then Jump(BlockChainOf(nm, item)) else Accept
  }

  ghost function PeerRules(nm: Namer, item: Item): seq<Rule>
    requires item.Peer?
  {
    ClauseRules(OwnMatches(nm, item.ns, item.selector, item.dir) + FarMatches(nm, item.ns, item.dir, item.clause),
                item.clause, TargetOf(nm, item))
  }

  function BlockRules(except: SetName, d: Direction): seq<Rule> {
    [Rule([MatchSet(except, FarSide(d))], Reject), Rule([], Accept)]
  }

  function EntryRule(nm: Namer, d: Direction, ns: string): Rule {
    Rule([MatchSet(NamespaceSet(nm, ns), OwnSide(d))], Jump(NamespaceChain(nm, d, ns)))
  }

  function FlannelRules(nm: Namer, cfg: Config, d: Direction): seq<Rule> {
    if cfg.acceptFlannel then [Rule([MatchSet(FlannelNetSet(nm), FarSide(d))], Accept)] else []
  }

  function RangeRules(nm: Namer, cfg: Config, d: Direction, ns: string): seq<Rule> {
    var ply := PlyChain(nm, d, ns);
    if cfg.Unlimited() then [Rule([], Jump(ply))]
    else [Rule([MatchSet(IpRangeSet(nm), FarSide(d))], Jump(ply)), Rule([], Accept)]
  }

  // ---------- what an item emits ----------

  function Appends(c: Chain, rules: seq<Rule>): seq<Cmd> {
    if rules == [] then [] else Appends(c, rules[..|rules| - 1]) + [Append(c, rules[|rules| - 1])]
  }

  /** The chain lines of an item, in order. */
  function ItemChains(nm: Namer, cfg: Config, item: Item): seq<Chain> {
    match item
    case Begin(_, _, _) => []
    case Enter(ns, d) => [NamespaceChain(nm, d, ns), PlyChain(nm, d, ns)]
    case Peer(_, _, _, _, clause) =>
      [DispatchOf(nm, item)] + if clause.BlockPeer? then [BlockChainOf(nm, item)] else []
  }

  function Chains(nm: Namer, cfg: Config, items: seq<Item>): seq<Chain> {
    if items == [] then [] else Chains(nm, cfg, items[..|items| - 1]) + ItemChains(nm, cfg, items[|items| - 1])
  }

  function Active(nm: Namer, cfg: Config, items: seq<Item>): set<Chain> {
    set c | c in Chains(nm, cfg, items)
  }

  /** Rules appended to one chain. */
  datatype Part = Part(chain: Chain, rules: seq<Rule>)

  ghost function Parts(nm: Namer, cfg: Config, item: Item, active: set<Chain>): seq<Part> {
    match item
    case Begin(_, _, _) => []
    case Enter(ns, d) =>
      (if NamespaceChain(nm, d, ns) in active then []
       else [Part(EnnForward, [EntryRule(nm, d, ns)]), Part(EnnOutput, [EntryRule(nm, d, ns)])])
      + (if PlyChain(nm, d, ns) in active then []
         else [Part(NamespaceChain(nm, d, ns), FlannelRules(nm, cfg, d) + RangeRules(nm, cfg, d, ns))])
    case Peer(ns, _, _, d, clause) =>
      [Part(PlyChain(nm, d, ns), [Rule([], Jump(DispatchOf(nm, item)))]),
          Part(DispatchOf(nm, item), PeerRules(nm, item))]
      + (if clause.BlockPeer? then [Part(BlockChainOf(nm, item), BlockRules(ExceptOf(nm, item), d))] else [])
  }

  ghost function Cmds(parts: seq<Part>): seq<Cmd> {
    if parts == [] then [] else
      Cmds(parts[..|parts| - 1]) + Appends(parts[|parts| - 1].chain, parts[|parts| - 1].rules)
  }

  ghost function RulesOn(parts: seq<Part>, c: Chain): seq<Rule> {
    if parts == [] then [] else
      RulesOn(parts[..|parts| - 1], c) + if parts[|parts| - 1].chain == c then parts[|parts| - 1].rules else []
  }

  ghost function Body(nm: Namer, cfg: Config, items: seq<Item>): seq<Cmd> {
    if items == [] then [] else
      var n := |items| - 1;
      Body(nm, cfg, items[..n]) + Cmds(Parts(nm, cfg, items[n], Active(nm, cfg, items[..n])))
  }

  /** The rules a walk gives to chain `c`. */
  ghost function Content(nm: Namer, cfg: Config, items: seq<Item>, c: Chain): seq<Rule> {
    if items == [] then [] else
      var n := |items| - 1;
      Content(nm, cfg, items[..n], c) + RulesOn(Parts(nm, cfg, items[n], Active(nm, cfg, items[..n])), c)
  }

  lemma ContentLast(nm: Namer, cfg: Config, items: seq<Item>, item: Item, c: Chain)
    ensures Content(nm, cfg, items + [item], c) == Content(nm, cfg, items, c)
                + RulesOn(Parts(nm, cfg, item, Active(nm, cfg, items)), c)
  {
    assert (items + [item])[..|items|] == items;
  }

  lemma {:induction false} ExtendByAppends(c: Chain, rules: seq<Rule>, c': Chain)
    ensures Extend([], c', Appends(c, rules)) == if c == c' then rules else []
    ensures forall i :: 0 <= i < |Appends(c, rules)| ==> Appends(c, rules)[i].Append?
  {
    if rules != [] {
      var n := |rules| - 1;
      ExtendByAppends(c, rules[..n], c');
      assert Appends(c, rules)[..|Appends(c, rules)| - 1] == Appends(c, rules[..n]);
      assert rules == rules[..n] + [rules[n]];
    }
  }

  lemma ExtendTwo(c: Chain, a: seq<Cmd>, b: seq<Cmd>)
    requires forall i :: 0 <= i < |b| ==> b[i].Append?
    ensures Extend([], c, a + b) == Extend([], c, a) + Extend([], c, b)
  {
    ExtendConcat([], c, a, b);
    ExtendAppends(Extend([], c, a), c, b);
  }

  ghost predicate AllAppends(cmds: seq<Cmd>) {
    forall i :: 0 <= i < |cmds| ==> cmds[i].Append?
  }

  lemma {:induction false} CmdsExtend(parts: seq<Part>, c: Chain)
    ensures AllAppends(Cmds(parts)) && Extend([], c, Cmds(parts)) == RulesOn(parts, c)
  {
    if parts != [] {
      var n := |parts| - 1;
      CmdsExtend(parts[..n], c);
      ExtendByAppends(parts[n].chain, parts[n].rules, c);
      ExtendTwo(c, Cmds(parts[..n]), Appends(parts[n].chain, parts[n].rules));
    }
  }

  /** Chain by chain, the script builds exactly the contents. */
  lemma {:induction false} BodyExtends(nm: Namer, cfg: Config, items: seq<Item>, c: Chain)
    ensures AllAppends(Body(nm, cfg, items))
    ensures Extend([], c, Body(nm, cfg, items)) == Content(nm, cfg, items, c)
  {
    if items != [] {
      var n := |items| - 1;
      var parts := Parts(nm, cfg, items[n], Active(nm, cfg, items[..n]));
      BodyExtends(nm, cfg, items[..n], c);
      CmdsExtend(parts, c);
      ExtendTwo(c, Body(nm, cfg, items[..n]), Cmds(parts));
    }
  }

  // ---------- the end of the script ----------

  const CONNTRACK := Rule([Established], Accept)

  const DEFAULT := Rule([], Reject)

  /** The first and last rules of the policy chains, for the policy chains in some order. */
  function Frames(plies: seq<Chain>): seq<Cmd> {
    if plies == [] then [] else
      var last := plies[|plies| - 1];
      Frames(plies[..|plies| - 1]) + [Insert(last, CONNTRACK), Append(last, DEFAULT)]
  }

  lemma {:induction false} FramesExtend(plies: seq<Chain>, rules: seq<Rule>, c: Chain)
    requires forall i, j :: 0 <= i < j < |plies| ==> plies[i] != plies[j]
    ensures Extend(rules, c, Frames(plies)) == if c in plies then [CONNTRACK] + rules + [DEFAULT] else rules
  {
    if plies != [] {
      var n := |plies| - 1;
      assert plies == plies[..n] + [plies[n]];
      FramesExtend(plies[..n], rules, c);
      FrameExtends(Frames(plies[..n]), plies[n], rules, c);
    }
  }

  lemma FrameExtends(cmds: seq<Cmd>, last: Chain, rules: seq<Rule>, c: Chain)
    ensures Extend(rules, c, cmds + [Insert(last, CONNTRACK), Append(last, DEFAULT)])
         == if c == last then [CONNTRACK] + Extend(rules, c, cmds) + [DEFAULT] else Extend(rules, c, cmds)
  {
    var all := cmds + [Insert(last, CONNTRACK), Append(last, DEFAULT)];
    assert all[..|all| - 1] == cmds + [Insert(last, CONNTRACK)];
    assert (cmds + [Insert(last, CONNTRACK)])[..|cmds|] == cmds;
  }

  /** What a chain of the finished table holds. */
  ghost function Finished(nm: Namer, cfg: Config, items: seq<Item>, c: Chain): seq<Rule> {
    if Ply(c) then [CONNTRACK] + Content(nm, cfg, items, c) + [DEFAULT] else Content(nm, cfg, items, c)
  }

  // ---------- contents, one kind of chain at a time ----------

  lemma {:induction false} RulesOnConcat(a: seq<Part>, b: seq<Part>, c: Chain)
    ensures RulesOn(a + b, c) == RulesOn(a, c) + RulesOn(b, c)
  {
    if b == [] {
      assert a + b == a;
    } else {
      var n := |b| - 1;
      assert (a + b)[..|a + b| - 1] == a + b[..n];
      RulesOnConcat(a, b[..n], c);
    }
  }

  ghost function On(part: Part, c: Chain): seq<Rule> {
    if part.chain == c then part.rules else []
  }

  lemma RulesOnOne(p: Part, c: Chain)
    ensures RulesOn([p], c) == On(p, c)
  {
    assert [p][..0] == [];
  }

  lemma RulesOnTwo(p: Part, q: Part, c: Chain)
    ensures RulesOn([p, q], c) == On(p, c) + On(q, c)
  {
    RulesOnOne(p, c);
    RulesOnOne(q, c);
    RulesOnConcat([p], [q], c);
    assert [p, q] == [p] + [q];
  }

  lemma EnterRules(nm: Namer, cfg: Config, ns: string, d: Direction, active: set<Chain>, c: Chain)
    ensures RulesOn(Parts(nm, cfg, Enter(ns, d), active), c)
         == if c == EnnForward || c == EnnOutput then (if NamespaceChain(nm, d, ns) in active then []
             else [EntryRule(nm, d, ns)])
            else if c == NamespaceChain(nm, d, ns) && PlyChain(nm, d, ns) !in active
            then FlannelRules(nm, cfg, d) + RangeRules(nm, cfg, d, ns)
            else []
  {
    var a, b := Part(EnnForward, [EntryRule(nm, d, ns)]), Part(EnnOutput, [EntryRule(nm, d, ns)]);
    var e := Part(NamespaceChain(nm, d, ns), FlannelRules(nm, cfg, d) + RangeRules(nm, cfg, d, ns));
    RulesOnTwo(a, b, c);
    RulesOnOne(e, c);
    RulesOnConcat(if NamespaceChain(nm, d, ns) in active then [] else [a, b],
                  if PlyChain(nm, d, ns) in active then [] else [e], c);
  }

  lemma PeerRulesOn(nm: Namer, cfg: Config, item: Item, active: set<Chain>, c: Chain)
    requires item.Peer?
    ensures RulesOn(Parts(nm, cfg, item, active), c)
         == if c == PlyChain(nm, item.dir, item.ns) then [Rule([], Jump(DispatchOf(nm, item)))]
            else if c == DispatchOf(nm, item) then PeerRules(nm, item)
            else if item.clause.BlockPeer? && c == BlockChainOf(nm, item) then BlockRules(ExceptOf(nm, item), item.dir)
            else []
  {
    var a := Part(PlyChain(nm, item.dir, item.ns), [Rule([], Jump(DispatchOf(nm, item)))]);
    var b := Part(DispatchOf(nm, item), PeerRules(nm, item));
    RulesOnTwo(a, b, c);
    if item.clause.BlockPeer? {
      var e := Part(BlockChainOf(nm, item), BlockRules(ExceptOf(nm, item), item.dir));
      RulesOnOne(e, c);
      RulesOnConcat([a, b], [e], c);
    } else {
      assert [a, b] + [] == [a, b];
    }
  }
}
