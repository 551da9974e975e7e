/** The names a run uses, as functions of what is named. */
module Naming {
  import opened Names
  import opened Orders
  import opened Policies
  import opened StringOrder

  datatype GroupKind = PortsGroup | PodGroup(pair: Label) | NamespaceGroup(pair: Label) | BlockGroup(cidr: string)

  /** What a dispatch chain is named after. Two clauses of one policy that differ in ports only share a chain. */
  datatype Group = Group(ns: string, policy: string, dir: Direction, kind: GroupKind)

  function GroupOf(item: Item): Group
    requires item.Peer?
  {
    Group(item.ns, item.policy, item.dir,
          match item.clause
          case OnlyPorts(_) => PortsGroup
          case PodPeer(pair, _) => PodGroup(pair)
          case NamespacePeer(pair, _) => NamespaceGroup(pair)
          case BlockPeer(block, _) => BlockGroup(block.cidr))
  }

  datatype Config = Config(ipRange: string, acceptFlannel: bool, flannelNet: string, flannelLen: string) {
    function Unlimited(): bool { ipRange == "0.0.0.0/0" }
  }

  /** The hash parts of all names. */
  datatype Namer = Namer(
    namespaceChain: string -> string,
    plyChain: string -> string,
    dispatchChain: Group -> string,
    blockChain: Group -> string,
    namespaceSet: string -> string,
    rangeSet: string,
    flannelSet: string,
    labelSet: (string, Label) -> string,
    selectorSet: (string, seq<string>) -> string,
    namespaceLabelSet: Label -> string,
    exceptSet: Group -> string)

  function GroupText(g: Group): string {
    match g.kind
    case PortsGroup => "onlyPorts"
    case PodGroup(pair) => "podSelector" + pair.key + pair.value
    case NamespaceGroup(pair) => "namespaceSelector" + pair.key + pair.value
    case BlockGroup(cidr) => "ipBlock" + cidr
  }

  function BlockText(g: Group): string {
    if g.kind.BlockGroup? then g.kind.cidr else ""
  }

  /** Everything is hashed from its parts, joined without a separator. */
  function Hashed(h: Hash, cfg: Config): Namer {
    Namer(
      (ns: string) => h(ns),
      (ns: string) => h(ns + cfg.ipRange),
      (g: Group) => h(g.ns + g.policy + g.dir.Code() + GroupText(g)),
      (g: Group) => h(g.ns + g.policy + g.dir.Code() + BlockText(g)),
      (ns: string) => h(ns),
      h(cfg.ipRange),
      h(cfg.flannelNet + cfg.flannelLen),
      (ns: string, pair: Label) => LabelHash(h, ns, pair.key, pair.value),
      (ns: string, labels: seq<string>) => XLabelHash(h, ns, labels),
      (pair: Label) => h(pair.key + pair.value),
      (g: Group) => h(g.ns + g.policy + g.dir.Code() + BlockText(g)))
  }

  /** The name of a selector's set depends on its words only, not on their order. */
  ghost predicate OrderFree(nm: Namer) {
    forall ns, a, b {:trigger nm.selectorSet(ns, a), nm.selectorSet(ns, b)} ::
      multiset(a) == multiset(b) ==> nm.selectorSet(ns, a) == nm.selectorSet(ns, b)
  }

  lemma HashedOrderFree(h: Hash, cfg: Config)
    ensures OrderFree(Hashed(h, cfg))
  {
    var nm := Hashed(h, cfg);
    forall ns, a, b | multiset(a) == multiset(b) ensures nm.selectorSet(ns, a) == nm.selectorSet(ns, b) {
      SortCanonical(a, b);
    }
  }

  // ---------- names in full ----------

  function NamespaceChain(nm: Namer, d: Direction, ns: string): Chain {
    if d.Ingress? then NsIn(nm.namespaceChain(ns)) else NsOut(nm.namespaceChain(ns))
  }

  function PlyChain(nm: Namer, d: Direction, ns: string): Chain {
    if d.Ingress? then PlyIn(nm.plyChain(ns)) else PlyOut(nm.plyChain(ns))
  }

  function DispatchOf(nm: Namer, item: Item): Chain
    requires item.Peer?
  {
    Dispatch(nm.dispatchChain(GroupOf(item)))
  }

  function BlockChainOf(nm: Namer, item: Item): Chain
    requires item.Peer?
  {
    IpCidr(nm.blockChain(GroupOf(item)))
  }

  function ExceptOf(nm: Namer, item: Item): SetName
    requires item.Peer?
  {
    ExceptSet(nm.exceptSet(GroupOf(item)))
  }

  function NamespaceSet(nm: Namer, ns: string): SetName { NsSet(nm.namespaceSet(ns)) }

  function IpRangeSet(nm: Namer): SetName { RangeSet(nm.rangeSet) }

  function FlannelNetSet(nm: Namer): SetName { FlannelSet(nm.flannelSet) }

  function LabelSet(nm: Namer, ns: string, pair: Label): SetName { PodSet(nm.labelSet(ns, pair)) }

  function NamespaceLabelSet(nm: Namer, pair: Label): SetName { NsLabelSet(nm.namespaceLabelSet(pair)) }

  function XLabelSet(nm: Namer, ns: string, labels: seq<string>): SetName { PodSet(nm.selectorSet(ns, labels)) }

  /** The set of a selector, as a function of the selector alone. */
  ghost function SelectorSet(nm: Namer, ns: string, m: Selector): SetName {
    XLabelSet(nm, ns, SelectorWords(m))
  }

  /** Whatever order the selector map is ranged over in, its set gets the same name. */
  lemma SelectorSetOrderFree(nm: Namer, ns: string, m: Selector, order: seq<string>)
    requires OrderFree(nm) && Enumerates(order, m.Keys)
    ensures XLabelSet(nm, ns, Flatten(order, m)) == SelectorSet(nm, ns, m)
  {
    FlattenSameWords(order, AnyOrder(m.Keys), m.Keys, m);
  }
}
