/** When two generated names are the same, whatever the hash; and what a good hash and distinct texts give. */
module Hashing {
  import opened Names
  import opened Naming
  import opened Policies
  import opened StringOrder
  import opened Verdicts
  import opened Runs

  /** A hash that does not tell two texts apart for every choice of hash has got one text twice. */
  lemma OneText(x: string, y: string)
    ensures (forall h: Hash :: h(x) == h(y)) <==> x == y
  {
    if x != y {
      var h: Hash := (s: string) => s;
      assert h(x) != h(y);
    }
  }

  lemma SameTail(x: string, y: string, tail: string)
    ensures x + tail == y + tail <==> x == y
  {
    if x + tail == y + tail {
      assert |x| == |y| && (x + tail)[..|x|] == x && (y + tail)[..|y|] == y;
    }
  }

  /** The constants of the two directions. */
  function Digit(d: Direction): string { if d.Ingress? then "1" else "2" }

  // ---------- chains ----------

  lemma NamespaceChainText(h: Hash, cfg: Config, d: Direction, ns: string)
    ensures NamespaceChain(Hashed(h, cfg), d, ns) == if d.Ingress? then NsIn(h(ns)) else NsOut(h(ns))
    ensures PlyChain(Hashed(h, cfg), d, ns)
         == if d.Ingress? then PlyIn(h(ns + cfg.ipRange)) else PlyOut(h(ns + cfg.ipRange))
  {}

  /** A namespace has its chains for itself. */
  lemma NamespaceChainsShare(cfg: Config, d: Direction, a: string, b: string)
    ensures (forall h: Hash :: NamespaceChain(Hashed(h, cfg), d, a) == NamespaceChain(Hashed(h, cfg), d, b)) <==> a == b
    ensures (forall h: Hash :: PlyChain(Hashed(h, cfg), d, a) == PlyChain(Hashed(h, cfg), d, b)) <==> a == b
  {
    if a != b {
      var h: Hash := (s: string) => s;
      SameTail(a, b, cfg.ipRange);
      NamespaceChainText(h, cfg, d, a);
      NamespaceChainText(h, cfg, d, b);
      assert NamespaceChain(Hashed(h, cfg), d, a) != NamespaceChain(Hashed(h, cfg), d, b);
      assert PlyChain(Hashed(h, cfg), d, a) != PlyChain(Hashed(h, cfg), d, b);
    }
  }

  /** What the name of a dispatch chain is made of. */
  function DispatchText(g: Group): string {
    g.ns + g.policy + Digit(g.dir)
    + match g.kind
      case PortsGroup => "onlyPorts"
      case PodGroup(pair) => "podSelector" + pair.key + pair.value
      case NamespaceGroup(pair) => "namespaceSelector" + pair.key + pair.value
      case BlockGroup(cidr) => "ipBlock" + cidr
  }

  lemma GroupNameText(h: Hash, cfg: Config, item: Item)
    requires item.Peer?
    ensures DispatchOf(Hashed(h, cfg), item) == Dispatch(h(DispatchText(GroupOf(item))))
    ensures BlockChainOf(Hashed(h, cfg), item) == IpCidr(h(BlockNameText(GroupOf(item))))
    ensures ExceptOf(Hashed(h, cfg), item) == ExceptSet(h(BlockNameText(GroupOf(item))))
  {
    var g := GroupOf(item);
    assert DispatchText(g) == g.ns + g.policy + g.dir.Code() + GroupText(g);
    assert BlockNameText(g) == g.ns + g.policy + g.dir.Code() + BlockText(g);
  }

  lemma DispatchChainsShare(cfg: Config, a: Item, b: Item)
    requires a.Peer? && b.Peer?
    ensures (forall h: Hash :: DispatchOf(Hashed(h, cfg), a) == DispatchOf(Hashed(h, cfg), b))
            <==> DispatchText(GroupOf(a)) == DispatchText(GroupOf(b))
  {
    if DispatchText(GroupOf(a)) == DispatchText(GroupOf(b)) {
      forall h: Hash ensures DispatchOf(Hashed(h, cfg), a) == DispatchOf(Hashed(h, cfg), b) {
        GroupNameText(h, cfg, a);
        GroupNameText(h, cfg, b);
      }
    } else {
      var h: Hash := (s: string) => s;
      GroupNameText(h, cfg, a);
      GroupNameText(h, cfg, b);
      assert DispatchOf(Hashed(h, cfg), a) != DispatchOf(Hashed(h, cfg), b);
    }
  }

  /** What the chain and the except set of a block are named after. */
  function BlockNameText(g: Group): string {
    g.ns + g.policy + Digit(g.dir) + if g.kind.BlockGroup? then g.kind.cidr else ""
  }

  /** Blocks share their chain and their except set exactly when these run together to the same text. */
  lemma BlocksShare(cfg: Config, a: Item, b: Item)
    requires a.Peer? && b.Peer? && a.clause.BlockPeer? && b.clause.BlockPeer?
    ensures var same := a.ns + a.policy + Digit(a.dir) + a.clause.block.cidr
                            == b.ns + b.policy + Digit(b.dir) + b.clause.block.cidr;
            && ((forall h: Hash :: BlockChainOf(Hashed(h, cfg), a) == BlockChainOf(Hashed(h, cfg), b)) <==> same)
            && ((forall h: Hash :: ExceptOf(Hashed(h, cfg), a) == ExceptOf(Hashed(h, cfg), b)) <==> same)
  {
    var x, y := BlockNameText(GroupOf(a)), BlockNameText(GroupOf(b));
    assert x == a.ns + a.policy + Digit(a.dir) + a.clause.block.cidr;
    assert y == b.ns + b.policy + Digit(b.dir) + b.clause.block.cidr;
    if x == y {
      forall h: Hash
        ensures BlockChainOf(Hashed(h, cfg), a) == BlockChainOf(Hashed(h, cfg), b)
        ensures ExceptOf(Hashed(h, cfg), a) == ExceptOf(Hashed(h, cfg), b)
      {
        GroupNameText(h, cfg, a);
        GroupNameText(h, cfg, b);
      }
    } else {
      var h: Hash := (s: string) => s;
      GroupNameText(h, cfg, a);
      GroupNameText(h, cfg, b);
      assert BlockChainOf(Hashed(h, cfg), a) != BlockChainOf(Hashed(h, cfg), b);
      assert ExceptOf(Hashed(h, cfg), a) != ExceptOf(Hashed(h, cfg), b);
    }
  }

  // ---------- sets ----------

  lemma NamespaceSetsShare(cfg: Config, a: string, b: string)
    ensures (forall h: Hash :: NamespaceSet(Hashed(h, cfg), a) == NamespaceSet(Hashed(h, cfg), b)) <==> a == b
  {
    OneText(a, b);
    forall h: Hash ensures NamespaceSet(Hashed(h, cfg), a) == NamespaceSet(Hashed(h, cfg), b) <==> h(a) == h(b) {}
  }

  /** The namespace is part of the name: labels of different namespaces share a set only by running together. */
  lemma LabelSetsShare(cfg: Config, ns: string, pair: Label, ns': string, pair': Label)
    ensures (forall h: Hash :: LabelSet(Hashed(h, cfg), ns, pair) == LabelSet(Hashed(h, cfg), ns', pair'))
            <==> ns + "pod" + pair.key + pair.value == ns' + "pod" + pair'.key + pair'.value
  {
    var x, y := ns + "pod" + pair.key + pair.value, ns' + "pod" + pair'.key + pair'.value;
    OneText(x, y);
    forall h: Hash
      ensures LabelSet(Hashed(h, cfg), ns, pair) == LabelSet(Hashed(h, cfg), ns', pair') <==> h(x) == h(y)
    {}
  }

  lemma SelectorSetsShare(cfg: Config, ns: string, a: seq<string>, ns': string, b: seq<string>)
    ensures (forall h: Hash :: XLabelSet(Hashed(h, cfg), ns, a) == XLabelSet(Hashed(h, cfg), ns', b))
            <==> ns + "pod" + Concat(Sort(a)) == ns' + "pod" + Concat(Sort(b))
  {
    var x, y := ns + "pod" + Concat(Sort(a)), ns' + "pod" + Concat(Sort(b));
    OneText(x, y);
    forall h: Hash ensures XLabelSet(Hashed(h, cfg), ns, a) == XLabelSet(Hashed(h, cfg), ns', b) <==> h(x) == h(y) {}
  }

  lemma NamespaceLabelSetsShare(cfg: Config, a: Label, b: Label)
    ensures (forall h: Hash :: NamespaceLabelSet(Hashed(h, cfg), a) == NamespaceLabelSet(Hashed(h, cfg), b))
            <==> a.key + a.value == b.key + b.value
  {
    OneText(a.key + a.value, b.key + b.value);
    forall h: Hash
      ensures NamespaceLabelSet(Hashed(h, cfg), a) == NamespaceLabelSet(Hashed(h, cfg), b)
              <==> h(a.key + a.value) == h(b.key + b.value)
    {}
  }

  /** The two sets of the configuration are named after it. */
  lemma ConfigSetsShare(cfg: Config, cfg': Config)
    ensures (forall h: Hash :: IpRangeSet(Hashed(h, cfg)) == IpRangeSet(Hashed(h, cfg')))
            <==> cfg.ipRange == cfg'.ipRange
    ensures (forall h: Hash :: FlannelNetSet(Hashed(h, cfg)) == FlannelNetSet(Hashed(h, cfg')))
            <==> cfg.flannelNet + cfg.flannelLen == cfg'.flannelNet + cfg'.flannelLen
  {
    OneText(cfg.ipRange, cfg'.ipRange);
    OneText(cfg.flannelNet + cfg.flannelLen, cfg'.flannelNet + cfg'.flannelLen);
    forall h: Hash
      ensures IpRangeSet(Hashed(h, cfg)) == IpRangeSet(Hashed(h, cfg')) <==> h(cfg.ipRange) == h(cfg'.ipRange)
      ensures FlannelNetSet(Hashed(h, cfg)) == FlannelNetSet(Hashed(h, cfg'))
              <==> h(cfg.flannelNet + cfg.flannelLen) == h(cfg'.flannelNet + cfg'.flannelLen)
    {}
  }

  // ---------- a hash that separates the texts in use ----------

  ghost predicate Separates(h: Hash, x: string, y: string) { h(x) == h(y) ==> x == y }

  /** The hash separates the texts that chains of these two items are named after. */
  ghost predicate SeparatesItems(h: Hash, cfg: Config, a: Item, b: Item) {
    && Separates(h, a.ns, b.ns) && Separates(h, a.ns + cfg.ipRange, b.ns + cfg.ipRange)
    && (a.Peer? && b.Peer?
        ==> Separates(h, DispatchText(GroupOf(a)), DispatchText(GroupOf(b)))
            && Separates(h, BlockNameText(GroupOf(a)), BlockNameText(GroupOf(b))))
  }

  /** Different groups have different texts. */
  ghost predicate TextsDiffer(a: Item, b: Item) {
    a.Peer? && b.Peer? ==>
      && (DispatchText(GroupOf(a)) == DispatchText(GroupOf(b)) ==> GroupOf(a) == GroupOf(b))
      && (a.clause.BlockPeer? && b.clause.BlockPeer? && BlockNameText(GroupOf(a)) == BlockNameText(GroupOf(b))
          ==> GroupOf(a) == GroupOf(b))
  }

  lemma ClearExactly(h: Hash, cfg: Config, a: Item, b: Item)
    requires SeparatesItems(h, cfg, a, b)
    ensures Clear(Hashed(h, cfg), cfg, a, b) <==> TextsDiffer(a, b)
  {
    if !a.Begin? && !b.Begin? && a.dir == b.dir {
      SameTail(a.ns, b.ns, cfg.ipRange);
      NamespaceChainText(h, cfg, a.dir, a.ns);
      NamespaceChainText(h, cfg, b.dir, b.ns);
    }
    if a.Peer? && b.Peer? {
      GroupNameText(h, cfg, a);
      GroupNameText(h, cfg, b);
    }
  }

  /**
   * With a hash that separates the texts in use, names do not clash exactly when different dispatch
   * groups, and different blocks, never run together to the same text; and then except sets are
   * shared within a group only.
   */
  lemma HashedNoClash(h: Hash, cfg: Config, items: seq<Item>)
    requires forall a, b :: a in items && b in items ==> SeparatesItems(h, cfg, a, b)
    ensures NoClash(Hashed(h, cfg), cfg, items) <==> forall a, b :: a in items && b in items ==> TextsDiffer(a, b)
    ensures NoClash(Hashed(h, cfg), cfg, items) ==> ExceptNamesClear(Hashed(h, cfg), items)
  {
    forall a, b | a in items && b in items ensures Clear(Hashed(h, cfg), cfg, a, b) <==> TextsDiffer(a, b) {
      ClearExactly(h, cfg, a, b);
    }
    if NoClash(Hashed(h, cfg), cfg, items) {
      forall a, b | a in items && b in items ensures TextsDiffer(a, b) {
        var i :| 0 <= i < |items| && items[i] == a;
        var j :| 0 <= j < |items| && items[j] == b;
        assert Clear(Hashed(h, cfg), cfg, items[i], items[j]);
      }
      forall a, b | a in items && b in items && a.Peer? && b.Peer? && a.clause.BlockPeer? && b.clause.BlockPeer?
          && ExceptOf(Hashed(h, cfg), a) == ExceptOf(Hashed(h, cfg), b)
        ensures GroupOf(a) == GroupOf(b)
      {
        assert SeparatesItems(h, cfg, a, b) && TextsDiffer(a, b);
        GroupNameText(h, cfg, a);
        GroupNameText(h, cfg, b);
      }
    }
  }
}
