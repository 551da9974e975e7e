/** What a compiled table decides about a packet, stated on the clauses of the walk and not on rules. */
module Verdicts {
  import opened Names
  import opened Naming
  import opened Netfilter
  import opened Policies
  import opened Compiler

  // ---------- what a clause matches ----------

  ghost predicate OwnMatch(w: World, nm: Namer, ns: string, selector: Selector, d: Direction, p: Packet) {
    selector == map[] || w.Has(SelectorSet(nm, ns, selector), p.Address(OwnSide(d)))
  }

  ghost predicate FarMatch(w: World, nm: Namer, ns: string, d: Direction, clause: Clause, p: Packet) {
    var far := p.Address(FarSide(d));
    match clause
    case OnlyPorts(_) => true
    case PodPeer(pair, _) => w.Has(LabelSet(nm, ns, pair), far)
    case NamespacePeer(pair, _) => w.Has(NamespaceLabelSet(nm, pair), far)
    case BlockPeer(block, _) => w.inNet(block.cidr, far)
  }

  ghost predicate PortMatch(ports: seq<Port>, p: Packet) {
    exists port :: port in ports && port.protocol == p.protocol && port.port == p.port
  }

  ghost predicate ClauseMatch(w: World, nm: Namer, ns: string, selector: Selector, d: Direction, clause: Clause,
                              p: Packet) {
    && OwnMatch(w, nm, ns, selector, d, p)
    && FarMatch(w, nm, ns, d, clause, p)
    && ((clause.ports == [] && !clause.OnlyPorts?) || PortMatch(clause.ports, p))
  }

  ghost predicate ItemMatch(w: World, nm: Namer, item: Item, p: Packet)
    requires item.Peer?
  {
    ClauseMatch(w, nm, item.ns, item.selector, item.dir, item.clause, p)
  }

  lemma HoldsMore(w: World, a: seq<Match>, b: seq<Match>, p: Packet)
    ensures AllHold(w, a + b, p) <==> AllHold(w, a, p) && AllHold(w, b, p)
  {
    if AllHold(w, a + b, p) {
      forall i | 0 <= i < |a| ensures Holds(w, a[i], p) { assert (a + b)[i] == a[i]; }
      forall i | 0 <= i < |b| ensures Holds(w, b[i], p) { assert (a + b)[|a| + i] == b[i]; }
    }
  }

  ghost predicate SomeHold(w: World, rules: seq<Rule>, p: Packet) {
    exists i :: 0 <= i < |rules| && AllHold(w, rules[i].matches, p)
  }

  lemma SomeLast(w: World, rules: seq<Rule>, last: Rule, p: Packet)
    ensures SomeHold(w, rules + [last], p) <==> SomeHold(w, rules, p) || AllHold(w, last.matches, p)
  {
    SomeConcat(w, rules, [last], p);
    assert AllHold(w, last.matches, p) ==> AllHold(w, [last][0].matches, p);
  }

  lemma SomeConcat(w: World, a: seq<Rule>, b: seq<Rule>, p: Packet)
    ensures SomeHold(w, a + b, p) <==> SomeHold(w, a, p) || SomeHold(w, b, p)
  {
    if SomeHold(w, a, p) {
      var i :| 0 <= i < |a| && AllHold(w, a[i].matches, p);
      assert AllHold(w, (a + b)[i].matches, p);
    }
    if SomeHold(w, b, p) {
      var i :| 0 <= i < |b| && AllHold(w, b[i].matches, p);
      assert AllHold(w, (a + b)[|a| + i].matches, p);
    }
  }

  ghost predicate AllTarget(rules: seq<Rule>, target: Target) {
    forall i :: 0 <= i < |rules| ==> rules[i].target == target
  }

  lemma {:induction false} PortRulesMatch(w: World, base: seq<Match>, ports: seq<Port>, target: Target, p: Packet)
    ensures AllTarget(PortRules(base, ports, target), target)
    ensures SomeHold(w, PortRules(base, ports, target), p) <==> AllHold(w, base, p) && PortMatch(ports, p)
  {
    if ports != [] {
      var n := |ports| - 1;
      var before, last := PortRules(base, ports[..n], target), Rule(base + PortMatches(ports[n]), target);
      PortRulesMatch(w, base, ports[..n], target, p);
      HoldsMore(w, base, PortMatches(ports[n]), p);
      assert AllHold(w, PortMatches(ports[n]), p) <==> ports[n].protocol == p.protocol && ports[n].port == p.port by {
        assert PortMatches(ports[n])[0].MatchProtocol? && PortMatches(ports[n])[1].MatchPort?;
      }
      assert ports == ports[..n] + [ports[n]];
      SomeLast(w, before, last, p);
    }
  }

  lemma ClauseRulesMatch(w: World, base: seq<Match>, clause: Clause, target: Target, p: Packet)
    ensures AllTarget(ClauseRules(base, clause, target), target)
    ensures SomeHold(w, ClauseRules(base, clause, target), p)
       <==> AllHold(w, base, p) && ((clause.ports == [] && !clause.OnlyPorts?) || PortMatch(clause.ports, p))
  {
    PortRulesMatch(w, base, clause.ports, target, p);
    SomeLast(w, [], Rule(base, target), p);
    assert [] + [Rule(base, target)] == [Rule(base, target)];
  }

  /** The rules of a clause match exactly the packets of the clause, and all do the same. */
  lemma PeerRulesMatch(w: World, nm: Namer, item: Item, p: Packet)
    requires item.Peer?
    ensures AllTarget(PeerRules(nm, item), TargetOf(nm, item))
    ensures SomeHold(w, PeerRules(nm, item), p) <==> ItemMatch(w, nm, item, p)
  {
    var own, far := OwnMatches(nm, item.ns, item.selector, item.dir), FarMatches(nm, item.ns, item.dir, item.clause);
    HoldsMore(w, own, far, p);
    OwnHolds(w, nm, item.ns, item.selector, item.dir, p);
    FarHolds(w, nm, item.ns, item.dir, item.clause, p);
    ClauseRulesMatch(w, own + far, item.clause, TargetOf(nm, item), p);
  }

  lemma OwnHolds(w: World, nm: Namer, ns: string, selector: Selector, d: Direction, p: Packet)
    ensures AllHold(w, OwnMatches(nm, ns, selector, d), p) <==> OwnMatch(w, nm, ns, selector, d, p)
  {
    if selector != map[] {
      assert AllHold(w, OwnMatches(nm, ns, selector, d), p) <==> Holds(w, OwnMatches(nm, ns, selector, d)[0], p);
    }
  }

  lemma FarHolds(w: World, nm: Namer, ns: string, d: Direction, clause: Clause, p: Packet)
    ensures AllHold(w, FarMatches(nm, ns, d, clause), p) <==> FarMatch(w, nm, ns, d, clause, p)
  {
    if !clause.OnlyPorts? {
      assert AllHold(w, FarMatches(nm, ns, d, clause), p) <==> Holds(w, FarMatches(nm, ns, d, clause)[0], p);
    }
  }

  // ---------- dispatch chains: clauses that share one ----------

  /** Names in use do not clash: equal names are given only to things that are meant to share them. */
  ghost predicate Clear(nm: Namer, cfg: Config, a: Item, b: Item) {
    && (!a.Begin? && !b.Begin? && a.dir == b.dir ==>
        && (NamespaceChain(nm, a.dir, a.ns) == NamespaceChain(nm, b.dir, b.ns) ==> a.ns == b.ns)
        && (PlyChain(nm, a.dir, a.ns) == PlyChain(nm, b.dir, b.ns) ==> a.ns == b.ns))
    && (a.Peer? && b.Peer? ==>
        && (DispatchOf(nm, a) == DispatchOf(nm, b) ==> GroupOf(a) == GroupOf(b))
        && (a.clause.BlockPeer? && b.clause.BlockPeer? && BlockChainOf(nm, a) == BlockChainOf(nm, b)
            ==> GroupOf(a) == GroupOf(b)))
  }

  ghost predicate NoClash(nm: Namer, cfg: Config, items: seq<Item>) {
    forall i, j :: 0 <= i < |items| && 0 <= j < |items| ==> Clear(nm, cfg, items[i], items[j])
  }

  ghost predicate ClearWith(nm: Namer, cfg: Config, items: seq<Item>, item: Item) {
    forall j :: 0 <= j < |items| ==> Clear(nm, cfg, items[j], item)
  }

  ghost predicate GroupMatch(w: World, nm: Namer, items: seq<Item>, g: Group, p: Packet) {
    exists j :: 0 <= j < |items| && items[j].Peer? && GroupOf(items[j]) == g && ItemMatch(w, nm, items[j], p)
  }

  lemma GroupMatchLast(w: World, nm: Namer, items: seq<Item>, g: Group, p: Packet)
    requires items != []
    ensures var n := |items| - 1;
            (GroupMatch(w, nm, items, g, p)
             <==> GroupMatch(w, nm, items[..n], g, p)
                  || (items[n].Peer? && GroupOf(items[n]) == g && ItemMatch(w, nm, items[n], p)))
  {
    var n := |items| - 1;
    if GroupMatch(w, nm, items[..n], g, p) {
      var j :| 0 <= j < n && items[..n][j].Peer? && GroupOf(items[..n][j]) == g && ItemMatch(w, nm, items[..n][j], p);
      assert items[j].Peer? && GroupOf(items[j]) == g && ItemMatch(w, nm, items[j], p);
    }
    if GroupMatch(w, nm, items, g, p) {
      var j :| 0 <= j < |items| && items[j].Peer? && GroupOf(items[j]) == g && ItemMatch(w, nm, items[j], p);
      if j < n {
        assert items[..n][j].Peer? && GroupOf(items[..n][j]) == g && ItemMatch(w, nm, items[..n][j], p);
      }
    }
  }

  /** What one item adds to a dispatch chain. */
  lemma OnDispatch(nm: Namer, cfg: Config, item: Item, active: set<Chain>, c: Chain)
    requires c.Dispatch?
    ensures RulesOn(Parts(nm, cfg, item, active), c) == if item.Peer? && DispatchOf(nm, item) == c
                then PeerRules(nm, item) else []
  {
    match item
    case Begin(_, _, _) =>
    case Enter(ns, d) => EnterRules(nm, cfg, ns, d, active, c);
    case Peer(_, _, _, _, _) => PeerRulesOn(nm, cfg, item, active, c);
  }

  /** Rules that all do the same, some of which match exactly when a condition holds. */
  ghost predicate Matching(w: World, rules: seq<Rule>, target: Target, p: Packet, condition: bool) {
    AllTarget(rules, target) && (SomeHold(w, rules, p) <==> condition)
  }

  lemma MatchingMore(w: World, rules: seq<Rule>, more: seq<Rule>, target: Target, p: Packet, a: bool, b: bool)
    requires Matching(w, rules, target, p, a) && Matching(w, more, target, p, b)
    ensures Matching(w, rules + more, target, p, a || b)
  {
    SomeConcat(w, rules, more, p);
  }

  lemma MatchingNothing(w: World, target: Target, p: Packet)
    ensures Matching(w, [], target, p, false)
  {}

  lemma AnotherClause(w: World, nm: Namer, cfg: Config, other: Item, active: set<Chain>, item: Item, p: Packet)
    requires item.Peer? && Clear(nm, cfg, other, item)
    ensures Matching(w, RulesOn(Parts(nm, cfg, other, active), DispatchOf(nm, item)), TargetOf(nm, item), p,
                     other.Peer? && GroupOf(other) == GroupOf(item) && ItemMatch(w, nm, other, p))
  {
    OnDispatch(nm, cfg, other, active, DispatchOf(nm, item));
    if other.Peer? && DispatchOf(nm, other) == DispatchOf(nm, item) {
      PeerRulesMatch(w, nm, other, p);
    } else {
      MatchingNothing(w, TargetOf(nm, item), p);
    }
  }

  /** A dispatch chain holds the rules of its group and nothing else. */
  lemma {:induction false} DispatchContent(w: World, nm: Namer, cfg: Config, items: seq<Item>, item: Item, p: Packet)
    requires item.Peer? && ClearWith(nm, cfg, items, item)
    ensures Matching(w, Content(nm, cfg, items, DispatchOf(nm, item)), TargetOf(nm, item), p,
                GroupMatch(w, nm, items, GroupOf(item), p))
  {
    if items == [] {
      MatchingNothing(w, TargetOf(nm, item), p);
    } else {
      var n := |items| - 1;
      var c, active := DispatchOf(nm, item), Active(nm, cfg, items[..n]);
      DispatchContent(w, nm, cfg, items[..n], item, p);
      AnotherClause(w, nm, cfg, items[n], active, item, p);
      MatchingMore(w, Content(nm, cfg, items[..n], c), RulesOn(Parts(nm, cfg, items[n], active), c),
          TargetOf(nm, item), p,
                   GroupMatch(w, nm, items[..n], GroupOf(item), p), items[n].Peer?
                       && GroupOf(items[n]) == GroupOf(item) && ItemMatch(w, nm, items[n], p));
      GroupMatchLast(w, nm, items, GroupOf(item), p);
    }
  }

  lemma OnBlock(nm: Namer, cfg: Config, item: Item, active: set<Chain>, c: Chain)
    requires c.IpCidr?
    ensures RulesOn(Parts(nm, cfg, item, active), c)
         == if item.Peer? && item.clause.BlockPeer? && BlockChainOf(nm, item) == c
             then BlockRules(ExceptOf(nm, item), item.dir) else []
  {
    match item
    case Begin(_, _, _) =>
    case Enter(ns, d) => EnterRules(nm, cfg, ns, d, active, c);
    case Peer(_, _, _, _, _) => PeerRulesOn(nm, cfg, item, active, c);
  }

  ghost predicate StartsWith(rules: seq<Rule>, except: SetName, d: Direction) {
    |rules| >= 2 && rules[..2] == BlockRules(except, d)
  }

  lemma StartsWithMore(rules: seq<Rule>, more: seq<Rule>, except: SetName, d: Direction)
    requires rules == [] || StartsWith(rules, except, d)
    requires more == [] || more == BlockRules(except, d)
    ensures rules + more == [] || StartsWith(rules + more, except, d)
    ensures rules != [] || more != [] ==> rules + more != []
  {
    if rules != [] {
      assert (rules + more)[..2] == rules[..2];
    } else if more != [] {
      assert (rules + more)[..2] == more;
    }
  }

  lemma AnotherBlock(nm: Namer, cfg: Config, other: Item, active: set<Chain>, item: Item)
    requires item.Peer? && item.clause.BlockPeer? && Clear(nm, cfg, other, item)
    ensures var more := RulesOn(Parts(nm, cfg, other, active), BlockChainOf(nm, item));
            && (more == [] || more == BlockRules(ExceptOf(nm, item), item.dir))
            && (other == item ==> more != [])
  {
    OnBlock(nm, cfg, other, active, BlockChainOf(nm, item));
  }

  lemma BlockContentStep(nm: Namer, cfg: Config, items: seq<Item>, item: Item)
    requires items != [] && item.Peer? && item.clause.BlockPeer? && Clear(nm, cfg, items[|items| - 1], item)
    requires var rules := Content(nm, cfg, items[..|items| - 1], BlockChainOf(nm, item));
             rules == [] || StartsWith(rules, ExceptOf(nm, item), item.dir)
    ensures var rules := Content(nm, cfg, items, BlockChainOf(nm, item));
            && (rules == [] || StartsWith(rules, ExceptOf(nm, item), item.dir))
            && (items[|items| - 1] == item || Content(nm, cfg, items[..|items| - 1], BlockChainOf(nm, item)) != []
                ==> rules != [])
  {
    var n := |items| - 1;
    var active, c := Active(nm, cfg, items[..n]), BlockChainOf(nm, item);
    AnotherBlock(nm, cfg, items[n], active, item);
    StartsWithMore(Content(nm, cfg, items[..n], c), RulesOn(Parts(nm, cfg, items[n], active), c), ExceptOf(nm, item),
        item.dir);
  }

  /** A block chain holds its two rules, once or more; they come first. */
  lemma {:induction false} BlockContent(nm: Namer, cfg: Config, items: seq<Item>, item: Item)
    requires item.Peer? && item.clause.BlockPeer? && ClearWith(nm, cfg, items, item)
    ensures var rules := Content(nm, cfg, items, BlockChainOf(nm, item));
            && (rules == [] || StartsWith(rules, ExceptOf(nm, item), item.dir))
            && (item in items ==> rules != [])
  {
    if items != [] {
      var n := |items| - 1;
      assert items == items[..n] + [items[n]];
      BlockContent(nm, cfg, items[..n], item);
      BlockContentStep(nm, cfg, items, item);
    }
  }

  /** The table holds the finished contents of every chain of the walk. */
  ghost predicate Compiled(nm: Namer, cfg: Config, items: seq<Item>, t: Table) {
    forall c :: c in Active(nm, cfg, items) ==> c in t && t[c] == Finished(nm, cfg, items, c)
  }

  ghost function BlockVerdict(w: World, except: SetName, d: Direction, p: Packet): Verdict {
    if w.Has(except, p.Address(FarSide(d))) then Rejected else Accepted
  }

  lemma EvalBlock(w: World, t: Table, rules: seq<Rule>, except: SetName, d: Direction, p: Packet)
    requires StartsWith(rules, except, d)
    ensures EvalRules(w, t, 0, rules, p) == BlockVerdict(w, except, d, p)
  {
    var reject := BlockRules(except, d)[0];
    assert rules[0] == rules[..2][0] == reject && rules[1] == rules[..2][1];
    assert AllHold(w, reject.matches, p) <==> Holds(w, reject.matches[0], p);
    assert EvalRule(w, t, 0, reject, p) == if w.Has(except, p.Address(FarSide(d))) then Rejected else Pass;
    assert rules[1..][0] == rules[1];
    assert EvalRule(w, t, 0, rules[1], p) == Accepted;
  }

  /** What a group decides: nothing unless one of its clauses matches; a block then looks at its except set. */
  ghost function GroupVerdict(w: World, nm: Namer, items: seq<Item>, item: Item, p: Packet): Verdict
    requires item.Peer?
  {
    if !GroupMatch(w, nm, items, GroupOf(item), p) then Pass
    else if item.clause.BlockPeer? then BlockVerdict(w, ExceptOf(nm, item), item.dir, p)
    else Accepted
  }

  lemma {:induction false} ChainsOfItem(nm: Namer, cfg: Config, items: seq<Item>, item: Item)
    requires item in items
    ensures forall c :: c in ItemChains(nm, cfg, item) ==> c in Chains(nm, cfg, items)
  {
    var n := |items| - 1;
    assert items == items[..n] + [items[n]];
    if item != items[n] {
      ChainsOfItem(nm, cfg, items[..n], item);
    }
  }

  lemma CompiledItem(nm: Namer, cfg: Config, items: seq<Item>, t: Table, item: Item, c: Chain)
    requires item in items && Compiled(nm, cfg, items, t) && c in ItemChains(nm, cfg, item)
    ensures c in t && t[c] == Finished(nm, cfg, items, c)
  {
    ChainsOfItem(nm, cfg, items, item);
    assert c in Active(nm, cfg, items);
  }

  /** The chain of a block, as the table holds it. */
  lemma CompiledBlock(nm: Namer, cfg: Config, items: seq<Item>, t: Table, item: Item)
    requires item.Peer? && item.clause.BlockPeer? && item in items && ClearWith(nm, cfg, items, item)
             && Compiled(nm, cfg, items, t)
    ensures var b := BlockChainOf(nm, item); b in t && StartsWith(t[b], ExceptOf(nm, item), item.dir)
  {
    var b := BlockChainOf(nm, item);
    assert ItemChains(nm, cfg, item)[1] == b;
    CompiledItem(nm, cfg, items, t, item, b);
    BlockContent(nm, cfg, items, item);
  }

  lemma TargetVerdict(w: World, nm: Namer, cfg: Config, items: seq<Item>, t: Table, item: Item, p: Packet)
    requires item.Peer? && item in items && ClearWith(nm, cfg, items, item) && Compiled(nm, cfg, items, t)
    ensures EvalRule(w, t, 1, Rule([], TargetOf(nm, item)), p)
         == if item.clause.BlockPeer? then BlockVerdict(w, ExceptOf(nm, item), item.dir, p) else Accepted
  {
    if item.clause.BlockPeer? {
      var b := BlockChainOf(nm, item);
      CompiledBlock(nm, cfg, items, t, item);
      EvalBlock(w, t, t[b], ExceptOf(nm, item), item.dir, p);
      assert Rank(b) == 0 && TargetOf(nm, item) == Jump(b);
    }
  }

  lemma CompiledDispatch(w: World, nm: Namer, cfg: Config, items: seq<Item>, t: Table, item: Item, p: Packet)
    requires item.Peer? && item in items && ClearWith(nm, cfg, items, item) && Compiled(nm, cfg, items, t)
    ensures var c := DispatchOf(nm, item); c in t && Matching(w, t[c], TargetOf(nm, item), p,
                GroupMatch(w, nm, items, GroupOf(item), p))
  {
    assert ItemChains(nm, cfg, item)[0] == DispatchOf(nm, item);
    CompiledItem(nm, cfg, items, t, item, DispatchOf(nm, item));
    DispatchContent(w, nm, cfg, items, item, p);
  }

  lemma DispatchVerdict(w: World, nm: Namer, cfg: Config, items: seq<Item>, t: Table, item: Item, p: Packet)
    requires item.Peer? && item in items && ClearWith(nm, cfg, items, item) && Compiled(nm, cfg, items, t)
    ensures EvalRule(w, t, 2, Rule([], Jump(DispatchOf(nm, item))), p) == GroupVerdict(w, nm, items, item, p)
  {
    var c := DispatchOf(nm, item);
    CompiledDispatch(w, nm, cfg, items, t, item, p);
    EvalUniform(w, t, 1, t[c], TargetOf(nm, item), p);
    TargetVerdict(w, nm, cfg, items, t, item, p);
  }

  // ---------- policy chains ----------

  ghost predicate Belongs(item: Item, ns: string, d: Direction) {
    item.Peer? && item.ns == ns && item.dir == d
  }

  /** The verdicts of the groups in the order of their jumps; the first that decides counts. */
  ghost function FirstVerdict(w: World, nm: Namer, items: seq<Item>, walked: seq<Item>, ns: string, d: Direction,
                              p: Packet): Verdict {
    if walked == [] then Pass
    else
      var n := |walked| - 1;
      var before := FirstVerdict(w, nm, items, walked[..n], ns, d, p);
      if before != Pass then before
      else if Belongs(walked[n], ns, d) then GroupVerdict(w, nm, items, walked[n], p)
      else Pass
  }

  lemma OnPly(nm: Namer, cfg: Config, item: Item, active: set<Chain>, c: Chain)
    requires Ply(c)
    ensures RulesOn(Parts(nm, cfg, item, active), c)
         == if item.Peer? && PlyChain(nm, item.dir, item.ns) == c then [Rule([], Jump(DispatchOf(nm, item)))] else []
  {
    match item
    case Begin(_, _, _) =>
    case Enter(ns, d) => EnterRules(nm, cfg, ns, d, active, c);
    case Peer(_, _, _, _, _) => PeerRulesOn(nm, cfg, item, active, c);
  }

  lemma {:induction false} PlyContentVerdict(w: World, nm: Namer, cfg: Config, items: seq<Item>, walked: seq<Item>,
                                             t: Table, ns: string, d: Direction, p: Packet)
    requires NoClash(nm, cfg, items) && Compiled(nm, cfg, items, t)
    requires Enter(ns, d) in items && walked <= items
    ensures EvalRules(w, t, 2, Content(nm, cfg, walked, PlyChain(nm, d, ns)), p)
         == FirstVerdict(w, nm, items, walked, ns, d, p)
  {
    if walked != [] {
      var n := |walked| - 1;
      var last, c := walked[n], PlyChain(nm, d, ns);
      assert last == items[n];
      PlyContentVerdict(w, nm, cfg, items, walked[..n], t, ns, d, p);
      var added := RulesOn(Parts(nm, cfg, last, Active(nm, cfg, walked[..n])), c);
      OnPly(nm, cfg, last, Active(nm, cfg, walked[..n]), c);
      EvalConcat(w, t, 2, Content(nm, cfg, walked[..n], c), added, p);
      var e :| 0 <= e < |items| && items[e] == Enter(ns, d);
      assert Clear(nm, cfg, items[n], items[e]);
      if Belongs(last, ns, d) {
        assert ClearWith(nm, cfg, items, last);
        DispatchVerdict(w, nm, cfg, items, t, last, p);
        EvalOne(w, t, 2, Rule([], Jump(DispatchOf(nm, last))), p);
      } else {
        assert added == [];
      }
    }
  }

  /** A policy chain: established connections pass, then the groups in order, then rejection. */
  ghost function PolicyVerdict(w: World, nm: Namer, items: seq<Item>, ns: string, d: Direction, p: Packet): Verdict {
    if p.established then Accepted
    else
      var v := FirstVerdict(w, nm, items, items, ns, d, p);
      if v == Pass then Rejected else v
  }

  lemma FrameVerdict(w: World, t: Table, rules: seq<Rule>, p: Packet)
    ensures EvalRules(w, t, 2, [CONNTRACK] + rules + [DEFAULT], p)
         == if p.established then Accepted
            else if EvalRules(w, t, 2, rules, p) == Pass then Rejected
            else EvalRules(w, t, 2, rules, p)
  {
    EvalConcat(w, t, 2, [CONNTRACK] + rules, [DEFAULT], p);
    EvalConcat(w, t, 2, [CONNTRACK], rules, p);
    EvalOne(w, t, 2, CONNTRACK, p);
    EvalOne(w, t, 2, DEFAULT, p);
    assert AllHold(w, CONNTRACK.matches, p) <==> Holds(w, CONNTRACK.matches[0], p);
  }

  lemma PlyVerdict(w: World, nm: Namer, cfg: Config, items: seq<Item>, t: Table, ns: string, d: Direction, p: Packet)
    requires NoClash(nm, cfg, items) && Compiled(nm, cfg, items, t) && Enter(ns, d) in items
    ensures PlyChain(nm, d, ns) in t
    ensures Eval(w, t, PlyChain(nm, d, ns), p) == PolicyVerdict(w, nm, items, ns, d, p)
  {
    var c := PlyChain(nm, d, ns);
    assert ItemChains(nm, cfg, Enter(ns, d))[1] == c;
    CompiledItem(nm, cfg, items, t, Enter(ns, d), c);
    PlyContentVerdict(w, nm, cfg, items, items, t, ns, d, p);
    FrameVerdict(w, t, Content(nm, cfg, items, c), p);
  }
}
