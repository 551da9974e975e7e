/** From policy chains up: namespace chains, the entry chains, and the verdict on whole packets. */
module Entries {
  import opened Names
  import opened Naming
  import opened Netfilter
  import opened Policies
  import opened Compiler
  import opened Verdicts

  // ---------- namespace chains ----------

  lemma {:induction false} ActiveByEnter(nm: Namer, cfg: Config, items: seq<Item>, ns: string, d: Direction)
    requires ClearWith(nm, cfg, items, Enter(ns, d))
    ensures NamespaceChain(nm, d, ns) in Active(nm, cfg, items) <==> Enter(ns, d) in items
    ensures PlyChain(nm, d, ns) in Active(nm, cfg, items) <==> Enter(ns, d) in items
  {
    if items != [] {
      var n := |items| - 1;
      ActiveByEnter(nm, cfg, items[..n], ns, d);
      assert items == items[..n] + [items[n]];
      assert Clear(nm, cfg, items[n], Enter(ns, d));
      assert forall c ::
               c in Active(nm, cfg, items) <==> c in Active(nm, cfg, items[..n]) || c in ItemChains(nm, cfg, items[n]);
    }
  }

  ghost function NamespaceRules(nm: Namer, cfg: Config, d: Direction, ns: string): seq<Rule> {
    FlannelRules(nm, cfg, d) + RangeRules(nm, cfg, d, ns)
  }

  lemma OnNamespace(nm: Namer, cfg: Config, item: Item, active: set<Chain>, ns: string, d: Direction)
    requires Clear(nm, cfg, item, Enter(ns, d))
    ensures RulesOn(Parts(nm, cfg, item, active), NamespaceChain(nm, d, ns))
         == if item == Enter(ns, d) && PlyChain(nm, d, ns) !in active then NamespaceRules(nm, cfg, d, ns) else []
  {
    match item
    case Begin(_, _, _) =>
    case Enter(ns', d') => EnterRules(nm, cfg, ns', d', active, NamespaceChain(nm, d, ns));
    case Peer(_, _, _, _, _) => PeerRulesOn(nm, cfg, item, active, NamespaceChain(nm, d, ns));
  }

  lemma AddedToNamespace(nm: Namer, cfg: Config, before: seq<Item>, item: Item, ns: string, d: Direction)
    requires ClearWith(nm, cfg, before, Enter(ns, d)) && Clear(nm, cfg, item, Enter(ns, d))
    ensures RulesOn(Parts(nm, cfg, item, Active(nm, cfg, before)), NamespaceChain(nm, d, ns))
         == if item == Enter(ns, d) && Enter(ns, d) !in before then NamespaceRules(nm, cfg, d, ns) else []
  {
    ActiveByEnter(nm, cfg, before, ns, d);
    OnNamespace(nm, cfg, item, Active(nm, cfg, before), ns, d);
  }

  lemma OnceMore(before: seq<Item>, last: Item, enter: Item, rules: seq<Rule>, had: seq<Rule>, added: seq<Rule>)
    requires had == (if enter in before then rules else [])
    requires added == (if last == enter && enter !in before then rules else [])
    ensures had + added == if enter in before + [last] then rules else []
  {}

  lemma NamespaceContentStep(nm: Namer, cfg: Config, before: seq<Item>, last: Item, ns: string, d: Direction)
    requires ClearWith(nm, cfg, before, Enter(ns, d)) && Clear(nm, cfg, last, Enter(ns, d))
    requires Content(nm, cfg, before, NamespaceChain(nm, d, ns)) == if Enter(ns, d) in before
                 then NamespaceRules(nm, cfg, d, ns) else []
    ensures Content(nm, cfg, before + [last], NamespaceChain(nm, d, ns)) == if Enter(ns, d) in before + [last]
                then NamespaceRules(nm, cfg, d, ns) else []
  {
    var c := NamespaceChain(nm, d, ns);
    AddedToNamespace(nm, cfg, before, last, ns, d);
    OnceMore(before, last, Enter(ns, d), NamespaceRules(nm, cfg, d, ns),
             Content(nm, cfg, before, c), RulesOn(Parts(nm, cfg, last, Active(nm, cfg, before)), c));
    ContentLast(nm, cfg, before, last, c);
  }

  /** However often a namespace is entered, its chain gets its rules once. */
  lemma {:induction false} NamespaceContent(nm: Namer, cfg: Config, items: seq<Item>, ns: string, d: Direction)
    requires ClearWith(nm, cfg, items, Enter(ns, d))
    ensures Content(nm, cfg, items, NamespaceChain(nm, d, ns))
         == if Enter(ns, d) in items then NamespaceRules(nm, cfg, d, ns) else []
  {
    if items != [] {
      var n := |items| - 1;
      assert items == items[..n] + [items[n]];
      NamespaceContent(nm, cfg, items[..n], ns, d);
      NamespaceContentStep(nm, cfg, items[..n], items[n], ns, d);
    }
  }

  /** Flannel addresses pass, addresses beyond the ip range pass, the rest is up to the policies. */
  ghost function NamespaceVerdict(w: World, nm: Namer, cfg: Config, items: seq<Item>, ns: string, d: Direction,
                                  p: Packet): Verdict {
    var far := p.Address(FarSide(d));
    if cfg.acceptFlannel && w.Has(FlannelNetSet(nm), far) then Accepted
    else if cfg.Unlimited() || w.Has(IpRangeSet(nm), far) then PolicyVerdict(w, nm, items, ns, d, p)
    else Accepted
  }

  lemma EvalGuarded(w: World, t: Table, rank: nat, name: SetName, side: Side, target: Target, p: Packet)
    ensures EvalRule(w, t, rank, Rule([MatchSet(name, side)], target), p)
         == if w.Has(name, p.Address(side)) then EvalRule(w, t, rank, Rule([], target), p) else Pass
  {
    var rule := Rule([MatchSet(name, side)], target);
    assert AllHold(w, rule.matches, p) <==> Holds(w, rule.matches[0], p);
  }

  lemma EvalRange(w: World, nm: Namer, cfg: Config, t: Table, ns: string, d: Direction, p: Packet, v: Verdict)
    requires EvalRule(w, t, 3, Rule([], Jump(PlyChain(nm, d, ns))), p) == v && v != Pass
    ensures EvalRules(w, t, 3, RangeRules(nm, cfg, d, ns), p)
         == if cfg.Unlimited() || w.Has(IpRangeSet(nm), p.Address(FarSide(d))) then v else Accepted
  {
    var rules := RangeRules(nm, cfg, d, ns);
    if cfg.Unlimited() {
      EvalOne(w, t, 3, rules[0], p);
    } else {
      EvalGuarded(w, t, 3, IpRangeSet(nm), FarSide(d), Jump(PlyChain(nm, d, ns)), p);
      assert rules[1..] == [Rule([], Accept)];
      EvalOne(w, t, 3, Rule([], Accept), p);
    }
  }

  lemma EvalFlannel(w: World, nm: Namer, cfg: Config, t: Table, d: Direction, p: Packet)
    ensures EvalRules(w, t, 3, FlannelRules(nm, cfg, d), p)
         == if cfg.acceptFlannel && w.Has(FlannelNetSet(nm), p.Address(FarSide(d))) then Accepted else Pass
  {
    if cfg.acceptFlannel {
      EvalGuarded(w, t, 3, FlannelNetSet(nm), FarSide(d), Accept, p);
      EvalOne(w, t, 3, Rule([MatchSet(FlannelNetSet(nm), FarSide(d))], Accept), p);
    }
  }

  lemma {:induction false} FirstVerdictIs(w: World, nm: Namer, items: seq<Item>, walked: seq<Item>, ns: string,
                                          d: Direction, p: Packet)
    ensures FirstVerdict(w, nm, items, walked, ns, d, p) != Stuck
    ensures FirstVerdict(w, nm, items, walked, ns, d, p) == Pass
       <==> forall i ::
              0 <= i < |walked| && Belongs(walked[i], ns, d) ==> GroupVerdict(w, nm, items, walked[i], p) == Pass
    ensures var v := FirstVerdict(w, nm, items, walked, ns, d, p);
            v != Pass ==> exists i ::
              0 <= i < |walked| && Belongs(walked[i], ns, d) && GroupVerdict(w, nm, items, walked[i], p) == v
  {
    if walked != [] {
      var n := |walked| - 1;
      var before := FirstVerdict(w, nm, items, walked[..n], ns, d, p);
      FirstVerdictIs(w, nm, items, walked[..n], ns, d, p);
      assert forall i :: 0 <= i < n ==> walked[..n][i] == walked[i];
      if before != Pass {
        var i :| 0 <= i < n && Belongs(walked[..n][i], ns, d)
            && GroupVerdict(w, nm, items, walked[..n][i], p) == before;
        assert Belongs(walked[i], ns, d) && GroupVerdict(w, nm, items, walked[i], p) == before;
      }
    }
  }

  lemma PolicyVerdictDecides(w: World, nm: Namer, items: seq<Item>, ns: string, d: Direction, p: Packet)
    ensures PolicyVerdict(w, nm, items, ns, d, p) in {Accepted, Rejected}
  {
    FirstVerdictIs(w, nm, items, items, ns, d, p);
  }

  lemma EvalNamespace(w: World, nm: Namer, cfg: Config, t: Table, ns: string, d: Direction, p: Packet, v: Verdict)
    requires EvalRule(w, t, 3, Rule([], Jump(PlyChain(nm, d, ns))), p) == v && v != Pass
    ensures EvalRules(w, t, 3, NamespaceRules(nm, cfg, d, ns), p)
         == if cfg.acceptFlannel && w.Has(FlannelNetSet(nm), p.Address(FarSide(d))) then Accepted
            else if cfg.Unlimited() || w.Has(IpRangeSet(nm), p.Address(FarSide(d))) then v
            else Accepted
  {
    EvalRange(w, nm, cfg, t, ns, d, p, v);
    EvalFlannel(w, nm, cfg, t, d, p);
    EvalConcat(w, t, 3, FlannelRules(nm, cfg, d), RangeRules(nm, cfg, d, ns), p);
  }

  /** Every packet entering a namespace chain is accepted or rejected, as the clauses say. */
  lemma NamespaceChainVerdict(w: World, nm: Namer, cfg: Config, items: seq<Item>, t: Table, ns: string, d: Direction,
                              p: Packet)
    requires NoClash(nm, cfg, items) && Compiled(nm, cfg, items, t) && Enter(ns, d) in items
    ensures NamespaceChain(nm, d, ns) in t
    ensures Eval(w, t, NamespaceChain(nm, d, ns), p) == NamespaceVerdict(w, nm, cfg, items, ns, d, p)
    ensures NamespaceVerdict(w, nm, cfg, items, ns, d, p) in {Accepted, Rejected}
  {
    var c, ply := NamespaceChain(nm, d, ns), PlyChain(nm, d, ns);
    assert ItemChains(nm, cfg, Enter(ns, d))[0] == c;
    CompiledItem(nm, cfg, items, t, Enter(ns, d), c);
    ClearEnter(nm, cfg, items, ns, d);
    NamespaceContent(nm, cfg, items, ns, d);
    PlyVerdict(w, nm, cfg, items, t, ns, d, p);
    PolicyVerdictDecides(w, nm, items, ns, d, p);
    var v := PolicyVerdict(w, nm, items, ns, d, p);
    EvalJump(w, t, 3, ply, p);
    EvalNamespace(w, nm, cfg, t, ns, d, p, v);
  }

  lemma EvalJump(w: World, t: Table, rank: nat, c: Chain, p: Packet)
    requires c in t && Rank(c) < rank
    ensures EvalRule(w, t, rank, Rule([], Jump(c)), p) == Eval(w, t, c, p)
  {
    assert AllHold(w, [], p);
  }

  lemma ClearEnter(nm: Namer, cfg: Config, items: seq<Item>, ns: string, d: Direction)
    requires NoClash(nm, cfg, items) && Enter(ns, d) in items
    ensures ClearWith(nm, cfg, items, Enter(ns, d))
  {
    var e :| 0 <= e < |items| && items[e] == Enter(ns, d);
    forall j | 0 <= j < |items| ensures Clear(nm, cfg, items[j], Enter(ns, d)) {
      assert Clear(nm, cfg, items[j], items[e]);
    }
  }

  // ---------- entry chains ----------

  ghost predicate Entered(w: World, nm: Namer, item: Item, p: Packet) {
    item.Enter? && w.Has(NamespaceSet(nm, item.ns), p.Address(OwnSide(item.dir)))
  }

  /** The first namespace entry whose pods are on the right side of the packet decides. */
  ghost function EntryVerdict(w: World, nm: Namer, cfg: Config, items: seq<Item>, walked: seq<Item>,
                              p: Packet): Verdict {
    if walked == [] then Pass
    else
      var n := |walked| - 1;
      var before := EntryVerdict(w, nm, cfg, items, walked[..n], p);
      if before != Pass then before
      else if Entered(w, nm, walked[n], p) then NamespaceVerdict(w, nm, cfg, items, walked[n].ns, walked[n].dir, p)
      else Pass
  }

  lemma OnEntry(nm: Namer, cfg: Config, item: Item, active: set<Chain>, c: Chain)
    requires c == EnnForward || c == EnnOutput
    ensures RulesOn(Parts(nm, cfg, item, active), c)
         == if item.Enter? && NamespaceChain(nm, item.dir, item.ns) !in active then [EntryRule(nm, item.dir, item.ns)]
             else []
  {
    match item
    case Begin(_, _, _) =>
    case Enter(ns, d) => EnterRules(nm, cfg, ns, d, active, c);
    case Peer(_, _, _, _, _) => PeerRulesOn(nm, cfg, item, active, c);
  }

  /** Once a namespace entry has let a packet pass, no later entry of it can catch the packet. */
  lemma {:induction false} EntryPassed(w: World, nm: Namer, cfg: Config, items: seq<Item>, walked: seq<Item>,
                                       item: Item, p: Packet)
    requires EntryVerdict(w, nm, cfg, items, walked, p) == Pass && item in walked && walked <= items
    ensures !Entered(w, nm, item, p)
  {
    var n := |walked| - 1;
    assert walked == walked[..n] + [walked[n]];
    if item != walked[n] {
      EntryPassed(w, nm, cfg, items, walked[..n], item, p);
    } else if Entered(w, nm, item, p) {
      PolicyVerdictDecides(w, nm, items, item.ns, item.dir, p);
      assert false;
    }
  }

  lemma {:induction false} EntryContentVerdict(w: World, nm: Namer, cfg: Config, items: seq<Item>, walked: seq<Item>,
                                               t: Table, c: Chain, p: Packet)
    requires NoClash(nm, cfg, items) && Compiled(nm, cfg, items, t) && walked <= items
    requires c == EnnForward || c == EnnOutput
    ensures EvalRules(w, t, 4, Content(nm, cfg, walked, c), p) == EntryVerdict(w, nm, cfg, items, walked, p)
  {
    if walked != [] {
      var n := |walked| - 1;
      var last, active := walked[n], Active(nm, cfg, walked[..n]);
      EntryContentVerdict(w, nm, cfg, items, walked[..n], t, c, p);
      OnEntry(nm, cfg, last, active, c);
      EvalConcat(w, t, 4, Content(nm, cfg, walked[..n], c), RulesOn(Parts(nm, cfg, last, active), c), p);
      if last.Enter? {
        assert last == items[n];
        EntryStep(w, nm, cfg, items, walked[..n], t, last, p);
      }
    }
  }

  lemma EntryStep(w: World, nm: Namer, cfg: Config, items: seq<Item>, before: seq<Item>, t: Table, last: Item,
                  p: Packet)
    requires NoClash(nm, cfg, items) && Compiled(nm, cfg, items, t) && before <= items
    requires last.Enter? && last in items
    ensures EvalRules(w, t, 4, [EntryRule(nm, last.dir, last.ns)], p)
         == if Entered(w, nm, last, p) then NamespaceVerdict(w, nm, cfg, items, last.ns, last.dir, p) else Pass
    ensures NamespaceChain(nm, last.dir, last.ns) in Active(nm, cfg, before)
            && EntryVerdict(w, nm, cfg, items, before, p) == Pass
        ==> !Entered(w, nm, last, p)
  {
    var ns, d := last.ns, last.dir;
    NamespaceChainVerdict(w, nm, cfg, items, t, ns, d, p);
    EvalGuarded(w, t, 4, NamespaceSet(nm, ns), OwnSide(d), Jump(NamespaceChain(nm, d, ns)), p);
    EvalOne(w, t, 4, EntryRule(nm, d, ns), p);
    ClearEnter(nm, cfg, items, ns, d);
    assert ClearWith(nm, cfg, before, last) by {
      forall j | 0 <= j < |before| ensures Clear(nm, cfg, before[j], last) {
        assert before[j] == items[j];
      }
    }
    ActiveByEnter(nm, cfg, before, ns, d);
    if last in before && EntryVerdict(w, nm, cfg, items, before, p) == Pass {
      EntryPassed(w, nm, cfg, items, before, last, p);
    }
  }

  /** The table holds the whole compilation: the active chains and the three entry chains. */
  ghost predicate CompiledAll(nm: Namer, cfg: Config, items: seq<Item>, t: Table) {
    && Compiled(nm, cfg, items, t)
    && forall c :: Entry(c) ==> c in t && t[c] == Content(nm, cfg, items, c)
  }

  lemma {:induction false} NothingOnInput(nm: Namer, cfg: Config, items: seq<Item>)
    ensures Content(nm, cfg, items, EnnInput) == []
  {
    if items != [] {
      var n := |items| - 1;
      var active := Active(nm, cfg, items[..n]);
      NothingOnInput(nm, cfg, items[..n]);
      match items[n]
      case Begin(_, _, _) =>
      case Enter(ns, d) => EnterRules(nm, cfg, ns, d, active, EnnInput);
      case Peer(_, _, _, _, _) => PeerRulesOn(nm, cfg, items[n], active, EnnInput);
    }
  }

  /** The verdict of the entry chains: FORWARD and OUTPUT alike, nothing is decided on INPUT. */
  lemma EntryChainsVerdict(w: World, nm: Namer, cfg: Config, items: seq<Item>, t: Table, p: Packet)
    requires NoClash(nm, cfg, items) && CompiledAll(nm, cfg, items, t)
    ensures Eval(w, t, EnnForward, p) == EntryVerdict(w, nm, cfg, items, items, p)
    ensures Eval(w, t, EnnOutput, p) == EntryVerdict(w, nm, cfg, items, items, p)
    ensures Eval(w, t, EnnInput, p) == Pass
  {
    assert Entry(EnnForward) && Entry(EnnOutput) && Entry(EnnInput);
    EntryContentVerdict(w, nm, cfg, items, items, t, EnnForward, p);
    EntryContentVerdict(w, nm, cfg, items, items, t, EnnOutput, p);
    NothingOnInput(nm, cfg, items);
  }

  /** A packet passes the entry chains undecided exactly when no namespace with a policy owns it. */
  lemma {:induction false} EntryUndecided(w: World, nm: Namer, cfg: Config, items: seq<Item>, walked: seq<Item>,
                                          p: Packet)
    ensures EntryVerdict(w, nm, cfg, items, walked, p) == Pass
       <==> forall i :: 0 <= i < |walked| ==> !Entered(w, nm, walked[i], p)
    ensures EntryVerdict(w, nm, cfg, items, walked, p) != Stuck
  {
    if walked != [] {
      var n := |walked| - 1;
      EntryUndecided(w, nm, cfg, items, walked[..n], p);
      assert forall i :: 0 <= i < n ==> walked[..n][i] == walked[i];
      if Entered(w, nm, walked[n], p) {
        PolicyVerdictDecides(w, nm, items, walked[n].ns, walked[n].dir, p);
      }
    }
  }

  // ---------- the direct meaning of policies ----------

  /** Which packets a rule allows, read off the rule: peers are alternatives, so are their label pairs, so are ports. */
  ghost predicate RuleAllows(w: World, nm: Namer, pol: Policy, d: Direction, r: PeerRule, p: Packet) {
    var far := p.Address(FarSide(d));
    OwnMatch(w, nm, pol.ns, pol.selector, d, p) &&
    if r.pods == [] && r.namespaces == [] && r.blocks == [] then PortMatch(r.ports, p)
    else
      && (r.ports == [] || PortMatch(r.ports, p))
      && ((exists i, pair :: 0 <= i < |r.pods| && pair in Pairs(r.pods[i]) && w.Has(LabelSet(nm, pol.ns, pair), far))
          || (exists i, pair ::
                0 <= i < |r.namespaces| && pair in Pairs(r.namespaces[i]) && w.Has(NamespaceLabelSet(nm, pair), far))
          || (exists b :: b in r.blocks && w.inNet(b.cidr, far)))
  }

  lemma RuleAllowsByClause(w: World, nm: Namer, pol: Policy, d: Direction, r: PeerRule, p: Packet)
    ensures RuleAllows(w, nm, pol, d, r, p)
       <==> exists c :: RuleHas(r, c) && ClauseMatch(w, nm, pol.ns, pol.selector, d, c, p)
  {
    var far := p.Address(FarSide(d));
    if RuleAllows(w, nm, pol, d, r, p) {
      if r.pods == [] && r.namespaces == [] && r.blocks == [] {
        assert RuleHas(r, OnlyPorts(r.ports)) && ClauseMatch(w, nm, pol.ns, pol.selector, d, OnlyPorts(r.ports), p);
      } else if exists i, pair ::
          0 <= i < |r.pods| && pair in Pairs(r.pods[i]) && w.Has(LabelSet(nm, pol.ns, pair), far) {
        var i, pair :| 0 <= i < |r.pods| && pair in Pairs(r.pods[i]) && w.Has(LabelSet(nm, pol.ns, pair), far);
        assert RuleHas(r, PodPeer(pair, r.ports))
               && ClauseMatch(w, nm, pol.ns, pol.selector, d, PodPeer(pair, r.ports), p);
      } else if exists i, pair ::
          0 <= i < |r.namespaces| && pair in Pairs(r.namespaces[i]) && w.Has(NamespaceLabelSet(nm, pair), far) {
        var i, pair :| 0 <= i < |r.namespaces| && pair in Pairs(r.namespaces[i])
            && w.Has(NamespaceLabelSet(nm, pair), far);
        assert RuleHas(r, NamespacePeer(pair, r.ports))
               && ClauseMatch(w, nm, pol.ns, pol.selector, d, NamespacePeer(pair, r.ports), p);
      } else {
        var b :| b in r.blocks && w.inNet(b.cidr, far);
        assert RuleHas(r, BlockPeer(b, r.ports))
               && ClauseMatch(w, nm, pol.ns, pol.selector, d, BlockPeer(b, r.ports), p);
      }
    }
  }

  ghost predicate Allows(w: World, nm: Namer, policies: map<Key, Policy>, ns: string, d: Direction, p: Packet) {
    exists k, r :: k in policies && policies[k].ns == ns && d in policies[k].types
                   && r in policies[k].Rules(d) && RuleAllows(w, nm, policies[k], d, r, p)
  }

  ghost predicate Governed(policies: map<Key, Policy>, ns: string, d: Direction) {
    exists k :: k in policies && policies[k].ns == ns && d in policies[k].types
  }

  lemma AllowsByItem(w: World, nm: Namer, policies: map<Key, Policy>, ls: seq<ListedPolicy>, order: seq<Key>,
                     ns: string, d: Direction, p: Packet)
    requires Walks(ls, order, policies)
    ensures Allows(w, nm, policies, ns, d, p)
       <==> exists item :: item in WalkItems(ls) && Belongs(item, ns, d) && ItemMatch(w, nm, item, p)
  {
    if Allows(w, nm, policies, ns, d, p) {
      var k, r :| k in policies && policies[k].ns == ns && d in policies[k].types
                  && r in policies[k].Rules(d) && RuleAllows(w, nm, policies[k], d, r, p);
      var pol := policies[k];
      RuleAllowsByClause(w, nm, pol, d, r, p);
      var c :| RuleHas(r, c) && ClauseMatch(w, nm, pol.ns, pol.selector, d, c, p);
      var item := Peer(ns, pol.name, pol.selector, d, c);
      assert ItemOf(pol, item);
      WalkVisits(ls, order, policies, item);
      assert Belongs(item, ns, d) && ItemMatch(w, nm, item, p);
    }
    if exists item :: item in WalkItems(ls) && Belongs(item, ns, d) && ItemMatch(w, nm, item, p) {
      var item :| item in WalkItems(ls) && Belongs(item, ns, d) && ItemMatch(w, nm, item, p);
      WalkVisits(ls, order, policies, item);
      var k :| k in policies && ItemOf(policies[k], item);
      var r :| r in policies[k].Rules(d) && RuleHas(r, item.clause);
      RuleAllowsByClause(w, nm, policies[k], d, r, p);
    }
  }

  /** The far address of the packet is in no except set of a block that matches it. */
  ghost predicate Unexcepted(w: World, nm: Namer, items: seq<Item>, ns: string, d: Direction, p: Packet) {
    forall item ::
      item in items && Belongs(item, ns, d) && item.clause.BlockPeer? && GroupMatch(w, nm, items, GroupOf(item), p)
      ==> !w.Has(ExceptOf(nm, item), p.Address(FarSide(d)))
  }

  lemma FirstVerdictUnexcepted(w: World, nm: Namer, items: seq<Item>, ns: string, d: Direction, p: Packet)
    requires Unexcepted(w, nm, items, ns, d, p)
    ensures FirstVerdict(w, nm, items, items, ns, d, p)
         == if exists item :: item in items && Belongs(item, ns, d) && ItemMatch(w, nm, item, p) then Accepted else Pass
  {
    var v := FirstVerdict(w, nm, items, items, ns, d, p);
    FirstVerdictIs(w, nm, items, items, ns, d, p);
    if v == Pass {
      forall item | item in items && Belongs(item, ns, d) ensures !ItemMatch(w, nm, item, p) {
        var i :| 0 <= i < |items| && items[i] == item;
        assert GroupVerdict(w, nm, items, items[i], p) == Pass;
      }
    } else {
      var i :| 0 <= i < |items| && Belongs(items[i], ns, d) && GroupVerdict(w, nm, items, items[i], p) == v;
      assert items[i] in items;
      assert GroupMatch(w, nm, items, GroupOf(items[i]), p);
      var j :| 0 <= j < |items| && items[j].Peer? && GroupOf(items[j]) == GroupOf(items[i])
          && ItemMatch(w, nm, items[j], p);
      assert items[j] in items && Belongs(items[j], ns, d);
    }
  }

  /**
   * Compiler correctness. For a packet that no matching block excepts, the chain of a governed
   * namespace accepts exactly what flannel, the ip range, connection tracking or a policy allows,
   * and rejects everything else, whatever order the policies and selectors were walked in.
   */
  lemma CompilerCorrect(w: World, nm: Namer, cfg: Config, policies: map<Key, Policy>, ls: seq<ListedPolicy>,
                        order: seq<Key>, t: Table, ns: string, d: Direction, p: Packet)
    requires Walks(ls, order, policies) && Governed(policies, ns, d)
    requires NoClash(nm, cfg, WalkItems(ls)) && Compiled(nm, cfg, WalkItems(ls), t)
    requires Unexcepted(w, nm, WalkItems(ls), ns, d, p)
    ensures NamespaceChain(nm, d, ns) in t
    ensures Eval(w, t, NamespaceChain(nm, d, ns), p)
         == if || (cfg.acceptFlannel && w.Has(FlannelNetSet(nm), p.Address(FarSide(d))))
               || (!cfg.Unlimited() && !w.Has(IpRangeSet(nm), p.Address(FarSide(d))))
               || p.established
               || Allows(w, nm, policies, ns, d, p)
            then Accepted else Rejected
  {
    var items := WalkItems(ls);
    GovernedEntered(policies, ls, order, ns, d);
    NamespaceChainVerdict(w, nm, cfg, items, t, ns, d, p);
    AllowsByItem(w, nm, policies, ls, order, ns, d, p);
    FirstVerdictUnexcepted(w, nm, items, ns, d, p);
  }

  lemma GovernedEntered(policies: map<Key, Policy>, ls: seq<ListedPolicy>, order: seq<Key>, ns: string, d: Direction)
    requires Walks(ls, order, policies)
    ensures Enter(ns, d) in WalkItems(ls) <==> Governed(policies, ns, d)
  {
    WalkVisits(ls, order, policies, Enter(ns, d));
    if Governed(policies, ns, d) {
      var k :| k in policies && policies[k].ns == ns && d in policies[k].types;
      assert ItemOf(policies[k], Enter(ns, d));
    }
  }
}
