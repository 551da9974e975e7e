/** The restore script of a walk is always accepted, and leaves exactly the compiled chains. */
module Restoring {
  import opened Options
  import opened Names
  import opened Naming
  import opened Netfilter
  import opened Orders
  import opened Policies
  import opened Compiler
  import opened Verdicts
  import opened Entries

  // ---------- sets ----------

  /** The sets an item creates and marks active. */
  ghost function SetsOf(nm: Namer, item: Item): set<SetName> {
    match item
    case Begin(ns, _, selector) =>
      {NamespaceSet(nm, ns)} + (set pair | pair in Pairs(selector) :: LabelSet(nm, ns, pair))
      + (if selector == map[] then {} else {SelectorSet(nm, ns, selector)})
    case Enter(_, _) => {}
    case Peer(ns, _, _, _, clause) =>
      match clause
      case OnlyPorts(_) => {}
      case PodPeer(pair, _) => {LabelSet(nm, ns, pair)}
      case NamespacePeer(pair, _) => {NamespaceLabelSet(nm, pair)}
      case BlockPeer(_, _) => {ExceptOf(nm, item)}
  }

  ghost function ActiveSets(nm: Namer, items: seq<Item>): set<SetName> {
    if items == [] then {IpRangeSet(nm), FlannelNetSet(nm)}
    else ActiveSets(nm, items[..|items| - 1]) + SetsOf(nm, items[|items| - 1])
  }

  /** Every entry and every peer comes with the policy it belongs to, and every peer with its entry. */
  ghost predicate Begun(items: seq<Item>) {
    forall item :: item in items ==>
      match item
      case Begin(_, _, _) => true
      case Enter(ns, _) => exists policy, selector :: Begin(ns, policy, selector) in items
      case Peer(ns, policy, selector, d, _) => Begin(ns, policy, selector) in items && Enter(ns, d) in items
  }

  lemma WalkBegun(ls: seq<ListedPolicy>, order: seq<Key>, policies: map<Key, Policy>)
    requires Walks(ls, order, policies)
    ensures Begun(WalkItems(ls))
  {
    var items := WalkItems(ls);
    forall item | item in items && !item.Begin?
      ensures exists policy, selector :: Begin(item.ns, policy, selector) in items
      ensures item.Peer? ==> Begin(item.ns, item.policy, item.selector) in items && Enter(item.ns, item.dir) in items
    {
      WalkVisits(ls, order, policies, item);
      var k :| k in policies && ItemOf(policies[k], item);
      var p := policies[k];
      assert ItemOf(p, Begin(p.ns, p.name, p.selector));
      WalkVisits(ls, order, policies, Begin(p.ns, p.name, p.selector));
      if item.Peer? {
        assert ItemOf(p, Enter(item.ns, item.dir));
        WalkVisits(ls, order, policies, Enter(item.ns, item.dir));
      }
    }
  }

  lemma {:induction false} ActiveSetsOfItem(nm: Namer, items: seq<Item>, item: Item)
    requires item in items
    ensures SetsOf(nm, item) <= ActiveSets(nm, items)
  {
    var n := |items| - 1;
    assert items == items[..n] + [items[n]];
    if item != items[n] {
      ActiveSetsOfItem(nm, items[..n], item);
    }
  }

  lemma {:induction false} ConfigSetsActive(nm: Namer, items: seq<Item>)
    ensures IpRangeSet(nm) in ActiveSets(nm, items) && FlannelNetSet(nm) in ActiveSets(nm, items)
  {
    if items != [] {
      ConfigSetsActive(nm, items[..|items| - 1]);
    }
  }

  // ---------- every rule of the script fits ----------

  ghost predicate AllFit(chains: set<Chain>, sets: set<SetName>, rules: seq<Rule>) {
    forall i :: 0 <= i < |rules| ==> RuleFits(chains, sets, rules[i])
  }

  ghost predicate NamesIn(ms: seq<Match>, sets: set<SetName>) {
    forall m :: m in ms && m.MatchSet? ==> m.name in sets
  }

  lemma {:induction false} PortRulesFit(chains: set<Chain>, sets: set<SetName>, base: seq<Match>, ports: seq<Port>,
                                        target: Target)
    requires NamesIn(base, sets) && (target.Jump? ==> target.chain in chains)
    ensures AllFit(chains, sets, PortRules(base, ports, target))
  {
    if ports != [] {
      PortRulesFit(chains, sets, base, ports[..|ports| - 1], target);
    }
  }

  /** What an item needs to exist before its rules can be appended. */
  ghost predicate Needs(nm: Namer, cfg: Config, item: Item, chains: set<Chain>, sets: set<SetName>) {
    match item
    case Begin(_, _, _) => true
    case Enter(ns, d) => NamespaceSet(nm, ns) in sets && IpRangeSet(nm) in sets && FlannelNetSet(nm) in sets
    case Peer(ns, _, selector, d, _) =>
      && PlyChain(nm, d, ns) in chains
      && (selector == map[] || SelectorSet(nm, ns, selector) in sets)
      && SetsOf(nm, item) <= sets
  }

  lemma PeerRulesFit(nm: Namer, cfg: Config, item: Item, chains: set<Chain>, sets: set<SetName>)
    requires item.Peer? && Needs(nm, cfg, item, chains, sets)
    requires forall c :: c in ItemChains(nm, cfg, item) ==> c in chains
    ensures AllFit(chains, sets, PeerRules(nm, item))
  {
    var own, far := OwnMatches(nm, item.ns, item.selector, item.dir), FarMatches(nm, item.ns, item.dir, item.clause);
    assert NamesIn(own, sets);
    assert NamesIn(far, sets);
    assert NamesIn(own + far, sets);
    if item.clause.BlockPeer? {
      assert ItemChains(nm, cfg, item)[1] == BlockChainOf(nm, item);
    }
    PortRulesFit(chains, sets, own + far, item.clause.ports, TargetOf(nm, item));
  }

  ghost predicate PartFits(chains: set<Chain>, sets: set<SetName>, part: Part) {
    part.chain in chains && AllFit(chains, sets, part.rules)
  }

  ghost predicate AllPartsFit(chains: set<Chain>, sets: set<SetName>, parts: seq<Part>) {
    forall i :: 0 <= i < |parts| ==> PartFits(chains, sets, parts[i])
  }

  lemma EnterPartsFit(nm: Namer, cfg: Config, ns: string, d: Direction, active: set<Chain>, chains: set<Chain>,
                      sets: set<SetName>)
    requires Needs(nm, cfg, Enter(ns, d), chains, sets)
    requires EnnForward in chains && EnnOutput in chains && NamespaceChain(nm, d, ns) in chains
             && PlyChain(nm, d, ns) in chains
    ensures AllPartsFit(chains, sets, Parts(nm, cfg, Enter(ns, d), active))
  {
    assert AllFit(chains, sets, FlannelRules(nm, cfg, d));
    assert AllFit(chains, sets, RangeRules(nm, cfg, d, ns));
    assert AllFit(chains, sets, [EntryRule(nm, d, ns)]);
  }

  lemma PeerPartsFit(nm: Namer, cfg: Config, item: Item, active: set<Chain>, chains: set<Chain>, sets: set<SetName>)
    requires item.Peer? && Needs(nm, cfg, item, chains, sets)
    requires forall c :: c in ItemChains(nm, cfg, item) ==> c in chains
    ensures AllPartsFit(chains, sets, Parts(nm, cfg, item, active))
  {
    PeerRulesFit(nm, cfg, item, chains, sets);
    assert ItemChains(nm, cfg, item)[0] == DispatchOf(nm, item);
    var jump := Rule([], Jump(DispatchOf(nm, item)));
    assert AllFit(chains, sets, [jump]);
    if item.clause.BlockPeer? {
      assert ItemChains(nm, cfg, item)[1] == BlockChainOf(nm, item);
      assert AllFit(chains, sets, BlockRules(ExceptOf(nm, item), item.dir));
    }
  }

  ghost predicate AllBuild(chains: set<Chain>, sets: set<SetName>, cmds: seq<Cmd>) {
    forall i :: 0 <= i < |cmds| ==> Builds(chains, sets, cmds[i])
  }

  lemma {:induction false} AppendsBuild(chains: set<Chain>, sets: set<SetName>, c: Chain, rules: seq<Rule>)
    requires c in chains && AllFit(chains, sets, rules)
    ensures AllBuild(chains, sets, Appends(c, rules))
  {
    if rules != [] {
      AppendsBuild(chains, sets, c, rules[..|rules| - 1]);
    }
  }

  lemma {:induction false} CmdsBuild(chains: set<Chain>, sets: set<SetName>, parts: seq<Part>)
    requires AllPartsFit(chains, sets, parts)
    ensures AllBuild(chains, sets, Cmds(parts))
  {
    if parts != [] {
      var n := |parts| - 1;
      CmdsBuild(chains, sets, parts[..n]);
      assert PartFits(chains, sets, parts[n]);
      AppendsBuild(chains, sets, parts[n].chain, parts[n].rules);
    }
  }

  ghost predicate AllNeeds(nm: Namer, cfg: Config, items: seq<Item>, chains: set<Chain>, sets: set<SetName>) {
    && EnnForward in chains && EnnOutput in chains
    && forall i :: 0 <= i < |items| ==> Needs(nm, cfg, items[i], chains, sets)
                                        && forall c :: c in ItemChains(nm, cfg, items[i]) ==> c in chains
  }

  lemma {:induction false} BodyBuilds(nm: Namer, cfg: Config, items: seq<Item>, chains: set<Chain>, sets: set<SetName>)
    requires AllNeeds(nm, cfg, items, chains, sets)
    ensures AllBuild(chains, sets, Body(nm, cfg, items))
  {
    if items != [] {
      var n := |items| - 1;
      var active := Active(nm, cfg, items[..n]);
      BodyBuilds(nm, cfg, items[..n], chains, sets);
      match items[n] {
        case Begin(_, _, _) =>
        case Enter(ns, d) =>
          assert ItemChains(nm, cfg, items[n])[0] == NamespaceChain(nm, d, ns)
                 && ItemChains(nm, cfg, items[n])[1] == PlyChain(nm, d, ns);
          EnterPartsFit(nm, cfg, ns, d, active, chains, sets);
        case Peer(_, _, _, _, _) => PeerPartsFit(nm, cfg, items[n], active, chains, sets);
      }
      CmdsBuild(chains, sets, Parts(nm, cfg, items[n], active));
    }
  }

  lemma {:induction false} FramesBuild(chains: set<Chain>, sets: set<SetName>, plies: seq<Chain>)
    requires forall c :: c in plies ==> c in chains
    ensures AllBuild(chains, sets, Frames(plies))
  {
    if plies != [] {
      FramesBuild(chains, sets, plies[..|plies| - 1]);
    }
  }

  // ---------- the script ----------

  const ENTRIES := [EnnInput, EnnOutput, EnnForward]

  function ScriptChains(nm: Namer, cfg: Config, items: seq<Item>, stale: seq<Chain>): seq<Chain> {
    ENTRIES + Chains(nm, cfg, items) + stale
  }

  ghost function ScriptCmds(nm: Namer, cfg: Config, items: seq<Item>, plies: seq<Chain>, stale: seq<Chain>): seq<Cmd> {
    Body(nm, cfg, items) + Frames(plies) + Deletes(stale)
  }

  ghost function Plies(nm: Namer, cfg: Config, items: seq<Item>): set<Chain> {
    set c | c in Active(nm, cfg, items) && Ply(c)
  }

  ghost function Stale(nm: Namer, cfg: Config, items: seq<Item>, t: Table): set<Chain> {
    set c | c in t && Dynamic(c) && c !in Active(nm, cfg, items)
  }

  /** No rule of somebody else's chain jumps to a generated chain. */
  ghost predicate ForeignClean(t: Table) {
    forall c, i :: c in t && c.Foreign? && 0 <= i < |t[c]| && t[c][i].target.Jump? ==> !Dynamic(t[c][i].target.chain)
  }

  ghost function Kept(nm: Namer, cfg: Config, items: seq<Item>): set<Chain> {
    Active(nm, cfg, items) + {EnnInput, EnnOutput, EnnForward}
  }

  /** The table after the script: the entries, the compiled chains, and other people's chains as they were. */
  ghost function Result(nm: Namer, cfg: Config, items: seq<Item>, t: Table): Table {
    map c | c in (t.Keys - Stale(nm, cfg, items, t)) + Kept(nm, cfg, items)
      :: if c.Foreign? && c in t then t[c] else Finished(nm, cfg, items, c)
  }

  lemma {:induction false} ChainsAreDynamic(nm: Namer, cfg: Config, items: seq<Item>)
    ensures forall c :: c in Chains(nm, cfg, items) ==> Dynamic(c)
  {
    if items != [] {
      ChainsAreDynamic(nm, cfg, items[..|items| - 1]);
    }
  }

  lemma {:induction false} ExtendElsewhere(base: seq<Rule>, c: Chain, cmds: seq<Cmd>)
    requires forall i :: 0 <= i < |cmds| ==> cmds[i].chain != c
    ensures Extend(base, c, cmds) == base
  {
    if cmds != [] {
      ExtendElsewhere(base, c, cmds[..|cmds| - 1]);
    }
  }

  lemma {:induction false} ExtendFits(base: seq<Rule>, c: Chain, cmds: seq<Cmd>, chains: set<Chain>, sets: set<SetName>)
    requires AllFit(chains, sets, base) && AllBuild(chains, sets, cmds)
    ensures AllFit(chains, sets, Extend(base, c, cmds))
  {
    if cmds != [] {
      ExtendFits(base, c, cmds[..|cmds| - 1], chains, sets);
      assert Builds(chains, sets, cmds[|cmds| - 1]);
    }
  }

  lemma AllBuildConcat(chains: set<Chain>, sets: set<SetName>, a: seq<Cmd>, b: seq<Cmd>)
    requires AllBuild(chains, sets, a) && AllBuild(chains, sets, b)
    ensures AllBuild(chains, sets, a + b)
  {}

  lemma AllBuildMore(chains: set<Chain>, more: set<Chain>, sets: set<SetName>, cmds: seq<Cmd>)
    requires AllBuild(chains, sets, cmds) && chains <= more
    ensures AllBuild(more, sets, cmds)
  {
    forall i | 0 <= i < |cmds| ensures Builds(more, sets, cmds[i]) {
      assert Builds(chains, sets, cmds[i]);
    }
  }

  /** Body and frames only touch kept chains, only jump to kept chains, and only use active sets. */
  lemma BuildKept(nm: Namer, cfg: Config, items: seq<Item>, plies: seq<Chain>, sets: set<SetName>)
    requires Begun(items) && ActiveSets(nm, items) <= sets && Enumerates(plies, Plies(nm, cfg, items))
    ensures AllBuild(Kept(nm, cfg, items), sets, Body(nm, cfg, items) + Frames(plies))
  {
    var kept := Kept(nm, cfg, items);
    forall i | 0 <= i < |items|
      ensures Needs(nm, cfg, items[i], kept, sets)
      ensures forall c :: c in ItemChains(nm, cfg, items[i]) ==> c in kept
    {
      var item := items[i];
      ChainsOfItem(nm, cfg, items, item);
      ConfigSetsActive(nm, items);
      ActiveSetsOfItem(nm, items, item);
      if item.Enter? {
        var policy, selector :| Begin(item.ns, policy, selector) in items;
        ActiveSetsOfItem(nm, items, Begin(item.ns, policy, selector));
      } else if item.Peer? {
        ActiveSetsOfItem(nm, items, Begin(item.ns, item.policy, item.selector));
        ChainsOfItem(nm, cfg, items, Enter(item.ns, item.dir));
        assert ItemChains(nm, cfg, Enter(item.ns, item.dir))[1] == PlyChain(nm, item.dir, item.ns);
      }
    }
    BodyBuilds(nm, cfg, items, kept, sets);
    FramesBuild(kept, sets, plies);
    AllBuildConcat(kept, sets, Body(nm, cfg, items), Frames(plies));
  }

  /** What body and frames make of one chain. */
  lemma BuiltContent(nm: Namer, cfg: Config, items: seq<Item>, plies: seq<Chain>, base: seq<Rule>, c: Chain)
    requires Enumerates(plies, Plies(nm, cfg, items)) && c in Kept(nm, cfg, items) && base == []
    ensures Extend(base, c, Body(nm, cfg, items) + Frames(plies)) == Finished(nm, cfg, items, c)
  {
    ExtendConcat(base, c, Body(nm, cfg, items), Frames(plies));
    BodyExtends(nm, cfg, items, c);
    FramesExtend(plies, Content(nm, cfg, items, c), c);
    assert c in plies <==> c in Plies(nm, cfg, items);
  }

  lemma KeptIsOurs(nm: Namer, cfg: Config, items: seq<Item>)
    ensures forall c :: c in Kept(nm, cfg, items) ==> !c.Foreign?
    ensures forall c :: c in Kept(nm, cfg, items) && Dynamic(c) ==> c in Active(nm, cfg, items)
  {
    ChainsAreDynamic(nm, cfg, items);
  }

  lemma DeclaredScript(nm: Namer, cfg: Config, items: seq<Item>, stale: seq<Chain>, t: Table)
    requires Enumerates(stale, Stale(nm, cfg, items, t))
    ensures var t1 := Declare(t, ScriptChains(nm, cfg, items, stale));
            && t1.Keys == t.Keys + Kept(nm, cfg, items)
            && (forall c :: c in t1 ==> t1[c] == if c.Foreign? then (if c in t then t[c] else []) else [])
  {
    var all := ScriptChains(nm, cfg, items, stale);
    DeclareIs(t, all);
    KeptIsOurs(nm, cfg, items);
    forall c ensures c in all <==> c in Kept(nm, cfg, items) || c in Stale(nm, cfg, items, t) {
      assert c in all <==> c in ENTRIES || c in Chains(nm, cfg, items) || c in stale;
    }
  }

  lemma BuiltTable(nm: Namer, cfg: Config, items: seq<Item>, plies: seq<Chain>, stale: seq<Chain>, t: Table,
                   sets: set<SetName>)
    requires Begun(items) && ActiveSets(nm, items) <= sets
    requires Enumerates(plies, Plies(nm, cfg, items)) && Enumerates(stale, Stale(nm, cfg, items, t))
    ensures var t1 := Declare(t, ScriptChains(nm, cfg, items, stale));
            var cmds := Body(nm, cfg, items) + Frames(plies);
            && Run(t1, sets, cmds) == Some(Extended(t1, cmds))
            && (forall c ::
                  c in t1 && c in Kept(nm, cfg, items) ==> Extended(t1, cmds)[c] == Finished(nm, cfg, items, c))
            && (forall c :: c in t1 && c !in Kept(nm, cfg, items) ==> Extended(t1, cmds)[c] == t1[c])
  {
    var t1, kept := Declare(t, ScriptChains(nm, cfg, items, stale)), Kept(nm, cfg, items);
    var cmds := Body(nm, cfg, items) + Frames(plies);
    DeclaredScript(nm, cfg, items, stale, t);
    KeptIsOurs(nm, cfg, items);
    BuildKept(nm, cfg, items, plies, sets);
    AllBuildMore(kept, t1.Keys, sets, cmds);
    RunBuilds(t1, sets, cmds);
    forall c | c in t1
      ensures c in kept ==> Extended(t1, cmds)[c] == Finished(nm, cfg, items, c)
      ensures c !in kept ==> Extended(t1, cmds)[c] == t1[c]
    {
      if c in kept {
        BuiltContent(nm, cfg, items, plies, t1[c], c);
      } else {
        assert forall i :: 0 <= i < |cmds| ==> Builds(kept, sets, cmds[i]);
        ExtendElsewhere(t1[c], c, cmds);
      }
    }
  }

  /** Rules of kept chains only refer to kept chains and active sets. */
  lemma FinishedFits(nm: Namer, cfg: Config, items: seq<Item>, c: Chain)
    requires Begun(items) && c in Kept(nm, cfg, items)
    ensures AllFit(Kept(nm, cfg, items), ActiveSets(nm, items), Finished(nm, cfg, items, c))
  {
    var plies := AnyOrder(Plies(nm, cfg, items));
    BuildKept(nm, cfg, items, plies, ActiveSets(nm, items));
    BuiltContent(nm, cfg, items, plies, [], c);
    ExtendFits([], c, Body(nm, cfg, items) + Frames(plies), Kept(nm, cfg, items), ActiveSets(nm, items));
  }

  lemma StaleUnreferenced(nm: Namer, cfg: Config, items: seq<Item>, t: Table, built: Table, stale: Chain)
    requires Begun(items) && ForeignClean(t) && stale in Stale(nm, cfg, items, t)
    requires forall c :: c in built && c in Kept(nm, cfg, items) ==> built[c] == Finished(nm, cfg, items, c)
    requires forall c ::
               c in built && c !in Kept(nm, cfg, items) ==> built[c] == [] || (c.Foreign? && c in t && built[c] == t[c])
    ensures !ChainReferenced(built, stale)
  {
    KeptIsOurs(nm, cfg, items);
    forall c, i | c in built && 0 <= i < |built[c]| ensures built[c][i].target != Jump(stale) {
      if c in Kept(nm, cfg, items) {
        FinishedFits(nm, cfg, items, c);
        assert RuleFits(Kept(nm, cfg, items), ActiveSets(nm, items), built[c][i]);
      } else {
        assert t[c][i] == built[c][i];
      }
    }
  }

  /** The table once everything is built and nothing is deleted yet. */
  ghost predicate Built(nm: Namer, cfg: Config, items: seq<Item>, t: Table, built: Table) {
    && built.Keys == t.Keys + Kept(nm, cfg, items)
    && (forall c :: c in built && c in Kept(nm, cfg, items) ==> built[c] == Finished(nm, cfg, items, c))
    && (forall c :: c in built && c !in Kept(nm, cfg, items) ==> built[c] == if c.Foreign? && c in t then t[c] else [])
  }

  lemma BuiltLessStale(nm: Namer, cfg: Config, items: seq<Item>, t: Table, built: Table)
    requires Built(nm, cfg, items, t, built)
    ensures built - Stale(nm, cfg, items, t) == Result(nm, cfg, items, t)
  {
    KeptIsOurs(nm, cfg, items);
    var gone, r := Stale(nm, cfg, items, t), Result(nm, cfg, items, t);
    assert gone !! Kept(nm, cfg, items);
    var left := built - gone;
    assert left.Keys == r.Keys;
    forall c | c in left ensures left[c] == r[c] {
      if c in Kept(nm, cfg, items) {
        assert !c.Foreign?;
      } else {
        assert c in t && c.Foreign? by { OnlyKinds(c); }
      }
    }
  }

  lemma OnlyKinds(c: Chain)
    ensures c.Foreign? || Entry(c) || Dynamic(c)
  {}

  lemma BuiltThenDeleted(nm: Namer, cfg: Config, items: seq<Item>, stale: seq<Chain>, t: Table, built: Table,
                         sets: set<SetName>)
    requires Begun(items) && ForeignClean(t) && Enumerates(stale, Stale(nm, cfg, items, t))
    requires Built(nm, cfg, items, t, built)
    ensures Run(built, sets, Deletes(stale)) == Some(Result(nm, cfg, items, t))
  {
    KeptIsOurs(nm, cfg, items);
    forall i | 0 <= i < |stale|
      ensures stale[i] in built && built[stale[i]] == [] && !ChainReferenced(built, stale[i])
    {
      assert stale[i] in stale && stale[i] in Stale(nm, cfg, items, t);
      StaleUnreferenced(nm, cfg, items, t, built, stale[i]);
    }
    RunDeletes(built, sets, stale);
    assert (set c | c in stale) == Stale(nm, cfg, items, t);
    BuiltLessStale(nm, cfg, items, t, built);
  }

  /**
   * The script is valid: every command succeeds, and what is left is exactly the compiled chains,
   * the entry chains, and everybody else's chains unchanged.
   */
  lemma RestoreExact(nm: Namer, cfg: Config, items: seq<Item>, plies: seq<Chain>, stale: seq<Chain>, t: Table,
                     sets: set<SetName>)
    requires Begun(items) && ActiveSets(nm, items) <= sets && ForeignClean(t)
    requires Enumerates(plies, Plies(nm, cfg, items)) && Enumerates(stale, Stale(nm, cfg, items, t))
    ensures Restore(t, sets, ScriptChains(nm, cfg, items, stale), ScriptCmds(nm, cfg, items, plies, stale))
         == Some(Result(nm, cfg, items, t))
  {
    var t1 := Declare(t, ScriptChains(nm, cfg, items, stale));
    var cmds := Body(nm, cfg, items) + Frames(plies);
    DeclaredScript(nm, cfg, items, stale, t);
    BuiltTable(nm, cfg, items, plies, stale, t, sets);
    KeptIsOurs(nm, cfg, items);
    BuiltThenDeleted(nm, cfg, items, stale, t, Extended(t1, cmds), sets);
    RunConcat(t1, sets, cmds, Deletes(stale));
  }

  // ---------- what the result is like ----------

  /** After the script the generated chains are exactly the active ones, and no other chain has changed. */
  lemma ResultExact(nm: Namer, cfg: Config, items: seq<Item>, t: Table)
    ensures var r := Result(nm, cfg, items, t);
            && (forall c :: Dynamic(c) ==> (c in r <==> c in Active(nm, cfg, items)))
            && (forall c: Chain :: c.Foreign? ==> (c in r <==> c in t) && (c in t ==> r[c] == t[c]))
            && CompiledAll(nm, cfg, items, r)
  {
    KeptIsOurs(nm, cfg, items);
  }

  /** Other people's chains. */
  ghost function ForeignPart(t: Table): Table {
    map c | c in t && c.Foreign? :: t[c]
  }

  /** Every set a generated rule refers to is active, so none of them can be garbage collected. */
  lemma ReferencedSetsActive(nm: Namer, cfg: Config, items: seq<Item>, t: Table, name: SetName)
    requires Begun(items) && SetReferenced(Result(nm, cfg, items, t), name)
    ensures name in ActiveSets(nm, items) || SetReferenced(ForeignPart(t), name)
  {
    var r := Result(nm, cfg, items, t);
    KeptIsOurs(nm, cfg, items);
    var c, i :| c in r && 0 <= i < |r[c]| && RefersTo(r[c][i], name);
    if c in Kept(nm, cfg, items) {
      FinishedFits(nm, cfg, items, c);
      assert RuleFits(Kept(nm, cfg, items), ActiveSets(nm, items), r[c][i]);
    } else {
      assert c in ForeignPart(t) && RefersTo(ForeignPart(t)[c][i], name);
    }
  }

  // ---------- the shape of a policy chain ----------

  ghost predicate DispatchJump(rule: Rule) {
    rule.matches == [] && rule.target.Jump? && rule.target.chain.Dispatch?
  }

  lemma {:induction false} PlyContentShape(nm: Namer, cfg: Config, items: seq<Item>, c: Chain)
    requires Ply(c)
    ensures forall i :: 0 <= i < |Content(nm, cfg, items, c)| ==> DispatchJump(Content(nm, cfg, items, c)[i])
  {
    if items != [] {
      var n := |items| - 1;
      PlyContentShape(nm, cfg, items[..n], c);
      OnPly(nm, cfg, items[n], Active(nm, cfg, items[..n]), c);
    }
  }

  /**
   * In the finished table every policy chain is one conntrack ACCEPT, then dispatch jumps and nothing
   * else, then one REJECT.
   */
  lemma PlyShape(nm: Namer, cfg: Config, items: seq<Item>, t: Table, c: Chain)
    requires c in Result(nm, cfg, items, t) && Ply(c)
    ensures var rules := Result(nm, cfg, items, t)[c]; var n := |rules|;
            && n >= 2 && rules[0] == Rule([Established], Accept) && rules[n - 1] == Rule([], Reject)
            && forall i :: 0 < i < n - 1 ==> DispatchJump(rules[i])
  {
    PlyContentShape(nm, cfg, items, c);
    var content := Content(nm, cfg, items, c);
    var rules := Result(nm, cfg, items, t)[c];
    assert rules == [CONNTRACK] + content + [DEFAULT];
    forall i | 0 < i < |rules| - 1 ensures DispatchJump(rules[i]) {
      assert rules[i] == content[i - 1];
    }
  }

  // ---------- ranks ----------

  ghost predicate Lower(rule: Rule, c: Chain) {
    !rule.target.Elsewhere? && (rule.target.Jump? ==> Rank(rule.target.chain) < Rank(c))
  }

  ghost predicate AllLower(rules: seq<Rule>, c: Chain) {
    forall i :: 0 <= i < |rules| ==> Lower(rules[i], c)
  }

  lemma {:induction false} PortRulesLower(base: seq<Match>, ports: seq<Port>, target: Target, c: Chain)
    requires Lower(Rule([], target), c)
    ensures AllLower(PortRules(base, ports, target), c)
  {
    if ports != [] {
      PortRulesLower(base, ports[..|ports| - 1], target, c);
    }
  }

  lemma EnterLower(nm: Namer, cfg: Config, ns: string, d: Direction, active: set<Chain>, c: Chain)
    ensures AllLower(RulesOn(Parts(nm, cfg, Enter(ns, d), active), c), c)
  {
    EnterRules(nm, cfg, ns, d, active, c);
    NamespaceLower(nm, cfg, ns, d);
    EntryLower(nm, ns, d, c);
  }

  lemma EntryLower(nm: Namer, ns: string, d: Direction, c: Chain)
    ensures c == EnnForward || c == EnnOutput ==> AllLower([EntryRule(nm, d, ns)], c)
  {}

  lemma NamespaceLower(nm: Namer, cfg: Config, ns: string, d: Direction)
    ensures AllLower(FlannelRules(nm, cfg, d) + RangeRules(nm, cfg, d, ns), NamespaceChain(nm, d, ns))
  {}

  lemma PeerRulesLower(nm: Namer, item: Item)
    requires item.Peer?
    ensures AllLower(PeerRules(nm, item), DispatchOf(nm, item))
  {
    var own, far := OwnMatches(nm, item.ns, item.selector, item.dir), FarMatches(nm, item.ns, item.dir, item.clause);
    PortRulesLower(own + far, item.clause.ports, TargetOf(nm, item), DispatchOf(nm, item));
  }

  lemma JumpLower(to: Chain, c: Chain)
    requires Rank(to) < Rank(c)
    ensures AllLower([Rule([], Jump(to))], c)
  {}

  lemma BlockLower(except: SetName, d: Direction, c: Chain)
    ensures AllLower(BlockRules(except, d), c)
  {}

  lemma PeerLower(nm: Namer, cfg: Config, item: Item, active: set<Chain>, c: Chain)
    requires item.Peer?
    ensures AllLower(RulesOn(Parts(nm, cfg, item, active), c), c)
  {
    PeerRulesOn(nm, cfg, item, active, c);
    if c == PlyChain(nm, item.dir, item.ns) {
      JumpLower(DispatchOf(nm, item), c);
    } else if c == DispatchOf(nm, item) {
      PeerRulesLower(nm, item);
    } else if item.clause.BlockPeer? && c == BlockChainOf(nm, item) {
      BlockLower(ExceptOf(nm, item), item.dir, c);
    }
  }

  lemma AddedLower(nm: Namer, cfg: Config, item: Item, active: set<Chain>, c: Chain)
    ensures AllLower(RulesOn(Parts(nm, cfg, item, active), c), c)
  {
    match item
    case Begin(_, _, _) =>
    case Enter(ns, d) => EnterLower(nm, cfg, ns, d, active, c);
    case Peer(_, _, _, _, _) => PeerLower(nm, cfg, item, active, c);
  }

  lemma {:induction false} ContentLower(nm: Namer, cfg: Config, items: seq<Item>, c: Chain)
    ensures AllLower(Content(nm, cfg, items, c), c)
  {
    if items != [] {
      var n := |items| - 1;
      ContentLower(nm, cfg, items[..n], c);
      AddedLower(nm, cfg, items[n], Active(nm, cfg, items[..n]), c);
    }
  }

  lemma FinishedLower(nm: Namer, cfg: Config, items: seq<Item>, c: Chain)
    ensures AllLower(Finished(nm, cfg, items, c), c)
  {
    ContentLower(nm, cfg, items, c);
    assert Lower(CONNTRACK, c) && Lower(DEFAULT, c);
  }

  lemma ResultChain(nm: Namer, cfg: Config, items: seq<Item>, t: Table, c: Chain)
    requires c in Result(nm, cfg, items, t) && !c.Foreign?
    ensures c in Kept(nm, cfg, items) && Result(nm, cfg, items, t)[c] == Finished(nm, cfg, items, c)
    ensures forall k :: k in Kept(nm, cfg, items) ==> k in Result(nm, cfg, items, t)
  {
    KeptIsOurs(nm, cfg, items);
    OnlyKinds(c);
  }

  /** Jumps strictly descend from entries to namespaces, policies, dispatch and block chains. */
  lemma ResultDescends(nm: Namer, cfg: Config, items: seq<Item>, t: Table)
    requires Begun(items)
    ensures Descends(Result(nm, cfg, items, t))
  {
    var r := Result(nm, cfg, items, t);
    forall c, i | c in r && !c.Foreign? && 0 <= i < |r[c]|
      ensures Lower(r[c][i], c) && (r[c][i].target.Jump? ==> r[c][i].target.chain in r)
    {
      ResultChain(nm, cfg, items, t, c);
      FinishedFits(nm, cfg, items, c);
      FinishedLower(nm, cfg, items, c);
      assert RuleFits(Kept(nm, cfg, items), ActiveSets(nm, items), r[c][i]);
    }
  }
}
