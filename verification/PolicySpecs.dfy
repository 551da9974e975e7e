/** The compiler's front end: network policies as the cluster reports them, and what is kept of them. */
module PolicySpecs {
  import opened Options
  import opened Names
  import opened Policies

  /** One entry of a rule's from or to list. */
  datatype PeerSpec = PeerSpec(podSelector: Option<Selector>, namespaceSelector: Option<Selector>,
      ipBlock: Option<IpBlock>)

  datatype RuleSpec = RuleSpec(ports: seq<Port>, peers: seq<PeerSpec>)

  datatype PolicySpec = PolicySpec(name: string, ns: string, podSelector: Selector, types: seq<string>,
      ingress: seq<RuleSpec>, egress: seq<RuleSpec>)

  // ---------- what is built ----------

  function OneOrNone<T>(o: Option<T>): seq<T> { if o.Some? then [o.value] else [] }

  function PodsOf(peers: seq<PeerSpec>): seq<Selector> {
    if peers == [] then [] else PodsOf(peers[..|peers| - 1]) + OneOrNone(peers[|peers| - 1].podSelector)
  }

  function NamespacesOf(peers: seq<PeerSpec>): seq<Selector> {
    if peers == [] then [] else NamespacesOf(peers[..|peers| - 1]) + OneOrNone(peers[|peers| - 1].namespaceSelector)
  }

  function BlocksOf(peers: seq<PeerSpec>): seq<IpBlock> {
    if peers == [] then [] else BlocksOf(peers[..|peers| - 1]) + OneOrNone(peers[|peers| - 1].ipBlock)
  }

  function RuleOf(r: RuleSpec): PeerRule { PeerRule(r.ports, PodsOf(r.peers), NamespacesOf(r.peers),
                  BlocksOf(r.peers)) }

  function RulesOf(rs: seq<RuleSpec>): (out: seq<PeerRule>)
    ensures |out| == |rs| && forall i :: 0 <= i < |rs| ==> out[i] == RuleOf(rs[i])
  {
    if rs == [] then [] else RulesOf(rs[..|rs| - 1]) + [RuleOf(rs[|rs| - 1])]
  }

  function TypeName(d: Direction): string { if d.Ingress? then "Ingress" else "Egress" }

  function TypesOf(types: seq<string>): seq<Direction> {
    if types == [] then []
    else
      var last := types[|types| - 1];
      TypesOf(types[..|types| - 1]) + if last == "Ingress" then [Ingress] else if last == "Egress" then [Egress] else []
  }

  function PolicyOf(spec: PolicySpec): Policy {
    Policy(spec.name, spec.ns, spec.podSelector, RulesOf(spec.ingress), RulesOf(spec.egress), TypesOf(spec.types))
  }

  /** The view of a policy; no policy has none. */
  function PolicyView(spec: Option<PolicySpec>): Option<Policy> {
    if spec.None? then None else Some(PolicyOf(spec.value))
  }

  // ---------- the loops ----------

  method BuildTypes(types: seq<string>) returns (policyType: seq<Direction>)
    ensures policyType == TypesOf(types)
  {
    policyType := [];
    for i := 0 to |types|
      invariant policyType == TypesOf(types[..i])
    {
      assert types[..i + 1][..i] == types[..i];
      if types[i] == "Ingress" {
        policyType := policyType + [Ingress];
      } else if types[i] == "Egress" {
        policyType := policyType + [Egress];
      }
    }
    assert types[..|types|] == types;
  }

  method CopyExcept(except: seq<string>) returns (exceptCIDR: seq<string>)
    ensures exceptCIDR == except
  {
    exceptCIDR := [];
    for i := 0 to |except|
      invariant exceptCIDR == except[..i]
    {
      exceptCIDR := exceptCIDR + [except[i]];
    }
  }

  method BuildRule(r: RuleSpec) returns (rule: PeerRule)
    ensures rule == RuleOf(r)
  {
    var ports: seq<Port>, pods: seq<Selector>, namespaces: seq<Selector>, blocks: seq<IpBlock> := [], [], [], [];
    for i := 0 to |r.ports|
      invariant ports == r.ports[..i]
    {
      ports := ports + [r.ports[i]];
    }
    for i := 0 to |r.peers|
      invariant pods == PodsOf(r.peers[..i]) && namespaces == NamespacesOf(r.peers[..i])
                && blocks == BlocksOf(r.peers[..i])
    {
      assert r.peers[..i + 1][..i] == r.peers[..i];
      var peer := r.peers[i];
      if peer.podSelector.Some? {
        pods := pods + [peer.podSelector.value];
      }
      if peer.namespaceSelector.Some? {
        namespaces := namespaces + [peer.namespaceSelector.value];
      }
      if peer.ipBlock.Some? {
        var except := CopyExcept(peer.ipBlock.value.except);
        blocks := blocks + [IpBlock(peer.ipBlock.value.cidr, except)];
      }
    }
    assert r.peers[..|r.peers|] == r.peers;
    rule := PeerRule(ports, pods, namespaces, blocks);
  }

  method BuildRules(rs: seq<RuleSpec>) returns (rules: seq<PeerRule>)
    ensures rules == RulesOf(rs)
  {
    rules := [];
    for i := 0 to |rs|
      invariant |rules| == i && forall j :: 0 <= j < i ==> rules[j] == RuleOf(rs[j])
    {
      var rule := BuildRule(rs[i]);
      rules := rules + [rule];
    }
  }

  /** buildNetworkPolicyInfo. */
  method BuildNetworkPolicyInfo(networkPolicy: Option<PolicySpec>) returns (policy: Option<Policy>)
    ensures policy == PolicyView(networkPolicy)
  {
    if networkPolicy.None? {
      return None;
    }
    var spec := networkPolicy.value;
    var policyType := BuildTypes(spec.types);
    var ingress := BuildRules(spec.ingress);
    var egress := BuildRules(spec.egress);
    return Some(Policy(spec.name, spec.ns, spec.podSelector, ingress, egress, policyType));
  }

  // ---------- what it means ----------

  /** A direction is governed exactly when its type is listed; a policy without types governs nothing. */
  lemma {:induction false} TypesListed(types: seq<string>, d: Direction)
    ensures d in TypesOf(types) <==> TypeName(d) in types
  {
    if types != [] {
      var n := |types| - 1;
      TypesListed(types[..n], d);
      assert types == types[..n] + [types[n]];
      assert "Ingress"[0] != "Egress"[0];
    }
  }

  lemma {:induction false} PodsConcat(a: seq<PeerSpec>, b: seq<PeerSpec>)
    ensures PodsOf(a + b) == PodsOf(a) + PodsOf(b)
  {
    if b == [] {
      assert a + b == a;
    } else {
      var n := |b| - 1;
      assert (a + b)[..|a + b| - 1] == a + b[..n];
      PodsConcat(a, b[..n]);
    }
  }

  lemma {:induction false} NamespacesConcat(a: seq<PeerSpec>, b: seq<PeerSpec>)
    ensures NamespacesOf(a + b) == NamespacesOf(a) + NamespacesOf(b)
  {
    if b == [] {
      assert a + b == a;
    } else {
      var n := |b| - 1;
      assert (a + b)[..|a + b| - 1] == a + b[..n];
      NamespacesConcat(a, b[..n]);
    }
  }

  lemma {:induction false} BlocksConcat(a: seq<PeerSpec>, b: seq<PeerSpec>)
    ensures BlocksOf(a + b) == BlocksOf(a) + BlocksOf(b)
  {
    if b == [] {
      assert a + b == a;
    } else {
      var n := |b| - 1;
      assert (a + b)[..|a + b| - 1] == a + b[..n];
      BlocksConcat(a, b[..n]);
    }
  }

  /** A peer with up to three parts, as peers with one part each. */
  function Alternatives(p: PeerSpec): seq<PeerSpec> {
    [PeerSpec(p.podSelector, None, None), PeerSpec(None, p.namespaceSelector, None), PeerSpec(None, None, p.ipBlock)]
  }

  lemma PodsSplit(before: seq<PeerSpec>, p: PeerSpec, after: seq<PeerSpec>)
    ensures PodsOf(before + [p] + after) == PodsOf(before + Alternatives(p) + after)
  {
    var all := Alternatives(p);
    assert all[..2][..1] == [all[0]] && all[..1] == [all[0]] && all[..2] == [all[0], all[1]] && [all[0]][..0] == []
           && [p][..0] == [];
    assert PodsOf([]) == [] && PodsOf(all[..1]) == OneOrNone(all[0].podSelector)
           && PodsOf(all[..2]) == OneOrNone(all[0].podSelector) + OneOrNone(all[1].podSelector);
    assert PodsOf(all) == OneOrNone(p.podSelector) == PodsOf([p]);
    PodsConcat(before, [p]);
    PodsConcat(before + [p], after);
    PodsConcat(before, all);
    PodsConcat(before + all, after);
  }

  lemma NamespacesSplit(before: seq<PeerSpec>, p: PeerSpec, after: seq<PeerSpec>)
    ensures NamespacesOf(before + [p] + after) == NamespacesOf(before + Alternatives(p) + after)
  {
    var all := Alternatives(p);
    assert all[..2][..1] == [all[0]] && all[..1] == [all[0]] && all[..2] == [all[0], all[1]] && [all[0]][..0] == []
           && [p][..0] == [];
    assert NamespacesOf([]) == [] && NamespacesOf(all[..1]) == OneOrNone(all[0].namespaceSelector)
           && NamespacesOf(all[..2]) == OneOrNone(all[0].namespaceSelector) + OneOrNone(all[1].namespaceSelector);
    assert NamespacesOf(all) == OneOrNone(p.namespaceSelector) == NamespacesOf([p]);
    NamespacesConcat(before, [p]);
    NamespacesConcat(before + [p], after);
    NamespacesConcat(before, all);
    NamespacesConcat(before + all, after);
  }

  lemma BlocksSplit(before: seq<PeerSpec>, p: PeerSpec, after: seq<PeerSpec>)
    ensures BlocksOf(before + [p] + after) == BlocksOf(before + Alternatives(p) + after)
  {
    var all := Alternatives(p);
    assert all[..2][..1] == [all[0]] && all[..1] == [all[0]] && all[..2] == [all[0], all[1]] && [all[0]][..0] == []
           && [p][..0] == [];
    assert BlocksOf([]) == [] && BlocksOf(all[..1]) == OneOrNone(all[0].ipBlock)
           && BlocksOf(all[..2]) == OneOrNone(all[0].ipBlock) + OneOrNone(all[1].ipBlock);
    assert BlocksOf(all) == OneOrNone(p.ipBlock) == BlocksOf([p]);
    BlocksConcat(before, [p]);
    BlocksConcat(before + [p], after);
    BlocksConcat(before, all);
    BlocksConcat(before + all, after);
  }

  /**
   * A peer that gives a pod selector, a namespace selector and a block is kept as three alternatives:
   * it compiles to the same rule as three peers that give one each.
   */
  lemma PeersAreAlternatives(ports: seq<Port>, before: seq<PeerSpec>, p: PeerSpec, after: seq<PeerSpec>)
    ensures RuleOf(RuleSpec(ports, before + [p] + after)) == RuleOf(RuleSpec(ports, before + Alternatives(p) + after))
  {
    PodsSplit(before, p, after);
    NamespacesSplit(before, p, after);
    BlocksSplit(before, p, after);
  }

  lemma {:induction false} PodsListed(peers: seq<PeerSpec>, m: Selector)
    ensures m in PodsOf(peers) <==> exists peer :: peer in peers && peer.podSelector == Some(m)
  {
    if peers != [] {
      var n := |peers| - 1;
      PodsListed(peers[..n], m);
      assert peers == peers[..n] + [peers[n]];
    }
  }

  lemma {:induction false} NamespacesListed(peers: seq<PeerSpec>, m: Selector)
    ensures m in NamespacesOf(peers) <==> exists peer :: peer in peers && peer.namespaceSelector == Some(m)
  {
    if peers != [] {
      var n := |peers| - 1;
      NamespacesListed(peers[..n], m);
      assert peers == peers[..n] + [peers[n]];
    }
  }

  lemma {:induction false} BlocksListed(peers: seq<PeerSpec>, b: IpBlock)
    ensures b in BlocksOf(peers) <==> exists peer :: peer in peers && peer.ipBlock == Some(b)
  {
    if peers != [] {
      var n := |peers| - 1;
      BlocksListed(peers[..n], b);
      assert peers == peers[..n] + [peers[n]];
    }
  }

  /** A selector that is given asks for the pair. */
  predicate Picks(selector: Option<Selector>, pair: Label) {
    selector.Some? && pair.key in selector.value && selector.value[pair.key] == pair.value
  }

  lemma PairOf(m: Selector, pair: Label)
    ensures pair in Pairs(m) <==> Picks(Some(m), pair)
  {}

  lemma PodClauses(r: RuleSpec, pair: Label)
    ensures (exists i :: 0 <= i < |PodsOf(r.peers)| && pair in Pairs(PodsOf(r.peers)[i]))
       <==> exists peer :: peer in r.peers && Picks(peer.podSelector, pair)
  {
    var all := PodsOf(r.peers);
    if i :| 0 <= i < |all| && pair in Pairs(all[i]) {
      PodsListed(r.peers, all[i]);
      PairOf(all[i], pair);
    }
    if peer :| peer in r.peers && Picks(peer.podSelector, pair) {
      PodsListed(r.peers, peer.podSelector.value);
      PairOf(peer.podSelector.value, pair);
    }
  }

  lemma NamespaceClauses(r: RuleSpec, pair: Label)
    ensures (exists i :: 0 <= i < |NamespacesOf(r.peers)| && pair in Pairs(NamespacesOf(r.peers)[i]))
       <==> exists peer :: peer in r.peers && Picks(peer.namespaceSelector, pair)
  {
    var all := NamespacesOf(r.peers);
    if i :| 0 <= i < |all| && pair in Pairs(all[i]) {
      NamespacesListed(r.peers, all[i]);
      PairOf(all[i], pair);
    }
    if peer :| peer in r.peers && Picks(peer.namespaceSelector, pair) {
      NamespacesListed(r.peers, peer.namespaceSelector.value);
      PairOf(peer.namespaceSelector.value, pair);
    }
  }

  lemma NothingAdded<T>(s: seq<T>, o: Option<T>)
    ensures s + OneOrNone(o) == [] <==> s == [] && o.None?
  {
    assert |s + OneOrNone(o)| == |s| + if o.Some? then 1 else 0;
  }

  ghost predicate Bare(peers: seq<PeerSpec>) {
    forall peer :: peer in peers ==> peer == PeerSpec(None, None, None)
  }

  lemma BareMore(peers: seq<PeerSpec>, last: PeerSpec)
    ensures Bare(peers + [last])
       <==> Bare(peers) && last.podSelector.None? && last.namespaceSelector.None? && last.ipBlock.None?
  {
    assert last in peers + [last];
    assert forall peer :: peer in peers ==> peer in peers + [last];
  }

  lemma {:induction false} NoPeers(peers: seq<PeerSpec>)
    ensures PodsOf(peers) == [] && NamespacesOf(peers) == [] && BlocksOf(peers) == [] <==> Bare(peers)
  {
    if peers != [] {
      var n := |peers| - 1;
      assert peers == peers[..n] + [peers[n]];
      NoPeers(peers[..n]);
      BareMore(peers[..n], peers[n]);
      NothingAdded(PodsOf(peers[..n]), peers[n].podSelector);
      NothingAdded(NamespacesOf(peers[..n]), peers[n].namespaceSelector);
      NothingAdded(BlocksOf(peers[..n]), peers[n].ipBlock);
    }
  }

  /** What a reported rule has, read off its own fields. */
  ghost predicate Reports(r: RuleSpec, c: Clause) {
    && c.ports == r.ports
    && match c
       case OnlyPorts(_) => r.ports != [] && Bare(r.peers)
       case PodPeer(pair, _) =>
         exists peer :: peer in r.peers && Picks(peer.podSelector, pair)
       case NamespacePeer(pair, _) =>
         exists peer :: peer in r.peers && Picks(peer.namespaceSelector, pair)
       case BlockPeer(block, _) => exists peer :: peer in r.peers && peer.ipBlock == Some(block)
  }

  lemma RuleReports(r: RuleSpec, c: Clause)
    ensures RuleHas(RuleOf(r), c) <==> Reports(r, c)
  {
    var rule := RuleOf(r);
    assert rule.pods == PodsOf(r.peers) && rule.namespaces == NamespacesOf(r.peers) && rule.blocks == BlocksOf(r.peers);
    match c
    case OnlyPorts(_) =>
      NoPeers(r.peers);
    case PodPeer(pair, _) =>
      PodClauses(r, pair);
    case NamespacePeer(pair, _) =>
      NamespaceClauses(r, pair);
    case BlockPeer(block, _) =>
      BlocksListed(r.peers, block);
  }

  lemma RulesReport(rs: seq<RuleSpec>, c: Clause)
    ensures RulesHave(RulesOf(rs), c) <==> exists r :: r in rs && Reports(r, c)
  {
    var out := RulesOf(rs);
    if r :| r in out && RuleHas(r, c) {
      var i :| 0 <= i < |out| && out[i] == r;
      RuleReports(rs[i], c);
      assert rs[i] in rs;
    }
    if r :| r in rs && Reports(r, c) {
      var i :| 0 <= i < |rs| && rs[i] == r;
      RuleReports(r, c);
      assert out[i] in out;
    }
  }

  /**
   * A built policy has exactly the clauses that are reported: those of a rule of the direction's own
   * list, when the direction's type is listed; and it is about the pods it is reported to be about.
   */
  lemma BuiltMeans(spec: PolicySpec, c: Clause)
    ensures var p := PolicyOf(spec); p.name == spec.name && p.ns == spec.ns && p.selector == spec.podSelector
    ensures PolicyHas(PolicyOf(spec), Ingress, c)
       <==> "Ingress" in spec.types && exists r :: r in spec.ingress && Reports(r, c)
    ensures PolicyHas(PolicyOf(spec), Egress, c)
       <==> "Egress" in spec.types && exists r :: r in spec.egress && Reports(r, c)
    ensures Ingress in PolicyOf(spec).types <==> "Ingress" in spec.types
    ensures Egress in PolicyOf(spec).types <==> "Egress" in spec.types
  {
    TypesListed(spec.types, Ingress);
    TypesListed(spec.types, Egress);
    RulesReport(spec.ingress, c);
    RulesReport(spec.egress, c);
  }
}
