/** The part of iptables and ipset the controller relies on: rules, restore scripts, packets. */
module Netfilter {
  import opened Options
  import opened Names

  // ---------- rules and sets ----------

  datatype Side = Src | Dst

  datatype Match =
    | MatchSet(name: SetName, side: Side)
    | MatchNet(cidr: string, side: Side)
    | MatchProtocol(protocol: string)
    | MatchPort(port: string)
    | Established
    | Opaque(text: string)

  datatype Target = Accept | Reject | Jump(chain: Chain) | Elsewhere(text: string)

  datatype Rule = Rule(matches: seq<Match>, target: Target)

  type Table = map<Chain, seq<Rule>>

  datatype SetKind = HashIp | HashNet

  datatype IpSet = IpSet(kind: SetKind, members: set<string>)

  type Sets = map<SetName, IpSet>

  // ---------- packets ----------

  datatype Packet = Packet(src: string, dst: string, protocol: string, port: string, established: bool) {
    function Address(side: Side): string { if side.Src? then src else dst }
    function Swap(): Packet { this.(src := dst, dst := src) }
  }

  /** What rules look at besides the packet: the kernel's sets and CIDR membership. */
  datatype World = World(sets: Sets, inNet: (string, string) -> bool, opaquely: (string, Packet) -> bool) {
    ghost predicate Has(name: SetName, address: string) {
      name in sets &&
      match sets[name].kind
      case HashIp => address in sets[name].members
      case HashNet => exists net :: net in sets[name].members && inNet(net, address)
    }
  }

  ghost predicate Holds(w: World, m: Match, p: Packet) {
    match m
    case MatchSet(name, side) => w.Has(name, p.Address(side))
    case MatchNet(cidr, side) => w.inNet(cidr, p.Address(side))
    case MatchProtocol(protocol) => p.protocol == protocol
    case MatchPort(port) => p.port == port
    case Established => p.established
    case Opaque(text) => w.opaquely(text, p)
  }

  ghost predicate AllHold(w: World, ms: seq<Match>, p: Packet) {
    forall i :: 0 <= i < |ms| ==> Holds(w, ms[i], p)
  }

  // ---------- evaluation ----------

  /** Pass is running off the end of a chain; Stuck is a jump that does not descend, or leaves the model. */
  datatype Verdict = Accepted | Rejected | Pass | Stuck

  function Rank(c: Chain): nat {
    match c
    case EnnInput | EnnOutput | EnnForward => 4
    case NsIn(_) | NsOut(_) => 3
    case PlyIn(_) | PlyOut(_) => 2
    case Dispatch(_) => 1
    case IpCidr(_) => 0
    case Foreign(_) => 5
  }

  /** First match decides; a jump that passes is resumed after. */
  ghost function EvalRules(w: World, t: Table, rank: nat, rules: seq<Rule>, p: Packet): Verdict
    decreases rank, |rules|, 1
  {
    if rules == [] then Pass
    else
      var v := EvalRule(w, t, rank, rules[0], p);
      if v == Pass then EvalRules(w, t, rank, rules[1..], p) else v
  }

  ghost function EvalRule(w: World, t: Table, rank: nat, rule: Rule, p: Packet): Verdict
    decreases rank, 0, 0
  {
    if !AllHold(w, rule.matches, p) then Pass
    else
      match rule.target
      case Accept => Accepted
      case Reject => Rejected
      case Elsewhere(_) => Stuck
      case Jump(c) => if c in t && Rank(c) < rank then EvalRules(w, t, Rank(c), t[c], p) else Stuck
  }

  ghost function Eval(w: World, t: Table, c: Chain, p: Packet): Verdict
    requires c in t
  {
    EvalRules(w, t, Rank(c), t[c], p)
  }

  lemma {:induction false} EvalConcat(w: World, t: Table, rank: nat, a: seq<Rule>, b: seq<Rule>, p: Packet)
    ensures EvalRules(w, t, rank, a + b, p)
         == if EvalRules(w, t, rank, a, p) == Pass then EvalRules(w, t, rank, b, p) else EvalRules(w, t, rank, a, p)
  {
    if a == [] {
      assert a + b == b;
    } else {
      assert (a + b)[1..] == a[1..] + b;
      EvalConcat(w, t, rank, a[1..], b, p);
    }
  }

  lemma EvalOne(w: World, t: Table, rank: nat, rule: Rule, p: Packet)
    ensures EvalRules(w, t, rank, [rule], p) == EvalRule(w, t, rank, rule, p)
  {
    assert [rule][1..] == [];
  }

  /** Rules that all do the same: the result is that of the first that matches, or Pass. */
  lemma {:induction false} EvalUniform(w: World, t: Table, rank: nat, rules: seq<Rule>, target: Target, p: Packet)
    requires forall i :: 0 <= i < |rules| ==> rules[i].target == target
    ensures EvalRules(w, t, rank, rules, p)
         == if exists i :: 0 <= i < |rules| && AllHold(w, rules[i].matches, p)
             then EvalRule(w, t, rank, Rule([], target), p) else Pass
  {
    if rules != [] {
      EvalUniform(w, t, rank, rules[1..], target, p);
      assert forall i :: 0 <= i < |rules| - 1 ==> rules[1..][i] == rules[i + 1];
      if AllHold(w, rules[0].matches, p) {
        assert EvalRule(w, t, rank, rules[0], p) == EvalRule(w, t, rank, Rule([], target), p);
      } else if exists i :: 0 <= i < |rules| && AllHold(w, rules[i].matches, p) {
        var i :| 0 <= i < |rules| && AllHold(w, rules[i].matches, p);
        assert AllHold(w, rules[1..][i - 1].matches, p);
      }
    }
  }

  /** Every jump of a chain below the foreign ones goes to an existing chain of lower rank. */
  ghost predicate Descends(t: Table) {
    forall c, i :: c in t && !c.Foreign? && 0 <= i < |t[c]| ==>
      match t[c][i].target
      case Accept => true
      case Reject => true
      case Elsewhere(_) => false
      case Jump(to) => to in t && Rank(to) < Rank(c)
  }

  /** In a descending table evaluation ends with a real verdict or falls off the end. */
  lemma {:induction false} NeverStuck(w: World, t: Table, c: Chain, rules: seq<Rule>, p: Packet)
    requires Descends(t) && c in t && !c.Foreign?
    requires forall i :: 0 <= i < |rules| ==> rules[i] in t[c]
    ensures EvalRules(w, t, Rank(c), rules, p) != Stuck
    decreases Rank(c), |rules|
  {
    if rules != [] {
      assert rules[0] in t[c];
      var i :| 0 <= i < |t[c]| && t[c][i] == rules[0];
      if AllHold(w, rules[0].matches, p) && rules[0].target.Jump? {
        var to := rules[0].target.chain;
        assert to in t && Rank(to) < Rank(c);
        NeverStuck(w, t, to, t[to], p);
      }
      assert forall k :: 0 <= k < |rules| - 1 ==> rules[1..][k] == rules[k + 1];
      NeverStuck(w, t, c, rules[1..], p);
    }
  }

  // ---------- restore scripts ----------

  datatype Cmd =
    | Append(chain: Chain, rule: Rule)
    | Insert(chain: Chain, rule: Rule)
    | Delete(chain: Chain)

  predicate RefersTo(rule: Rule, name: SetName) {
    exists m :: m in rule.matches && m.MatchSet? && m.name == name
  }

  predicate SetReferenced(t: Table, name: SetName) {
    exists c, i :: c in t && 0 <= i < |t[c]| && RefersTo(t[c][i], name)
  }

  predicate ChainReferenced(t: Table, to: Chain) {
    exists c, i :: c in t && 0 <= i < |t[c]| && t[c][i].target == Jump(to)
  }

  /** A rule is taken when its sets and the chain it jumps to exist. */
  predicate RuleFits(chains: set<Chain>, sets: set<SetName>, rule: Rule) {
    && (rule.target.Jump? ==> rule.target.chain in chains)
    && (forall m :: m in rule.matches && m.MatchSet? ==> m.name in sets)
  }

  /** A chain line makes the chain, or flushes it when it exists (--noflush keeps the rest). */
  function Declare(t: Table, chains: seq<Chain>): Table {
    if chains == [] then t else Declare(t, chains[..|chains| - 1])[chains[|chains| - 1] := []]
  }

  function Step(t: Table, sets: set<SetName>, cmd: Cmd): Option<Table> {
    match cmd
    case Append(c, rule) => if c in t && RuleFits(t.Keys, sets, rule) then Some(t[c := t[c] + [rule]]) else None
    case Insert(c, rule) => if c in t && RuleFits(t.Keys, sets, rule) then Some(t[c := [rule] + t[c]]) else None
    case Delete(c) => if c in t && t[c] == [] && !ChainReferenced(t, c) then Some(t - {c}) else None
  }

  function Run(t: Table, sets: set<SetName>, cmds: seq<Cmd>): Option<Table> {
    if cmds == [] then Some(t)
    else
      var before := Run(t, sets, cmds[..|cmds| - 1]);
      if before.None? then None else Step(before.value, sets, cmds[|cmds| - 1])
  }

  /** iptables-restore commits all of a script or nothing. */
  function Restore(t: Table, sets: set<SetName>, chains: seq<Chain>, cmds: seq<Cmd>): Option<Table> {
    Run(Declare(t, chains), sets, cmds)
  }

  lemma {:induction false} RunConcat(t: Table, sets: set<SetName>, a: seq<Cmd>, b: seq<Cmd>)
    ensures Run(t, sets, a + b)
         == if Run(t, sets, a).None? then None else Run(Run(t, sets, a).value, sets, b)
  {
    if b == [] {
      assert a + b == a;
    } else {
      var n := |b| - 1;
      assert (a + b)[..|a + b| - 1] == a + b[..n];
      RunConcat(t, sets, a, b[..n]);
    }
  }

  lemma {:induction false} DeclareIs(t: Table, chains: seq<Chain>)
    ensures Declare(t, chains).Keys == t.Keys + set c | c in chains
    ensures forall c :: c in Declare(t, chains) ==> Declare(t, chains)[c] == if c in chains then [] else t[c]
  {
    if chains != [] {
      var n := |chains| - 1;
      assert chains == chains[..n] + [chains[n]];
      DeclareIs(t, chains[..n]);
    }
  }

  // ---------- scripts that only build ----------

  ghost predicate Builds(chains: set<Chain>, sets: set<SetName>, cmd: Cmd) {
    !cmd.Delete? && cmd.chain in chains && RuleFits(chains, sets, cmd.rule)
  }

  /** What a building script makes of the rules a chain starts with. */
  ghost function Extend(rules: seq<Rule>, c: Chain, cmds: seq<Cmd>): seq<Rule> {
    if cmds == [] then rules
    else
      var before := Extend(rules, c, cmds[..|cmds| - 1]);
      match cmds[|cmds| - 1]
      case Append(c', rule) => if c' == c then before + [rule] else before
      case Insert(c', rule) => if c' == c then [rule] + before else before
      case Delete(_) => before
  }

  ghost function Extended(t: Table, cmds: seq<Cmd>): Table {
    map c | c in t :: Extend(t[c], c, cmds)
  }

  lemma {:induction false} RunBuilds(t: Table, sets: set<SetName>, cmds: seq<Cmd>)
    requires forall i :: 0 <= i < |cmds| ==> Builds(t.Keys, sets, cmds[i])
    ensures Run(t, sets, cmds) == Some(Extended(t, cmds))
  {
    if cmds == [] {
      assert Extended(t, cmds) == t;
    } else {
      var n := |cmds| - 1;
      RunBuilds(t, sets, cmds[..n]);
      var before := Extended(t, cmds[..n]);
      assert before.Keys == t.Keys;
      assert Builds(t.Keys, sets, cmds[n]);
      assert Step(before, sets, cmds[n]).value == Extended(t, cmds);
    }
  }

  lemma {:induction false} ExtendConcat(rules: seq<Rule>, c: Chain, a: seq<Cmd>, b: seq<Cmd>)
    ensures Extend(rules, c, a + b) == Extend(Extend(rules, c, a), c, b)
  {
    if b == [] {
      assert a + b == a;
    } else {
      var n := |b| - 1;
      assert (a + b)[..|a + b| - 1] == a + b[..n];
      ExtendConcat(rules, c, a, b[..n]);
    }
  }

  /** Without insertions a script only adds at the end. */
  lemma {:induction false} ExtendAppends(rules: seq<Rule>, c: Chain, cmds: seq<Cmd>)
    requires forall i :: 0 <= i < |cmds| ==> cmds[i].Append?
    ensures Extend(rules, c, cmds) == rules + Extend([], c, cmds)
  {
    if cmds != [] {
      ExtendAppends(rules, c, cmds[..|cmds| - 1]);
    }
  }

  // ---------- scripts that only delete ----------

  ghost function Deletes(chains: seq<Chain>): seq<Cmd> {
    if chains == [] then [] else Deletes(chains[..|chains| - 1]) + [Delete(chains[|chains| - 1])]
  }

  ghost function Without(t: Table, chains: seq<Chain>): Table {
    t - set c | c in chains
  }

  lemma FewerReferences(t: Table, t': Table, to: Chain)
    requires forall c :: c in t' ==> c in t && t'[c] == t[c]
    ensures ChainReferenced(t', to) ==> ChainReferenced(t, to)
  {
    if ChainReferenced(t', to) {
      var c, i :| c in t' && 0 <= i < |t'[c]| && t'[c][i].target == Jump(to);
      assert t[c][i].target == Jump(to);
    }
  }

  lemma WithoutLast(t: Table, sets: set<SetName>, chains: seq<Chain>)
    requires chains != [] && chains[|chains| - 1] !in chains[..|chains| - 1]
    requires chains[|chains| - 1] in t && t[chains[|chains| - 1]] == [] && !ChainReferenced(t, chains[|chains| - 1])
    ensures Step(Without(t, chains[..|chains| - 1]), sets, Delete(chains[|chains| - 1])) == Some(Without(t, chains))
  {
    var n := |chains| - 1;
    var last, before := chains[n], Without(t, chains[..n]);
    FewerReferences(t, before, last);
    assert chains == chains[..n] + [last];
    assert before - {last} == Without(t, chains);
  }

  /** Empty chains nothing jumps to can all be deleted, one after the other. */
  lemma {:induction false} RunDeletes(t: Table, sets: set<SetName>, chains: seq<Chain>)
    requires forall i, j :: 0 <= i < j < |chains| ==> chains[i] != chains[j]
    requires forall i :: 0 <= i < |chains| ==> chains[i] in t && t[chains[i]] == [] && !ChainReferenced(t, chains[i])
    ensures Run(t, sets, Deletes(chains)) == Some(Without(t, chains))
  {
    if chains == [] {
      assert Without(t, chains) == t;
    } else {
      var n := |chains| - 1;
      RunDeletes(t, sets, chains[..n]);
      WithoutLast(t, sets, chains);
      assert Deletes(chains)[..|Deletes(chains)| - 1] == Deletes(chains[..n]);
    }
  }
}
