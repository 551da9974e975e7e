/** What the order in which the policies are walked can and cannot change. */
module WalkOrder {
  import opened Names
  import opened Naming
  import opened Netfilter
  import opened Orders
  import opened Policies
  import opened Compiler
  import opened Verdicts
  import opened Entries

  // ---------- the policies of a walk, one by one ----------

  /** Each policy with one listing of its rules. */
  ghost predicate Listing(listed: map<Key, ListedPolicy>, policies: map<Key, Policy>) {
    && listed.Keys == policies.Keys
    && forall k ::
         k in policies
         ==> listed[k].policy == policies[k] && ListsPolicy(listed[k]) && k == Key(policies[k].ns, policies[k].name)
  }

  function WalkBy(listed: map<Key, ListedPolicy>, order: seq<Key>): (ls: seq<ListedPolicy>)
    requires forall k :: k in order ==> k in listed
    ensures |ls| == |order| && forall i :: 0 <= i < |ls| ==> ls[i] == listed[order[i]]
  {
    seq(|order|, (i: int) requires 0 <= i < |order| => assert order[i] in order; listed[order[i]])
  }

  lemma WalkByWalks(listed: map<Key, ListedPolicy>, order: seq<Key>, policies: map<Key, Policy>)
    requires Listing(listed, policies) && Enumerates(order, policies.Keys)
    ensures Walks(WalkBy(listed, order), order, policies)
  {
    forall i | 0 <= i < |order| ensures order[i] in policies {
      assert order[i] in order;
    }
  }

  /** What one policy decides by itself. */
  ghost function Alone(w: World, nm: Namer, l: ListedPolicy, ns: string, d: Direction, p: Packet): Verdict
    requires |l.sections| == |l.policy.types|
  {
    FirstVerdict(w, nm, PolicyItems(l), PolicyItems(l), ns, d, p)
  }

  lemma {:induction false} FirstConcat(w: World, nm: Namer, items: seq<Item>, a: seq<Item>, b: seq<Item>, ns: string,
                                       d: Direction, p: Packet)
    ensures FirstVerdict(w, nm, items, a + b, ns, d, p)
         == if FirstVerdict(w, nm, items, a, ns, d, p) != Pass then FirstVerdict(w, nm, items, a, ns, d, p)
             else FirstVerdict(w, nm, items, b, ns, d, p)
  {
    if b == [] {
      assert a + b == a;
    } else {
      var n := |b| - 1;
      assert (a + b)[..|a + b| - 1] == a + b[..n];
      FirstConcat(w, nm, items, a, b[..n], ns, d, p);
    }
  }

  lemma {:induction false} SameGroups(w: World, nm: Namer, items: seq<Item>, items': seq<Item>, walked: seq<Item>,
                                      ns: string, d: Direction, p: Packet)
    requires forall item ::
               item in walked && item.Peer?
               ==> (GroupMatch(w, nm, items, GroupOf(item), p) <==> GroupMatch(w, nm, items', GroupOf(item), p))
    ensures FirstVerdict(w, nm, items, walked, ns, d, p) == FirstVerdict(w, nm, items', walked, ns, d, p)
  {
    if walked != [] {
      var n := |walked| - 1;
      assert walked == walked[..n] + [walked[n]];
      SameGroups(w, nm, items, items', walked[..n], ns, d, p);
      assert walked[n] in walked;
    }
  }

  lemma OwnerIs(policies: map<Key, Policy>, listed: map<Key, ListedPolicy>, k: Key, other: Key, item: Item,
                theirs: Item)
    requires Listing(listed, policies) && k in policies && other in policies
    requires ItemOf(policies[k], item) && ItemOf(policies[other], theirs) && item.Peer? && theirs.Peer?
             && GroupOf(theirs) == GroupOf(item)
    ensures other == k
  {}

  lemma GroupFromWalk(w: World, nm: Namer, listed: map<Key, ListedPolicy>, order: seq<Key>,
                      policies: map<Key, Policy>, k: Key, item: Item, p: Packet)
    requires Listing(listed, policies) && Enumerates(order, policies.Keys) && k in policies
             && item in PolicyItems(listed[k]) && item.Peer?
    requires GroupMatch(w, nm, WalkItems(WalkBy(listed, order)), GroupOf(item), p)
    ensures GroupMatch(w, nm, PolicyItems(listed[k]), GroupOf(item), p)
  {
    var ls := WalkBy(listed, order);
    var items := WalkItems(ls);
    WalkByWalks(listed, order, policies);
    PolicyItemsAre(listed[k], item);
    var j :| 0 <= j < |items| && items[j].Peer? && GroupOf(items[j]) == GroupOf(item) && ItemMatch(w, nm, items[j], p);
    var theirs := items[j];
    assert theirs in items;
    WalkVisits(ls, order, policies, theirs);
    var other :| other in policies && ItemOf(policies[other], theirs);
    OwnerIs(policies, listed, k, other, item, theirs);
    PolicyItemsAre(listed[k], theirs);
    GroupMatchBy(w, nm, PolicyItems(listed[k]), theirs, p);
  }

  lemma GroupMatchBy(w: World, nm: Namer, items: seq<Item>, item: Item, p: Packet)
    requires item in items && item.Peer? && ItemMatch(w, nm, item, p)
    ensures GroupMatch(w, nm, items, GroupOf(item), p)
  {
    var i :| 0 <= i < |items| && items[i] == item;
  }

  lemma GroupFromPolicy(w: World, nm: Namer, listed: map<Key, ListedPolicy>, order: seq<Key>,
                        policies: map<Key, Policy>, k: Key, item: Item, p: Packet)
    requires Listing(listed, policies) && Enumerates(order, policies.Keys) && k in policies && item.Peer?
    requires GroupMatch(w, nm, PolicyItems(listed[k]), GroupOf(item), p)
    ensures GroupMatch(w, nm, WalkItems(WalkBy(listed, order)), GroupOf(item), p)
  {
    var own := PolicyItems(listed[k]);
    var i :| 0 <= i < |own| && own[i].Peer? && GroupOf(own[i]) == GroupOf(item) && ItemMatch(w, nm, own[i], p);
    var mine := own[i];
    assert mine in own;
    PolicyItemsAre(listed[k], mine);
    WalkByWalks(listed, order, policies);
    WalkVisits(WalkBy(listed, order), order, policies, mine);
    GroupMatchBy(w, nm, WalkItems(WalkBy(listed, order)), mine, p);
  }

  /** A group belongs to one policy, so what the others list does not matter to it. */
  lemma GroupIsLocal(w: World, nm: Namer, listed: map<Key, ListedPolicy>, order: seq<Key>, policies: map<Key, Policy>,
                     k: Key, item: Item, p: Packet)
    requires Listing(listed, policies) && Enumerates(order, policies.Keys) && k in policies
             && item in PolicyItems(listed[k]) && item.Peer?
    ensures GroupMatch(w, nm, WalkItems(WalkBy(listed, order)), GroupOf(item), p)
            <==> GroupMatch(w, nm, PolicyItems(listed[k]), GroupOf(item), p)
  {
    if GroupMatch(w, nm, WalkItems(WalkBy(listed, order)), GroupOf(item), p) {
      GroupFromWalk(w, nm, listed, order, policies, k, item, p);
    }
    if GroupMatch(w, nm, PolicyItems(listed[k]), GroupOf(item), p) {
      GroupFromPolicy(w, nm, listed, order, policies, k, item, p);
    }
  }

  lemma PolicyInWalk(w: World, nm: Namer, listed: map<Key, ListedPolicy>, order: seq<Key>, policies: map<Key, Policy>,
                     k: Key, ns: string, d: Direction, p: Packet)
    requires Listing(listed, policies) && Enumerates(order, policies.Keys) && k in policies
    ensures FirstVerdict(w, nm, WalkItems(WalkBy(listed, order)), PolicyItems(listed[k]), ns, d, p)
                == Alone(w, nm, listed[k], ns, d, p)
  {
    forall item | item in PolicyItems(listed[k]) && item.Peer?
      ensures GroupMatch(w, nm, WalkItems(WalkBy(listed, order)), GroupOf(item), p)
              <==> GroupMatch(w, nm, PolicyItems(listed[k]), GroupOf(item), p)
    {
      GroupIsLocal(w, nm, listed, order, policies, k, item, p);
    }
    SameGroups(w, nm, WalkItems(WalkBy(listed, order)), PolicyItems(listed[k]), PolicyItems(listed[k]), ns, d, p);
  }

  /** The first policy of the order that decides by itself decides. */
  ghost function FirstAlone(w: World, nm: Namer, listed: map<Key, ListedPolicy>, order: seq<Key>, ns: string,
                            d: Direction, p: Packet): Verdict
    requires forall k :: k in order ==> k in listed && |listed[k].sections| == |listed[k].policy.types|
  {
    if order == [] then Pass
    else
      var n := |order| - 1;
      assert order[n] in order;
      assert forall k :: k in order[..n] ==> k in order;
      var before := FirstAlone(w, nm, listed, order[..n], ns, d, p);
      if before != Pass then before else Alone(w, nm, listed[order[n]], ns, d, p)
  }

  lemma WalkByMore(listed: map<Key, ListedPolicy>, order: seq<Key>, n: nat)
    requires 0 < n <= |order|
             && forall k :: k in order ==> k in listed && |listed[k].sections| == |listed[k].policy.types|
    ensures (forall k :: k in order[..n] ==> k in order) && (forall k :: k in order[..n - 1] ==> k in order)
            && order[n - 1] in order
    ensures WalkItems(WalkBy(listed, order[..n])) == WalkItems(WalkBy(listed, order[..n - 1]))
                + PolicyItems(listed[order[n - 1]])
  {
    var ls := WalkBy(listed, order[..n]);
    assert order[..n][n - 1] == order[n - 1];
    assert ls[..n - 1] == WalkBy(listed, order[..n - 1]);
    assert ls[n - 1] == listed[order[n - 1]];
  }

  lemma {:induction false} WalkDecides(w: World, nm: Namer, listed: map<Key, ListedPolicy>, order: seq<Key>, n: nat,
                                       policies: map<Key, Policy>, ns: string, d: Direction, p: Packet)
    requires Listing(listed, policies) && Enumerates(order, policies.Keys) && n <= |order|
    ensures forall k :: k in order[..n] ==> k in listed && |listed[k].sections| == |listed[k].policy.types|
    ensures FirstVerdict(w, nm, WalkItems(WalkBy(listed, order)), WalkItems(WalkBy(listed, order[..n])), ns, d, p)
                == FirstAlone(w, nm, listed, order[..n], ns, d, p)
  {
    assert forall k :: k in order[..n] ==> k in order;
    if n == 0 {
      assert order[..0] == [];
    } else {
      var k := order[n - 1];
      assert k in order;
      WalkDecides(w, nm, listed, order, n - 1, policies, ns, d, p);
      WalkByMore(listed, order, n);
      FirstConcat(w, nm, WalkItems(WalkBy(listed, order)), WalkItems(WalkBy(listed, order[..n - 1])),
          PolicyItems(listed[k]), ns, d, p);
      PolicyInWalk(w, nm, listed, order, policies, k, ns, d, p);
      FirstAloneMore(w, nm, listed, order, n, ns, d, p);
    }
  }

  lemma FirstAloneMore(w: World, nm: Namer, listed: map<Key, ListedPolicy>, order: seq<Key>, n: nat, ns: string,
                       d: Direction, p: Packet)
    requires 0 < n <= |order|
             && forall k :: k in order ==> k in listed && |listed[k].sections| == |listed[k].policy.types|
    ensures (forall k :: k in order[..n] ==> k in order) && (forall k :: k in order[..n - 1] ==> k in order)
            && order[n - 1] in order
    ensures FirstAlone(w, nm, listed, order[..n], ns, d, p)
         == if FirstAlone(w, nm, listed, order[..n - 1], ns, d, p) != Pass
             then FirstAlone(w, nm, listed, order[..n - 1], ns, d, p)
            else Alone(w, nm, listed[order[n - 1]], ns, d, p)
  {
    assert order[..n][..n - 1] == order[..n - 1];
  }

  lemma {:induction false} FirstAloneIs(w: World, nm: Namer, listed: map<Key, ListedPolicy>, order: seq<Key>,
                                        ns: string, d: Direction, p: Packet)
    requires forall k :: k in order ==> k in listed && |listed[k].sections| == |listed[k].policy.types|
    ensures var v := FirstAlone(w, nm, listed, order, ns, d, p);
            if v == Pass then forall k :: k in order ==> Alone(w, nm, listed[k], ns, d, p) == Pass
            else exists k :: k in order && Alone(w, nm, listed[k], ns, d, p) == v
    ensures order != [] && Alone(w, nm, listed[order[0]], ns, d, p) != Pass ==>
              FirstAlone(w, nm, listed, order, ns, d, p) == Alone(w, nm, listed[order[0]], ns, d, p)
  {
    if order != [] {
      var n := |order| - 1;
      assert order == order[..n] + [order[n]];
      FirstAloneIs(w, nm, listed, order[..n], ns, d, p);
    }
  }

  // ---------- when the order matters ----------

  /** One policy accepts the packet by itself and another excepts it. */
  ghost predicate Disagree(w: World, nm: Namer, listed: map<Key, ListedPolicy>, policies: map<Key, Policy>,
                           ns: string, d: Direction, p: Packet)
    requires Listing(listed, policies)
  {
    exists a, b ::
      a in policies && b in policies && Alone(w, nm, listed[a], ns, d, p) == Accepted
      && Alone(w, nm, listed[b], ns, d, p) == Rejected
  }

  ghost function WalkVerdict(w: World, nm: Namer, listed: map<Key, ListedPolicy>, policies: map<Key, Policy>,
                             order: seq<Key>, ns: string, d: Direction, p: Packet): Verdict
    requires Listing(listed, policies) && Enumerates(order, policies.Keys)
  {
    PolicyVerdict(w, nm, WalkItems(WalkBy(listed, order)), ns, d, p)
  }

  lemma WalkVerdictIs(w: World, nm: Namer, listed: map<Key, ListedPolicy>, policies: map<Key, Policy>,
                      order: seq<Key>, ns: string, d: Direction, p: Packet)
    requires Listing(listed, policies) && Enumerates(order, policies.Keys) && !p.established
    ensures WalkVerdict(w, nm, listed, policies, order, ns, d, p)
         == if FirstAlone(w, nm, listed, order, ns, d, p) == Pass then Rejected
             else FirstAlone(w, nm, listed, order, ns, d, p)
  {
    assert order[..|order|] == order;
    WalkDecides(w, nm, listed, order, |order|, policies, ns, d, p);
  }

  lemma AloneDecides(w: World, nm: Namer, l: ListedPolicy, ns: string, d: Direction, p: Packet)
    requires |l.sections| == |l.policy.types|
    ensures Alone(w, nm, l, ns, d, p) in {Pass, Accepted, Rejected}
  {
    var items := PolicyItems(l);
    FirstVerdictIs(w, nm, items, items, ns, d, p);
    if Alone(w, nm, l, ns, d, p) != Pass {
      var i :| 0 <= i < |items| && Belongs(items[i], ns, d)
          && GroupVerdict(w, nm, items, items[i], p) == Alone(w, nm, l, ns, d, p);
    }
  }

  /** An order that begins with a given key. */
  lemma OrderFrom(keys: set<Key>, k: Key) returns (order: seq<Key>)
    requires k in keys
    ensures Enumerates(order, keys) && order != [] && order[0] == k
  {
    var rest := AnyOrder(keys - {k});
    order := [k] + rest;
    forall i, j | 0 <= i < j < |order| ensures order[i] != order[j] {
      assert order[j] == rest[j - 1] && rest[j - 1] in rest;
    }
    forall x ensures x in order <==> x in keys {
      assert x in order <==> x == k || x in rest;
    }
  }

  lemma FirstPolicyDecides(w: World, nm: Namer, listed: map<Key, ListedPolicy>, policies: map<Key, Policy>, k: Key,
                           ns: string, d: Direction, p: Packet) returns (order: seq<Key>)
    requires Listing(listed, policies) && !p.established && k in policies && Alone(w, nm, listed[k], ns, d, p) != Pass
    ensures Enumerates(order, policies.Keys)
    ensures WalkVerdict(w, nm, listed, policies, order, ns, d, p) == Alone(w, nm, listed[k], ns, d, p)
  {
    order := OrderFrom(policies.Keys, k);
    WalkVerdictIs(w, nm, listed, policies, order, ns, d, p);
    FirstAloneIs(w, nm, listed, order, ns, d, p);
  }

  lemma AgreeingVerdict(w: World, nm: Namer, listed: map<Key, ListedPolicy>, policies: map<Key, Policy>,
                        order: seq<Key>, ns: string, d: Direction, p: Packet)
    requires Listing(listed, policies) && Enumerates(order, policies.Keys) && !p.established
             && !Disagree(w, nm, listed, policies, ns, d, p)
    ensures WalkVerdict(w, nm, listed, policies, order, ns, d, p)
         == if exists k :: k in policies && Alone(w, nm, listed[k], ns, d, p) == Accepted then Accepted else Rejected
  {
    WalkVerdictIs(w, nm, listed, policies, order, ns, d, p);
    FirstAloneIs(w, nm, listed, order, ns, d, p);
    forall k | k in policies ensures Alone(w, nm, listed[k], ns, d, p) in {Pass, Accepted, Rejected} {
      AloneDecides(w, nm, listed[k], ns, d, p);
    }
    var v := FirstAlone(w, nm, listed, order, ns, d, p);
    if v != Pass {
      var k :| k in order && Alone(w, nm, listed[k], ns, d, p) == v;
    }
  }

  /**
   * Order independence, exactly. For a packet of a new connection, every order in which the policies
   * can be walked gives the same verdict if and only if it is not so that one policy accepts the
   * packet by itself and another one excepts it.
   */
  lemma OrderMatters(w: World, nm: Namer, listed: map<Key, ListedPolicy>, policies: map<Key, Policy>, ns: string,
                     d: Direction, p: Packet)
    requires Listing(listed, policies) && !p.established
    ensures (forall order, order' :: Enumerates(order, policies.Keys) && Enumerates(order', policies.Keys) ==>
               WalkVerdict(w, nm, listed, policies, order, ns, d, p)
                   == WalkVerdict(w, nm, listed, policies, order', ns, d, p))
       <==> !Disagree(w, nm, listed, policies, ns, d, p)
  {
    if Disagree(w, nm, listed, policies, ns, d, p) {
      var a, b :| a in policies && b in policies && Alone(w, nm, listed[a], ns, d, p) == Accepted
          && Alone(w, nm, listed[b], ns, d, p) == Rejected;
      var x := FirstPolicyDecides(w, nm, listed, policies, a, ns, d, p);
      var y := FirstPolicyDecides(w, nm, listed, policies, b, ns, d, p);
      assert WalkVerdict(w, nm, listed, policies, x, ns, d, p) != WalkVerdict(w, nm, listed, policies, y, ns, d, p);
    } else {
      forall order, order' | Enumerates(order, policies.Keys) && Enumerates(order', policies.Keys)
        ensures WalkVerdict(w, nm, listed, policies, order, ns, d, p)
                    == WalkVerdict(w, nm, listed, policies, order', ns, d, p)
      {
        AgreeingVerdict(w, nm, listed, policies, order, ns, d, p);
        AgreeingVerdict(w, nm, listed, policies, order', ns, d, p);
      }
    }
  }

  // ---------- the order of a selector's labels ----------

  lemma SameMembersMatch(w: World, nm: Namer, items: seq<Item>, items': seq<Item>, g: Group, p: Packet)
    requires forall item :: item in items ==> item in items'
    ensures GroupMatch(w, nm, items, g, p) ==> GroupMatch(w, nm, items', g, p)
  {
    if GroupMatch(w, nm, items, g, p) {
      var j :| 0 <= j < |items| && items[j].Peer? && GroupOf(items[j]) == g && ItemMatch(w, nm, items[j], p);
      assert items[j] in items;
      GroupMatchBy(w, nm, items', items[j], p);
    }
  }

  /** Clauses other than blocks only accept, so what a run of them decides does not depend on their order. */
  lemma PeersDecide(w: World, nm: Namer, items: seq<Item>, walked: seq<Item>, ns: string, d: Direction, p: Packet)
    requires forall item :: item in walked && item.Peer? ==> !item.clause.BlockPeer?
    ensures FirstVerdict(w, nm, items, walked, ns, d, p)
         == if exists item ::
                 item in walked && Belongs(item, ns, d) && GroupMatch(w, nm, items, GroupOf(item), p)
             then Accepted else Pass
  {
    var v := FirstVerdict(w, nm, items, walked, ns, d, p);
    FirstVerdictIs(w, nm, items, walked, ns, d, p);
    if v == Pass {
      forall item | item in walked && Belongs(item, ns, d) ensures !GroupMatch(w, nm, items, GroupOf(item), p) {
        var i :| 0 <= i < |walked| && walked[i] == item;
        assert GroupVerdict(w, nm, items, walked[i], p) == Pass;
      }
    } else {
      var i :| 0 <= i < |walked| && Belongs(walked[i], ns, d) && GroupVerdict(w, nm, items, walked[i], p) == v;
      assert walked[i] in walked;
    }
  }

  /** What two stretches of a walk decide, the rest being the same. */
  ghost predicate DecideAlike(w: World, nm: Namer, items: seq<Item>, a: seq<Item>, b: seq<Item>, ns: string,
                              d: Direction, p: Packet) {
    FirstVerdict(w, nm, items, a, ns, d, p) == FirstVerdict(w, nm, items, b, ns, d, p)
  }

  lemma AlikeConcat(w: World, nm: Namer, items: seq<Item>, a: seq<Item>, a': seq<Item>, b: seq<Item>, b': seq<Item>,
                    ns: string, d: Direction, p: Packet)
    requires DecideAlike(w, nm, items, a, a', ns, d, p) && DecideAlike(w, nm, items, b, b', ns, d, p)
    ensures DecideAlike(w, nm, items, a + b, a' + b', ns, d, p)
  {
    FirstConcat(w, nm, items, a, b, ns, d, p);
    FirstConcat(w, nm, items, a', b', ns, d, p);
  }

  lemma SelectorsAlike(w: World, nm: Namer, items: seq<Item>, policy: Policy, dir: Direction, pods: bool,
                       lists: seq<seq<Label>>, lists': seq<seq<Label>>, selectors: seq<Selector>, ports: seq<Port>,
                       ns: string, d: Direction, p: Packet)
    requires ListsSelectors(lists, selectors) && ListsSelectors(lists', selectors)
    ensures DecideAlike(w, nm, items, SelectorItems(policy, dir, pods, lists, ports),
                SelectorItems(policy, dir, pods, lists', ports), ns, d, p)
  {
    var a, b := SelectorItems(policy, dir, pods, lists, ports), SelectorItems(policy, dir, pods, lists', ports);
    forall item
      ensures item in a <==> item in b
      ensures item in a ==> item.Peer? && !item.clause.BlockPeer?
    {
      SelectorItemsAre(policy, dir, pods, lists, ports, item);
      SelectorItemsAre(policy, dir, pods, lists', ports, item);
      forall pair ensures SelectorHas(lists, pair) <==> SelectorHas(lists', pair) {
        ListedLabels(lists, selectors, pair);
        ListedLabels(lists', selectors, pair);
      }
    }
    PeersDecide(w, nm, items, a, ns, d, p);
    PeersDecide(w, nm, items, b, ns, d, p);
  }

  lemma RuleAlike(w: World, nm: Namer, items: seq<Item>, policy: Policy, dir: Direction, l: ListedRule,
                  l': ListedRule, r: PeerRule, ns: string, d: Direction, p: Packet)
    requires Lists(l, r) && Lists(l', r)
    ensures DecideAlike(w, nm, items, RuleItems(policy, dir, l), RuleItems(policy, dir, l'), ns, d, p)
  {
    var a, a' := PortItems(policy, dir, l), PortItems(policy, dir, l');
    var b, b' := SelectorItems(policy, dir, true, l.pods, l.ports), SelectorItems(policy, dir, true, l'.pods, l'.ports);
    var c, c' := SelectorItems(policy, dir, false, l.namespaces, l.ports),
        SelectorItems(policy, dir, false, l'.namespaces, l'.ports);
    var e := BlockItems(policy, dir, l.blocks, l.ports);
    assert a == a';
    SelectorsAlike(w, nm, items, policy, dir, true, l.pods, l'.pods, r.pods, l.ports, ns, d, p);
    SelectorsAlike(w, nm, items, policy, dir, false, l.namespaces, l'.namespaces, r.namespaces, l.ports, ns, d, p);
    AlikeConcat(w, nm, items, a, a', b, b', ns, d, p);
    AlikeConcat(w, nm, items, a + b, a' + b', c, c', ns, d, p);
    AlikeConcat(w, nm, items, a + b + c, a' + b' + c', e, e, ns, d, p);
  }

  lemma {:induction false} RulesAlike(w: World, nm: Namer, items: seq<Item>, policy: Policy, dir: Direction,
                                      ls: seq<ListedRule>, ls': seq<ListedRule>, rs: seq<PeerRule>, ns: string,
                                      d: Direction, p: Packet)
    requires ListsRules(ls, rs) && ListsRules(ls', rs)
    ensures DecideAlike(w, nm, items, RulesItems(policy, dir, ls), RulesItems(policy, dir, ls'), ns, d, p)
  {
    if ls != [] {
      var n := |ls| - 1;
      RulesAlike(w, nm, items, policy, dir, ls[..n], ls'[..n], rs[..n], ns, d, p);
      RuleAlike(w, nm, items, policy, dir, ls[n], ls'[n], rs[n], ns, d, p);
      AlikeConcat(w, nm, items, RulesItems(policy, dir, ls[..n]), RulesItems(policy, dir, ls'[..n]),
          RuleItems(policy, dir, ls[n]), RuleItems(policy, dir, ls'[n]), ns, d, p);
    }
  }

  lemma {:induction false} SectionsAlike(w: World, nm: Namer, items: seq<Item>, policy: Policy,
                                         types: seq<Direction>, sections: seq<seq<ListedRule>>,
                                         sections': seq<seq<ListedRule>>, ns: string, d: Direction, p: Packet)
    requires |types| == |sections| == |sections'|
    requires forall i :: 0 <= i < |types| ==> ListsRules(sections[i], policy.Rules(types[i]))
    requires forall i :: 0 <= i < |types| ==> ListsRules(sections'[i], policy.Rules(types[i]))
    ensures DecideAlike(w, nm, items, SectionItems(policy, types, sections), SectionItems(policy, types, sections'),
                ns, d, p)
  {
    if types != [] {
      var n := |types| - 1;
      var before, before' := SectionItems(policy, types[..n], sections[..n]),
          SectionItems(policy, types[..n], sections'[..n]);
      var enter := [Enter(policy.ns, types[n])];
      SectionsAlike(w, nm, items, policy, types[..n], sections[..n], sections'[..n], ns, d, p);
      RulesAlike(w, nm, items, policy, types[n], sections[n], sections'[n], policy.Rules(types[n]), ns, d, p);
      AlikeConcat(w, nm, items, before, before', enter, enter, ns, d, p);
      AlikeConcat(w, nm, items, before + enter, before' + enter, RulesItems(policy, types[n], sections[n]),
          RulesItems(policy, types[n], sections'[n]), ns, d, p);
    }
  }

  /** In whatever order the loops range over a policy's selectors, the policy by itself decides the same. */
  lemma ListingsAgree(w: World, nm: Namer, l: ListedPolicy, l': ListedPolicy, ns: string, d: Direction, p: Packet)
    requires ListsPolicy(l) && ListsPolicy(l') && l.policy == l'.policy
    ensures Alone(w, nm, l, ns, d, p) == Alone(w, nm, l', ns, d, p)
  {
    var items, items' := PolicyItems(l), PolicyItems(l');
    var begin := [Begin(l.policy.ns, l.policy.name, l.policy.selector)];
    SectionsAlike(w, nm, items, l.policy, l.policy.types, l.sections, l'.sections, ns, d, p);
    AlikeConcat(w, nm, items, begin, begin, SectionItems(l.policy, l.policy.types, l.sections),
        SectionItems(l.policy, l.policy.types, l'.sections), ns, d, p);
    forall item ensures item in items <==> item in items' {
      PolicyItemsAre(l, item);
      PolicyItemsAre(l', item);
    }
    forall item | item in items' && item.Peer?
      ensures GroupMatch(w, nm, items, GroupOf(item), p) <==> GroupMatch(w, nm, items', GroupOf(item), p)
    {
      SameMembersMatch(w, nm, items, items', GroupOf(item), p);
      SameMembersMatch(w, nm, items', items, GroupOf(item), p);
    }
    SameGroups(w, nm, items, items', items', ns, d, p);
  }

  // ---------- walks of any order and listing ----------

  ghost predicate OwnKeysOnly(policies: map<Key, Policy>) {
    forall k :: k in policies ==> k == Key(policies[k].ns, policies[k].name)
  }

  /** A walk as an order and a listing. */
  lemma ListingOf(ls: seq<ListedPolicy>, order: seq<Key>, policies: map<Key, Policy>)
      returns (listed: map<Key, ListedPolicy>)
    requires Walks(ls, order, policies) && OwnKeysOnly(policies)
    ensures Listing(listed, policies) && WalkBy(listed, order) == ls
  {
    listed := map k | k in policies :: ls[Place(order, k)];
    forall k | k in policies ensures listed[k].policy == policies[k] && ListsPolicy(listed[k]) {
      assert order[Place(order, k)] == k;
    }
    forall i | 0 <= i < |order| ensures order[i] in listed && listed[order[i]] == ls[i] {
      assert order[Place(order, order[i])] == order[i];
    }
  }

  ghost function Place(order: seq<Key>, k: Key): (i: nat)
    ensures k in order ==> i < |order| && order[i] == k
  {
    if i: nat :| i < |order| && order[i] == k then i else 0
  }

  lemma {:induction false} FirstAloneSame(w: World, nm: Namer, listed: map<Key, ListedPolicy>,
                                          listed': map<Key, ListedPolicy>, order: seq<Key>, ns: string, d: Direction,
                                          p: Packet)
    requires forall k :: k in order ==> k in listed && |listed[k].sections| == |listed[k].policy.types|
    requires forall k :: k in order ==> k in listed' && |listed'[k].sections| == |listed'[k].policy.types|
    requires forall k :: k in order ==>
               ListsPolicy(listed[k]) && ListsPolicy(listed'[k]) && listed'[k].policy == listed[k].policy
    ensures FirstAlone(w, nm, listed, order, ns, d, p) == FirstAlone(w, nm, listed', order, ns, d, p)
  {
    if order != [] {
      var n := |order| - 1;
      assert order == order[..n] + [order[n]];
      FirstAloneSame(w, nm, listed, listed', order[..n], ns, d, p);
      ListingsAgree(w, nm, listed[order[n]], listed'[order[n]], ns, d, p);
    }
  }

  /** A walk decides what its order decides, whatever the listing. */
  lemma WalkAsListed(w: World, nm: Namer, listed: map<Key, ListedPolicy>, policies: map<Key, Policy>,
                     ls: seq<ListedPolicy>, order: seq<Key>, ns: string, d: Direction, p: Packet)
    requires Listing(listed, policies) && Walks(ls, order, policies) && !p.established
    ensures PolicyVerdict(w, nm, WalkItems(ls), ns, d, p) == WalkVerdict(w, nm, listed, policies, order, ns, d, p)
  {
    var own := ListingOf(ls, order, policies);
    WalkVerdictIs(w, nm, own, policies, order, ns, d, p);
    WalkVerdictIs(w, nm, listed, policies, order, ns, d, p);
    FirstAloneSame(w, nm, own, listed, order, ns, d, p);
  }

  /** Any two walks give the packet the same verdict. */
  ghost predicate WalksAgree(w: World, nm: Namer, policies: map<Key, Policy>, ns: string, d: Direction, p: Packet) {
    forall ls, order, ls', order' :: Walks(ls, order, policies) && Walks(ls', order', policies) ==>
      PolicyVerdict(w, nm, WalkItems(ls), ns, d, p) == PolicyVerdict(w, nm, WalkItems(ls'), ns, d, p)
  }

  /**
   * The same for walks in full, which may range over the policies and over every selector as they
   * like: two of them can differ on a packet of a new connection if and only if one policy accepts
   * it by itself and another one excepts it.
   */
  lemma WalksMatter(w: World, nm: Namer, listed: map<Key, ListedPolicy>, policies: map<Key, Policy>, ns: string,
                    d: Direction, p: Packet)
    requires Listing(listed, policies)
    ensures WalksAgree(w, nm, policies, ns, d, p) <==> p.established || !Disagree(w, nm, listed, policies, ns, d, p)
  {
    if !p.established {
      OrderMatters(w, nm, listed, policies, ns, d, p);
      if WalksAgree(w, nm, policies, ns, d, p) {
        forall order, order' | Enumerates(order, policies.Keys) && Enumerates(order', policies.Keys)
          ensures WalkVerdict(w, nm, listed, policies, order, ns, d, p)
                      == WalkVerdict(w, nm, listed, policies, order', ns, d, p)
        {
          WalkByWalks(listed, order, policies);
          WalkByWalks(listed, order', policies);
        }
      }
      if !Disagree(w, nm, listed, policies, ns, d, p) {
        forall ls, order, ls', order' | Walks(ls, order, policies) && Walks(ls', order', policies)
          ensures PolicyVerdict(w, nm, WalkItems(ls), ns, d, p) == PolicyVerdict(w, nm, WalkItems(ls'), ns, d, p)
        {
          WalkAsListed(w, nm, listed, policies, ls, order, ns, d, p);
          WalkAsListed(w, nm, listed, policies, ls', order', ns, d, p);
        }
      }
    }
  }

  /** Without except entries that match no two policies disagree, and all walks give the same verdict. */
  lemma NoExceptsNoOrder(w: World, nm: Namer, listed: map<Key, ListedPolicy>, policies: map<Key, Policy>, ns: string,
                         d: Direction, p: Packet)
    requires Listing(listed, policies)
    requires forall k, item ::
               k in policies && item in PolicyItems(listed[k]) && Belongs(item, ns, d) && item.clause.BlockPeer?
               ==> !w.Has(ExceptOf(nm, item), p.Address(FarSide(d)))
    ensures !Disagree(w, nm, listed, policies, ns, d, p) && WalksAgree(w, nm, policies, ns, d, p)
  {
    forall k | k in policies ensures Alone(w, nm, listed[k], ns, d, p) != Rejected {
      var items := PolicyItems(listed[k]);
      assert Unexcepted(w, nm, items, ns, d, p);
      FirstVerdictUnexcepted(w, nm, items, ns, d, p);
    }
    WalksMatter(w, nm, listed, policies, ns, d, p);
  }
}
