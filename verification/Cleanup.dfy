/**
 * CleanupLeftovers: the jumps from the built-in chains are deleted by rule number, then all chains
 * of the controller, then all its sets.
 */
module Cleanup {
  import opened Options
  import opened Names
  import opened Netfilter
  import opened Orders
  import opened IndexMaps
  import opened Kernels

  // ---------- deleting rules by number ----------

  /** Whether the printed rule contains "ENN". */
  type Mention = Rule -> bool

  /**
   * A chain after the first `n` lines of its listing have been gone through. A number is that of the
   * listing, made once at the start, and is not corrected when an earlier rule has been deleted.
   */
  function Swept(listing: seq<Rule>, mentions: Mention, n: nat): seq<Rule>
    requires n <= |listing|
  {
    if n == 0 then listing
    else
      var before := Swept(listing, mentions, n - 1);
      if mentions(listing[n - 1]) && n <= |before| then before[..n - 1] + before[n..] else before
  }

  ghost predicate AtMostOne(listing: seq<Rule>, mentions: Mention) {
    forall i, j :: 0 <= i < j < |listing| ==> !(mentions(listing[i]) && mentions(listing[j]))
  }

  ghost predicate NoneMentions(rules: seq<Rule>, mentions: Mention) {
    forall i :: 0 <= i < |rules| ==> !mentions(rules[i])
  }

  lemma {:induction false} SweptUntil(listing: seq<Rule>, mentions: Mention, n: nat)
    requires n <= |listing| && forall i :: 0 <= i < n ==> !mentions(listing[i])
    ensures Swept(listing, mentions, n) == listing
  {
    if n > 0 {
      SweptUntil(listing, mentions, n - 1);
    }
  }

  lemma {:induction false} SweptOne(listing: seq<Rule>, mentions: Mention, a: nat, n: nat)
    requires a < n <= |listing| && mentions(listing[a])
    requires forall i :: 0 <= i < n && i != a ==> !mentions(listing[i])
    ensures Swept(listing, mentions, n) == listing[..a] + listing[a + 1..]
  {
    if n == a + 1 {
      SweptUntil(listing, mentions, a);
    } else {
      SweptOne(listing, mentions, a, n - 1);
    }
  }

  /** The second mentioning rule moves up by one and is out of reach of all later numbers. */
  lemma {:induction false} SecondSurvives(listing: seq<Rule>, mentions: Mention, a: nat, b: nat, n: nat)
    requires a < b < |listing| && a < n <= |listing| && mentions(listing[a]) && mentions(listing[b])
    requires forall i :: 0 <= i < b && i != a ==> !mentions(listing[i])
    ensures |Swept(listing, mentions, n)| >= b && Swept(listing, mentions, n)[b - 1] == listing[b]
  {
    if n <= b {
      SweptOne(listing, mentions, a, n);
    } else {
      SecondSurvives(listing, mentions, a, b, n - 1);
    }
  }

  lemma {:induction false} FirstMention(listing: seq<Rule>, mentions: Mention, from: nat, n: nat) returns (a: nat)
    requires from <= n <= |listing| && exists i :: from <= i < n && mentions(listing[i])
    ensures from <= a < n && mentions(listing[a]) && forall i :: from <= i < a ==> !mentions(listing[i])
    decreases n - from
  {
    if mentions(listing[from]) {
      a := from;
    } else {
      a := FirstMention(listing, mentions, from + 1, n);
    }
  }

  /** Deleting by number takes out every mentioning rule exactly when there is at most one, and then only that one. */
  lemma SweptClean(listing: seq<Rule>, mentions: Mention)
    ensures NoneMentions(Swept(listing, mentions, |listing|), mentions) <==> AtMostOne(listing, mentions)
    ensures AtMostOne(listing, mentions) ==>
      forall i :: 0 <= i < |listing| && !mentions(listing[i]) ==> listing[i] in Swept(listing, mentions, |listing|)
  {
    var n := |listing|;
    if exists i :: 0 <= i < n && mentions(listing[i]) {
      var a := FirstMention(listing, mentions, 0, n);
      if exists i :: a + 1 <= i < n && mentions(listing[i]) {
        var b := FirstMention(listing, mentions, a + 1, n);
        SweptTwo(listing, mentions, a, b);
      } else {
        SweptSingle(listing, mentions, a);
      }
    } else {
      SweptUntil(listing, mentions, n);
    }
  }

  lemma SweptTwo(listing: seq<Rule>, mentions: Mention, a: nat, b: nat)
    requires a < b < |listing| && mentions(listing[a]) && mentions(listing[b])
             && forall i :: 0 <= i < b && i != a ==> !mentions(listing[i])
    ensures !AtMostOne(listing, mentions) && !NoneMentions(Swept(listing, mentions, |listing|), mentions)
  {
    SecondSurvives(listing, mentions, a, b, |listing|);
    assert mentions(Swept(listing, mentions, |listing|)[b - 1]);
  }

  lemma SweptSingle(listing: seq<Rule>, mentions: Mention, a: nat)
    requires a < |listing| && mentions(listing[a]) && forall i :: 0 <= i < |listing| && i != a ==> !mentions(listing[i])
    ensures AtMostOne(listing, mentions) && NoneMentions(Swept(listing, mentions, |listing|), mentions)
    ensures forall i ::
              0 <= i < |listing| && !mentions(listing[i]) ==> listing[i] in Swept(listing, mentions, |listing|)
  {
    SweptOne(listing, mentions, a, |listing|);
    assert Swept(listing, mentions, |listing|) == Dropped(listing, a);
    forall i | 0 <= i < |listing| && i != a ensures listing[i] in Dropped(listing, a) {
      DroppedAt(listing, a, i);
    }
    forall i | 0 <= i < |Dropped(listing, a)| ensures !mentions(Dropped(listing, a)[i]) {
      DroppedFrom(listing, a, i);
    }
  }

  function Dropped(listing: seq<Rule>, a: nat): seq<Rule>
    requires a < |listing|
  {
    listing[..a] + listing[a + 1..]
  }

  lemma DroppedAt(listing: seq<Rule>, a: nat, i: nat)
    requires a < |listing| && i < |listing| && i != a
    ensures listing[i] in Dropped(listing, a)
  {
    assert Dropped(listing, a)[if i < a then i else i - 1] == listing[i];
  }

  lemma DroppedFrom(listing: seq<Rule>, a: nat, i: nat)
    requires a < |listing| && i < |Dropped(listing, a)|
    ensures Dropped(listing, a)[i] == listing[if i < a then i else i + 1]
  {}

  /** With two mentions next to each other it is the rule after them, somebody else's, that the second deletion hits. */
  lemma SweepHitsAnother(mentions: Mention, e: Rule, other: Rule)
    requires mentions(e) && !mentions(other)
    ensures Swept([e, e, other], mentions, 3) == [e]
  {
    var l := [e, e, other];
    assert Swept(l, mentions, 0) == l;
    assert Swept(l, mentions, 1) == [e, other];
    assert Swept(l, mentions, 2) == [e];
  }

  /** A rule swept out or kept was in the listing. */
  lemma {:induction false} SweptFrom(listing: seq<Rule>, mentions: Mention, n: nat)
    requires n <= |listing|
    ensures forall r :: r in Swept(listing, mentions, n) ==> r in listing
  {
    if n > 0 {
      SweptFrom(listing, mentions, n - 1);
    }
  }

  /** Deletes the mentioning rules of one built-in chain. */
  method SweepChain(kernel: Kernel, c: Chain, mentions: Mention)
    requires c in kernel.table
    modifies kernel`table
    ensures kernel.table == old(kernel.table)[c := Swept(old(kernel.table)[c], mentions, |old(kernel.table)[c]|)]
  {
    var listing := kernel.table[c];
    assert kernel.table[c := listing] == kernel.table;
    for i := 0 to |listing|
      invariant kernel.table == old(kernel.table)[c := Swept(listing, mentions, i)]
    {
      if mentions(listing[i]) {
        kernel.DeleteRule(c, i + 1);
      }
    }
  }

  const INPUT := Foreign("INPUT")
  const OUTPUT := Foreign("OUTPUT")
  const FORWARD := Foreign("FORWARD")

  predicate BuiltIn(c: Chain) { c == INPUT || c == OUTPUT || c == FORWARD }

  lemma BuiltInNames(c: Chain)
    ensures BuiltIn(c) <==> Render(c) == "INPUT" || Render(c) == "OUTPUT" || Render(c) == "FORWARD"
  {
    if !c.Foreign? {
      assert Render(c)[0] == 'E';
    }
  }

  ghost function SweptTable(t: Table, mentions: Mention): Table {
    map c | c in t :: if BuiltIn(c) then Swept(t[c], mentions, |t[c]|) else t[c]
  }

  // ---------- deleting chains ----------

  predicate IsEnnChain(c: Chain) { "ENN-" <= Render(c) }

  function EnnChains(t: Table): set<Chain> { set c | c in t && IsEnnChain(c) }

  /** Some chain that stays jumps to one that is to go. */
  ghost predicate Held(t: Table) {
    exists c, i ::
      c in t && !IsEnnChain(c) && 0 <= i < |t[c]| && t[c][i].target.Jump? && t[c][i].target.chain in EnnChains(t)
  }

  lemma RemovalLegal(t: Table, sets: set<SetName>, order: seq<Chain>)
    requires Enumerates(order, EnnChains(t)) && !Held(t)
    ensures Restore(t, sets, order, Deletes(order)) == Some(t - EnnChains(t))
  {
    var t1 := Declare(t, order);
    DeclareIs(t, order);
    assert t1.Keys == t.Keys;
    forall k | 0 <= k < |order| ensures order[k] in t1 && t1[order[k]] == [] && !ChainReferenced(t1, order[k]) {
      assert order[k] in order;
      forall c, i | c in t1 && 0 <= i < |t1[c]| ensures t1[c][i].target != Jump(order[k]) {
        assert c !in order && t1[c] == t[c];
      }
    }
    RunDeletes(t1, sets, order);
    assert Without(t1, order).Keys == (t - EnnChains(t)).Keys;
    assert Without(t1, order) == t - EnnChains(t);
  }

  lemma {:induction false} DeletesKeep(t: Table, sets: set<SetName>, chains: seq<Chain>, c: Chain)
    requires c in t && c !in chains && Run(t, sets, Deletes(chains)).Some?
    ensures c in Run(t, sets, Deletes(chains)).value && Run(t, sets, Deletes(chains)).value[c] == t[c]
  {
    if chains != [] {
      var n := |chains| - 1;
      assert Deletes(chains)[..|Deletes(chains)| - 1] == Deletes(chains[..n]);
      DeletesKeep(t, sets, chains[..n], c);
    }
  }

  lemma {:induction false} DeletesFail(t: Table, sets: set<SetName>, chains: seq<Chain>, c: Chain, i: nat, to: Chain)
    requires c in t && c !in chains && i < |t[c]| && t[c][i].target == Jump(to) && to in chains
    ensures Run(t, sets, Deletes(chains)).None?
  {
    var n := |chains| - 1;
    assert Deletes(chains)[..|Deletes(chains)| - 1] == Deletes(chains[..n]);
    assert chains == chains[..n] + [chains[n]];
    if to in chains[..n] {
      DeletesFail(t, sets, chains[..n], c, i, to);
    } else if Run(t, sets, Deletes(chains[..n])).Some? {
      DeletesKeep(t, sets, chains[..n], c);
      assert ChainReferenced(Run(t, sets, Deletes(chains[..n])).value, to);
    }
  }

  lemma RemovalRefused(t: Table, sets: set<SetName>, order: seq<Chain>)
    requires Enumerates(order, EnnChains(t)) && Held(t)
    ensures Restore(t, sets, order, Deletes(order)).None?
  {
    var c, i :| c in t && !IsEnnChain(c) && 0 <= i < |t[c]| && t[c][i].target.Jump?
        && t[c][i].target.chain in EnnChains(t);
    DeclareIs(t, order);
    assert c !in order;
    DeletesFail(Declare(t, order), sets, order, c, i, t[c][i].target.chain);
  }

  /** Flushes and deletes all chains of the controller, or none when one of them is still jumped to. */
  method RemoveChains(kernel: Kernel) returns (ok: bool)
    modifies kernel`table
    ensures ok <==> !Held(old(kernel.table))
    ensures kernel.table == if ok then old(kernel.table) - EnnChains(old(kernel.table)) else old(kernel.table)
  {
    var t := kernel.table;
    var all := EnnChains(t);
    var rest := all;
    var filterChains: seq<Chain>, filterRules: seq<Cmd> := [], [];
    while rest != {}
      invariant kernel.table == t && rest <= all && Enumerates(filterChains, all - rest)
                && filterRules == Deletes(filterChains)
      decreases rest
    {
      var c := Pick(rest);
      EnumeratesMore(filterChains, all - rest, c);
      assert all - (rest - {c}) == all - rest + {c};
      assert (filterChains + [c])[..|filterChains|] == filterChains;
      filterChains, filterRules := filterChains + [c], filterRules + [Delete(c)];
      rest := rest - {c};
    }
    assert all - rest == all;
    if Held(t) {
      RemovalRefused(t, kernel.sets.Keys, filterChains);
    } else {
      RemovalLegal(t, kernel.sets.Keys, filterChains);
    }
    ok := kernel.RestoreAll(filterChains, filterRules);
  }

  // ---------- destroying sets ----------

  method DestroySets(kernel: Kernel)
    modifies kernel`sets
    ensures kernel.sets == old(kernel.sets) - set n | n in old(kernel.sets) && IsEnnSet(n)
            && !SetReferenced(kernel.table, n)
  {
    var names := kernel.sets.Keys;
    var rest := names;
    ghost var was := kernel.sets;
    ghost var gone: set<SetName> := {};
    assert was - gone == was;
    while rest != {}
      invariant rest <= names && gone == set n | n in names - rest && IsEnnSet(n) && !SetReferenced(kernel.table, n)
      invariant kernel.sets == was - gone
      decreases rest
    {
      var n := Pick(rest);
      if IsEnnSet(n) {
        var ok := kernel.DestroyIPSet(n);
        if ok {
          assert was - gone - {n} == was - (gone + {n});
          gone := gone + {n};
        }
      }
      rest := rest - {n};
    }
    assert gone == set n | n in was && IsEnnSet(n) && !SetReferenced(kernel.table, n);
  }

  // ---------- all of it ----------

  /** What is left of the chains. */
  ghost function ChainsLeft(t: Table, mentions: Mention): Table {
    var swept := SweptTable(t, mentions);
    if Held(swept) then swept else swept - EnnChains(swept)
  }

  /** What is left of the sets once the chains have gone: destroying spares sets that are still referred to. */
  ghost function SetsLeft(sets: Sets, t: Table): Sets {
    sets - set n | n in sets && IsEnnSet(n) && !SetReferenced(t, n)
  }

  method CleanupLeftovers(kernel: Kernel, mentions: Mention)
    requires INPUT in kernel.table && OUTPUT in kernel.table && FORWARD in kernel.table
    modifies kernel`table, kernel`sets
    ensures kernel.table == ChainsLeft(old(kernel.table), mentions)
    ensures kernel.sets == SetsLeft(old(kernel.sets), kernel.table)
  {
    var t := kernel.table;
    SweepChain(kernel, INPUT, mentions);
    SweepChain(kernel, OUTPUT, mentions);
    SweepChain(kernel, FORWARD, mentions);
    assert INPUT != OUTPUT && INPUT != FORWARD && OUTPUT != FORWARD by {
      assert "INPUT"[0] != "OUTPUT"[0] && "INPUT"[0] != "FORWARD"[0] && "OUTPUT"[0] != "FORWARD"[0];
    }
    assert kernel.table.Keys == t.Keys;
    assert kernel.table == SweptTable(t, mentions);
    var _ := RemoveChains(kernel);
    DestroySets(kernel);
  }

  /**
   * The kernel as the controller leaves it: only rules of built-in chains and of its own chains
   * mention ENN, and those of the built-in chains jump to chains of its own.
   */
  ghost predicate OursOnly(t: Table, mentions: Mention) {
    && (forall rule: Rule :: rule.target.Jump? && "ENN-" <= Render(rule.target.chain) ==> mentions(rule))
    && (forall rule: Rule, n :: RefersTo(rule, n) && "ENN" <= RenderSet(n) ==> mentions(rule))
    && (forall c, i :: c in t && !("ENN-" <= Render(c)) && 0 <= i < |t[c]| && mentions(t[c][i])
          ==> BuiltIn(c) && t[c][i].target.Jump? && t[c][i].target.chain in t
              && "ENN-" <= Render(t[c][i].target.chain))
  }

  lemma BuiltInsStay(c: Chain)
    requires BuiltIn(c)
    ensures !IsEnnChain(c)
  {
    assert "INPUT"[0] != "ENN-"[0] && "OUTPUT"[0] != "ENN-"[0] && "FORWARD"[0] != "ENN-"[0];
  }

  ghost predicate EachAtMostOne(t: Table, mentions: Mention) {
    forall c :: c in t && BuiltIn(c) ==> AtMostOne(t[c], mentions)
  }

  lemma OthersUnmentioned(t: Table, mentions: Mention, c: Chain)
    requires OursOnly(t, mentions) && c in t && !IsEnnChain(c) && !BuiltIn(c)
    ensures NoneMentions(SweptTable(t, mentions)[c], mentions)
  {
    assert SweptTable(t, mentions)[c] == t[c];
  }

  lemma HeldBySecond(t: Table, mentions: Mention)
    requires OursOnly(t, mentions)
    ensures Held(SweptTable(t, mentions)) <==> !EachAtMostOne(t, mentions)
  {
    var s := SweptTable(t, mentions);
    assert EnnChains(s) == EnnChains(t);
    forall c | c in t && BuiltIn(c)
      ensures NoneMentions(s[c], mentions) <==> AtMostOne(t[c], mentions)
      ensures forall r :: r in s[c] ==> r in t[c]
      ensures !IsEnnChain(c)
    {
      BuiltInsStay(c);
      SweptClean(t[c], mentions);
      SweptFrom(t[c], mentions, |t[c]|);
    }
    forall c | c in t && !IsEnnChain(c) && !BuiltIn(c) ensures NoneMentions(s[c], mentions) {
      OthersUnmentioned(t, mentions, c);
    }
    if Held(s) {
      var c, i :| c in s && !IsEnnChain(c) && 0 <= i < |s[c]| && s[c][i].target.Jump?
          && s[c][i].target.chain in EnnChains(s);
      assert mentions(s[c][i]);
    }
    if !EachAtMostOne(t, mentions) {
      var c :| c in t && BuiltIn(c) && !AtMostOne(t[c], mentions);
      var i :| 0 <= i < |s[c]| && mentions(s[c][i]);
      assert s[c][i] in t[c];
      var k :| 0 <= k < |t[c]| && t[c][k] == s[c][i];
      assert mentions(t[c][k]);
    }
  }

  /** Some rule of a chain of the controller looks at the set. */
  ghost predicate UsedByChains(t: Table, n: SetName) {
    exists c, i :: c in t && IsEnnChain(c) && 0 <= i < |t[c]| && RefersTo(t[c][i], n)
  }

  /**
   * Cleanup completeness, on printed names. Every chain that begins with ENN- and every set that
   * begins with ENN, and no other chain or set, is gone afterwards when no built-in chain mentions ENN
   * twice. If one does, its second rule survives, the chain it jumps to cannot be deleted, so no chain
   * is, and every set their rules look at stays.
   */
  lemma CleanupComplete(t: Table, sets: Sets, mentions: Mention)
    requires OursOnly(t, mentions)
    ensures var left := ChainsLeft(t, mentions);
            var kept := SetsLeft(sets, left);
            && (EachAtMostOne(t, mentions) ==> forall c :: c in left ==> !("ENN-" <= Render(c)))
            && (EachAtMostOne(t, mentions) ==> kept.Keys == set n | n in sets && !("ENN" <= RenderSet(n)))
            && (!EachAtMostOne(t, mentions) ==> left.Keys == t.Keys && exists c :: c in t && "ENN-" <= Render(c))
            && (!EachAtMostOne(t, mentions) ==> forall n :: n in sets && UsedByChains(t, n) ==> n in kept)
            && (forall n :: n in sets && !("ENN" <= RenderSet(n)) ==> n in kept)
            && (forall n :: n in kept ==> kept[n] == sets[n])
            && (forall c :: c in t && !("ENN-" <= Render(c)) ==> c in left)
            && (forall c :: c in t && !("ENN-" <= Render(c)) && Render(c) !in ["INPUT", "OUTPUT", "FORWARD"]
                  ==> left[c] == t[c])
  {
    var s, left := SweptTable(t, mentions), ChainsLeft(t, mentions);
    forall c: Chain ensures BuiltIn(c) <==> Render(c) in ["INPUT", "OUTPUT", "FORWARD"] {
      BuiltInNames(c);
    }
    HeldBySecond(t, mentions);
    assert EnnChains(s) == EnnChains(t);
    if EachAtMostOne(t, mentions) {
      forall n: SetName | "ENN" <= RenderSet(n) ensures !SetReferenced(left, n) {
        forall c, i | c in left && 0 <= i < |left[c]| ensures !RefersTo(left[c][i], n) {
          UnmentionedLeft(t, mentions, c, i);
        }
      }
    } else {
      SomethingHeld(t, mentions);
      var c :| c in EnnChains(t);
      assert c in t && "ENN-" <= Render(c);
      forall n | n in sets && UsedByChains(t, n) ensures SetReferenced(left, n) {
        UsedStays(t, mentions, n);
      }
    }
  }

  lemma SomethingHeld(t: Table, mentions: Mention)
    requires Held(SweptTable(t, mentions))
    ensures EnnChains(t) != {}
  {
    var s: Table := SweptTable(t, mentions);
    assert EnnChains(s) == EnnChains(t);
    var c: Chain, i: nat :| c in s && !IsEnnChain(c) && 0 <= i < |s[c]| && s[c][i].target.Jump?
        && s[c][i].target.chain in EnnChains(s);
    assert s[c][i].target.chain in EnnChains(t);
  }

  lemma UsedStays(t: Table, mentions: Mention, n: SetName)
    requires Held(SweptTable(t, mentions)) && UsedByChains(t, n)
    ensures SetReferenced(ChainsLeft(t, mentions), n)
  {
    var c, i :| c in t && IsEnnChain(c) && 0 <= i < |t[c]| && RefersTo(t[c][i], n);
    if BuiltIn(c) {
      BuiltInsStay(c);
    } else {
      assert SweptTable(t, mentions)[c] == t[c];
    }
  }

  lemma UnmentionedLeft(t: Table, mentions: Mention, c: Chain, i: nat)
    requires OursOnly(t, mentions) && EachAtMostOne(t, mentions)
    requires c in SweptTable(t, mentions) && !IsEnnChain(c) && i < |SweptTable(t, mentions)[c]|
    ensures !mentions(SweptTable(t, mentions)[c][i])
  {
    if BuiltIn(c) {
      SweptClean(t[c], mentions);
    }
  }

  /** With at most one jump each, the built-in chains lose that jump and nothing else. */
  lemma BuiltInsKeepTheirRules(t: Table, mentions: Mention, c: Chain, i: nat)
    requires OursOnly(t, mentions) && EachAtMostOne(t, mentions) && c in t && BuiltIn(c) && i < |t[c]|
    ensures c in ChainsLeft(t, mentions)
    ensures t[c][i] in ChainsLeft(t, mentions)[c] <==> !mentions(t[c][i])
  {
    HeldBySecond(t, mentions);
    BuiltInsStay(c);
    SweptClean(t[c], mentions);
    var kept := Swept(t[c], mentions, |t[c]|);
    assert t[c][i] in kept ==> !mentions(t[c][i]);
  }
}
