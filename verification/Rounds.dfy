/** What a round of incremental visits forgets, destroys and leaves alone. */
module Rounds {
  import opened Names
  import opened Naming
  import opened Netfilter
  import opened Reconciler
  import opened Syncs
  import opened Cluster
  import opened Runs
  import opened Forwarding

  // ---------- one round ----------

  /** Nothing becomes active, tracked or a set, and the rules stay. */
  ghost predicate Shrinks(s: State, s': State) {
    && s'.active == s.active && s'.table == s.table && s'.sets.Keys <= s.sets.Keys
    && (forall tag :: tag in s'.tracked ==> tag in s.tracked && s'.tracked[tag] == s.tracked[tag])
  }

  lemma SyncShrinks(s: State, tag: Tag)
    ensures Shrinks(s, TrySync(s, tag))
  {
    if tag in s.tracked && s.tracked[tag] in s.active && Wanted(s, tag).Some? {
      SyncedKeys(s.sets, s.tracked[tag], Wanted(s, tag).value);
    }
  }

  lemma SyncedKeys(sets: Sets, name: SetName, wanted: set<string>)
    ensures Synced(sets, name, wanted).Keys == sets.Keys
  {}

  lemma DropShrinks(s: State, ns: string)
    ensures Shrinks(s, TryDrop(s, ns))
  {}

  lemma TryShrinks(s: State, v: Visit)
    ensures Shrinks(s, Try(s, v))
  {
    match v
    case Sync(tag) => SyncShrinks(s, tag);
    case Drop(ns) => DropShrinks(s, ns);
  }

  lemma {:induction false} RoundShrinks(s: State, visits: seq<Visit>)
    ensures Shrinks(s, TryAll(s, visits))
  {
    if visits != [] {
      RoundShrinks(s, visits[..|visits| - 1]);
      TryShrinks(TryAll(s, visits[..|visits| - 1]), visits[|visits| - 1]);
    }
  }

  lemma SyncForgets(s: State, other: Tag, tag: Tag)
    ensures tag in TrySync(s, other).tracked <==> tag in s.tracked && (other == tag ==> s.tracked[tag] in s.active)
  {}

  lemma DropForgets(s: State, ns: string, tag: Tag)
    requires tag != NamespacePods(ns)
    ensures tag in TryDrop(s, ns).tracked <==> tag in s.tracked
  {}

  lemma TryForgets(s: State, v: Visit, tag: Tag)
    requires tag.NamespacePods? ==> v != Drop(tag.ns)
    ensures tag in Try(s, v).tracked <==> tag in s.tracked && (v == Sync(tag) ==> s.tracked[tag] in s.active)
  {
    match v
    case Sync(other) => SyncForgets(s, other, tag);
    case Drop(ns) => DropForgets(s, ns, tag);
  }

  /** A visited tag is forgotten exactly when its set is not active; one that is not visited is not forgotten. */
  lemma {:induction false} RoundForgets(s: State, visits: seq<Visit>, tag: Tag)
    requires tag.NamespacePods? ==> Drop(tag.ns) !in visits
    ensures tag in TryAll(s, visits).tracked
       <==> tag in s.tracked && (Sync(tag) in visits ==> s.tracked[tag] in s.active)
    ensures tag in TryAll(s, visits).tracked ==> TryAll(s, visits).tracked[tag] == s.tracked[tag]
  {
    if visits != [] {
      var n := |visits| - 1;
      assert visits == visits[..n] + [visits[n]];
      RoundForgets(s, visits[..n], tag);
      RoundShrinks(s, visits[..n]);
      TryForgets(TryAll(s, visits[..n]), visits[n], tag);
      TryShrinks(TryAll(s, visits[..n]), visits[n]);
    }
  }

  /** The set of a visit, which is the only one it can change. */
  ghost predicate Visits(s: State, v: Visit, n: SetName) {
    var tag := if v.Sync? then v.tag else NamespacePods(v.ns);
    tag in s.tracked && s.tracked[tag] == n
  }

  lemma TryLeaves(s: State, v: Visit, n: SetName)
    requires !Visits(s, v, n) || (v.Sync? && n !in s.active)
    ensures n in Try(s, v).sets <==> n in s.sets
    ensures n in s.sets ==> Try(s, v).sets[n] == s.sets[n]
  {}

  /** A set that is not active, and not to be destroyed, keeps the members it has. */
  lemma {:induction false} RoundSpares(s: State, visits: seq<Visit>, n: SetName)
    requires n !in s.active && forall ns :: Drop(ns) in visits ==> !Visits(s, Drop(ns), n)
    ensures n in TryAll(s, visits).sets <==> n in s.sets
    ensures n in s.sets ==> TryAll(s, visits).sets[n] == s.sets[n]
  {
    if visits != [] {
      var k := |visits| - 1;
      assert visits == visits[..k] + [visits[k]];
      RoundSpares(s, visits[..k], n);
      RoundShrinks(s, visits[..k]);
      assert visits[k] in visits;
      TryLeaves(TryAll(s, visits[..k]), visits[k], n);
    }
  }

  lemma TryDrops(s: State, ns: string, name: SetName)
    requires NamespacePods(ns) in s.tracked && s.tracked[NamespacePods(ns)] == name
    ensures name in Try(s, Drop(ns)).sets <==> name in s.sets && SetReferenced(s.table, name)
  {}

  lemma TryReferenced(s: State, v: Visit, name: SetName)
    requires SetReferenced(s.table, name)
    ensures name in Try(s, v).sets <==> name in s.sets
  {}

  lemma {:induction false} RoundReferenced(s: State, visits: seq<Visit>, name: SetName)
    requires SetReferenced(s.table, name)
    ensures name in TryAll(s, visits).sets <==> name in s.sets
  {
    if visits != [] {
      RoundReferenced(s, visits[..|visits| - 1], name);
      RoundShrinks(s, visits[..|visits| - 1]);
      TryReferenced(TryAll(s, visits[..|visits| - 1]), visits[|visits| - 1], name);
    }
  }

  lemma {:induction false} RoundDestroys(s: State, visits: seq<Visit>, ns: string, name: SetName)
    requires NamespacePods(ns) in s.tracked && s.tracked[NamespacePods(ns)] == name && !SetReferenced(s.table, name)
    requires Drop(ns) in visits && Sync(NamespacePods(ns)) !in visits
    ensures name !in TryAll(s, visits).sets
  {
    var n := |visits| - 1;
    var before := visits[..n];
    assert visits == before + [visits[n]];
    RoundShrinks(s, before);
    TryShrinks(TryAll(s, before), visits[n]);
    if Drop(ns) in before {
      RoundDestroys(s, before, ns, name);
    } else {
      RoundForgets(s, before, NamespacePods(ns));
      TryDrops(TryAll(s, before), ns, name);
    }
  }

  // ---------- in a run ----------

  /**
   * A pod synchronisation forgets exactly the tags it visits whose sets are no longer active, and
   * leaves every set that is not active as it was.
   */
  lemma RunForgets(u: Setup, states: seq<Sys>, acts: seq<Act>, i: nat, tag: Tag, n: SetName)
    requires IsRun(u, states, acts) && i < |acts| && acts[i].SyncPods?
    ensures var s, s' := states[i].s, states[i + 1].s;
            && (tag in s'.tracked
                <==> tag in s.tracked && (Sync(tag) in acts[i].visits ==> s.tracked[tag] in s.active))
            && (n !in s.active ==> (n in s'.sets <==> n in s.sets))
            && (n !in s.active && n in s.sets ==> s'.sets[n] == s.sets[n])
  {
    StepForgets(u, states[i], acts[i], tag, n);
  }

  lemma StepForgets(u: Setup, sys: Sys, a: Act, tag: Tag, n: SetName)
    requires Enabled(u, sys, a) && a.SyncPods?
    ensures var s, s' := sys.s, Next(u, sys, a).s;
            && (tag in s'.tracked <==> tag in s.tracked && (Sync(tag) in a.visits ==> s.tracked[tag] in s.active))
            && (n !in s.active ==> (n in s'.sets <==> n in s.sets))
            && (n !in s.active && n in s.sets ==> s'.sets[n] == s.sets[n])
  {
    var s := PodFlushed(sys.s, sys.infos, sys.podItems, sys.nsItems, sys.labelItems, a.podOrder, a.nsOrder,
        a.labelOrder);
    assert Next(u, sys, a).s == TryAll(s, a.visits);
    assert forall ns :: Drop(ns) !in a.visits;
    RoundForgets(s, a.visits, tag);
    if n !in s.active {
      RoundSpares(s, a.visits, n);
    }
  }

  lemma RoundOfDrop(s: State, visits: seq<Visit>, ns: string, name: SetName)
    requires NamespacePods(ns) in s.tracked && s.tracked[NamespacePods(ns)] == name && name in s.sets
    requires Drop(ns) in visits && Sync(NamespacePods(ns)) !in visits
    ensures NamespacePods(ns) !in TryAll(s, visits).tracked
    ensures name in TryAll(s, visits).sets <==> SetReferenced(s.table, name)
  {
    GetsUntracked(s, visits, ns);
    if SetReferenced(s.table, name) {
      RoundReferenced(s, visits, name);
    } else {
      RoundDestroys(s, visits, ns, name);
    }
  }

  /** The set of a namespace whose deletion is learnt of is forgotten, and destroyed unless a rule refers to it. */
  lemma RunDrops(u: Setup, states: seq<Sys>, acts: seq<Act>, i: nat, ns: string)
    requires IsRun(u, states, acts) && i < |acts| && LearnsDeletion(states[i], acts[i], ns)
             && NamespacePods(ns) in states[i].s.tracked
    ensures NamespacePods(ns) !in states[i + 1].s.tracked
    ensures NamespaceSet(u.nm, ns) in states[i].s.sets
    ensures NamespaceSet(u.nm, ns) in states[i + 1].s.sets <==> SetReferenced(states[i].s.table, NamespaceSet(u.nm, ns))
  {
    RunSound(u, states, acts, i);
    StepDrops(u, states[i], acts[i], ns);
  }

  lemma StepDrops(u: Setup, sys: Sys, a: Act, ns: string)
    requires Sound(u, sys) && Enabled(u, sys, a) && LearnsDeletion(sys, a, ns) && NamespacePods(ns) in sys.s.tracked
    ensures var s', name := Next(u, sys, a).s, NamespaceSet(u.nm, ns);
            && NamespacePods(ns) !in s'.tracked && name in sys.s.sets
            && (name in s'.sets <==> SetReferenced(sys.s.table, name))
  {
    assert NamedTag(u.nm, sys.s.selectors, NamespacePods(ns), sys.s.tracked[NamespacePods(ns)]);
    assert TagWell(sys.s.selectors, u.mean, NamespacePods(ns), NamespaceSet(u.nm, ns));
    DropsDeleted(sys, a.visits, ns);
    RoundOfDrop(NamespaceFlushed(sys.s, sys.infoItems, a.infoOrder), a.visits, ns, NamespaceSet(u.nm, ns));
  }
}
