/**
 * The entry chains over whole runs: which packets FORWARD and OUTPUT decide and how, and what a
 * namespace's pod set shows after the namespace has been deleted under its policies.
 */
module Forwarding {
  import opened Names
  import opened Naming
  import opened Netfilter
  import opened Policies
  import opened Indexes
  import opened Coalescing
  import opened Pods
  import opened Compiler
  import opened Verdicts
  import opened Entries
  import opened Restoring
  import opened Reconciler
  import opened Syncs
  import opened RuleSync
  import opened Cluster
  import opened Runs
  import opened EndToEnd

  // ---------- when a namespace's set is forgotten ----------

  /** A synchronisation by namespaces that learns that the namespace has been deleted. */
  ghost predicate LearnsDeletion(sys: Sys, a: Act, ns: string) {
    a.SyncNamespaces? && ns in sys.flushed.namespaces && ns !in sys.store.namespaces
  }

  /** The namespace's deletion was learnt of, and no rules have been made since. */
  ghost predicate Forgotten(states: seq<Sys>, acts: seq<Act>, i: nat, ns: string)
    requires i <= |acts| < |states|
  {
    exists j :: 0 <= j < i && LearnsDeletion(states[j], acts[j], ns) && forall m :: j < m < i ==> !MakesRules(acts[m])
  }

  lemma ForgottenNext(states: seq<Sys>, acts: seq<Act>, i: nat, ns: string)
    requires i < |acts| < |states|
    ensures Forgotten(states, acts, i + 1, ns)
            <==> !MakesRules(acts[i]) && (Forgotten(states, acts, i, ns) || LearnsDeletion(states[i], acts[i], ns))
  {
    if Forgotten(states, acts, i + 1, ns) {
      var j :| && 0 <= j < i + 1 && LearnsDeletion(states[j], acts[j], ns)
               && forall m :: j < m < i + 1 ==> !MakesRules(acts[m]);
      if j < i {
        assert !MakesRules(acts[i]) && Forgotten(states, acts, i, ns);
      }
    }
    if !MakesRules(acts[i]) && Forgotten(states, acts, i, ns) {
      var j :| 0 <= j < i && LearnsDeletion(states[j], acts[j], ns) && forall m :: j < m < i ==> !MakesRules(acts[m]);
      assert forall m :: j < m < i + 1 ==> !MakesRules(acts[m]);
    }
  }

  /** The pods a governed namespace's set shows: the flushed ones, or those of the moment it was forgotten. */
  ghost function Shown(states: seq<Sys>, acts: seq<Act>, i: nat, ns: string): map<Key, Pod>
    requires i <= |acts| < |states|
  {
    if i == 0 || !Forgotten(states, acts, i, ns) then states[i].flushed.pods
    else if Forgotten(states, acts, i - 1, ns) then Shown(states, acts, i - 1, ns)
    else states[i - 1].flushed.pods
  }

  // ---------- visits and one set ----------

  lemma {:induction false} StaysTracked(s: State, visits: seq<Visit>, ns: string)
    requires NamespacePods(ns) in s.tracked && s.tracked[NamespacePods(ns)] in s.active && Drop(ns) !in visits
             && Trackable(s)
    ensures NamespacePods(ns) in TryAll(s, visits).tracked
            && TryAll(s, visits).tracked[NamespacePods(ns)] == s.tracked[NamespacePods(ns)]
  {
    if visits != [] {
      var n := |visits| - 1;
      assert visits == visits[..n] + [visits[n]];
      StaysTracked(s, visits[..n], ns);
      VisitsKeep(s, visits[..n]);
      TryKeeps(TryAll(s, visits[..n]), visits[n], ns);
    }
  }

  lemma TryKeeps(s: State, v: Visit, ns: string)
    requires NamespacePods(ns) in s.tracked && s.tracked[NamespacePods(ns)] in s.active && v != Drop(ns)
    ensures NamespacePods(ns) in Try(s, v).tracked
            && Try(s, v).tracked[NamespacePods(ns)] == s.tracked[NamespacePods(ns)]
  {}

  lemma TryUntracks(s: State, v: Visit, ns: string)
    requires v == Drop(ns) || NamespacePods(ns) !in s.tracked
    ensures NamespacePods(ns) !in Try(s, v).tracked
  {}

  lemma {:induction false} GetsUntracked(s: State, visits: seq<Visit>, ns: string)
    requires Drop(ns) in visits || NamespacePods(ns) !in s.tracked
    ensures NamespacePods(ns) !in TryAll(s, visits).tracked
  {
    if visits != [] {
      var n := |visits| - 1;
      assert visits == visits[..n] + [visits[n]];
      if visits[n] != Drop(ns) {
        GetsUntracked(s, visits[..n], ns);
      }
      TryUntracks(TryAll(s, visits[..n]), visits[n], ns);
    }
  }

  /** No tracked tag but the namespace's own has this set, and that one is not synchronised. */
  ghost predicate Spared(s: State, visits: seq<Visit>, ns: string, name: SetName) {
    && SetReferenced(s.table, name) && Sync(NamespacePods(ns)) !in visits
    && forall tag :: tag in s.tracked && s.tracked[tag] == name ==> tag == NamespacePods(ns)
  }

  lemma TrySpares(s: State, v: Visit, ns: string, name: SetName)
    requires Spared(s, [v], ns, name)
    ensures var s' := Try(s, v);
            && s'.table == s.table
               && (forall tag :: tag in s'.tracked ==> tag in s.tracked && s'.tracked[tag] == s.tracked[tag])
            && (name in s'.sets <==> name in s.sets) && (name in s.sets ==> s'.sets[name] == s.sets[name])
  {
    assert v in [v];
    if v.Sync? {
      TryUntouchedBy(s, v.tag, name);
    }
  }

  lemma TryUntouchedBy(s: State, tag: Tag, name: SetName)
    requires tag in s.tracked ==> s.tracked[tag] != name
    ensures var s' := TrySync(s, tag);
            (name in s'.sets <==> name in s.sets) && (name in s.sets ==> s'.sets[name] == s.sets[name])
  {}

  /** A set a rule refers to is left alone by visits that do not synchronise it, even when it is to be destroyed. */
  lemma {:induction false} VisitsSpare(s: State, visits: seq<Visit>, ns: string, name: SetName)
    requires Spared(s, visits, ns, name)
    ensures var s' := TryAll(s, visits);
            && s'.table == s.table
               && (forall tag :: tag in s'.tracked ==> tag in s.tracked && s'.tracked[tag] == s.tracked[tag])
            && (name in s'.sets <==> name in s.sets) && (name in s.sets ==> s'.sets[name] == s.sets[name])
  {
    if visits != [] {
      var n := |visits| - 1;
      assert visits == visits[..n] + [visits[n]];
      VisitsSpare(s, visits[..n], ns, name);
      TrySpares(TryAll(s, visits[..n]), visits[n], ns, name);
    }
  }

  // ---------- rules refer to the sets of governed namespaces ----------

  lemma ForwardMore(nm: Namer, cfg: Config, before: seq<Item>, last: Item, ns: string, d: Direction)
    requires ClearWith(nm, cfg, before, Enter(ns, d)) && last == Enter(ns, d) && last !in before
    ensures EntryRule(nm, d, ns) in Content(nm, cfg, before + [last], EnnForward)
  {
    ActiveByEnter(nm, cfg, before, ns, d);
    OnEntry(nm, cfg, last, Active(nm, cfg, before), EnnForward);
    ContentLast(nm, cfg, before, last, EnnForward);
  }

  lemma {:induction false} ForwardRefers(nm: Namer, cfg: Config, items: seq<Item>, ns: string, d: Direction)
    requires ClearWith(nm, cfg, items, Enter(ns, d)) && Enter(ns, d) in items
    ensures EntryRule(nm, d, ns) in Content(nm, cfg, items, EnnForward)
  {
    var n := |items| - 1;
    assert items == items[..n] + [items[n]];
    if Enter(ns, d) in items[..n] {
      ForwardRefers(nm, cfg, items[..n], ns, d);
      ContentLast(nm, cfg, items[..n], items[n], EnnForward);
    } else {
      ForwardMore(nm, cfg, items[..n], items[n], ns, d);
    }
  }

  lemma GovernedReferenced(nm: Namer, cfg: Config, sys: Sys, ns: string, d: Direction)
    requires RulesInv(nm, cfg, sys) && Governed(sys.flushed.policies, ns, d)
    ensures SetReferenced(sys.s.table, NamespaceSet(nm, ns))
  {
    var items := WalkItems(sys.walk);
    GovernedEntered(sys.flushed.policies, sys.walk, sys.order, ns, d);
    ClearEnter(nm, cfg, items, ns, d);
    ForwardRefers(nm, cfg, items, ns, d);
    assert Entry(EnnForward);
    EntryReferenced(nm, sys.s.table, ns, d);
  }

  lemma EntryReferenced(nm: Namer, t: Table, ns: string, d: Direction)
    requires EnnForward in t && EntryRule(nm, d, ns) in t[EnnForward]
    ensures SetReferenced(t, NamespaceSet(nm, ns))
  {
    var rules := t[EnnForward];
    var i :| 0 <= i < |rules| && rules[i] == EntryRule(nm, d, ns);
    assert rules[i].matches[0] == MatchSet(NamespaceSet(nm, ns), OwnSide(d));
    assert RefersTo(rules[i], NamespaceSet(nm, ns));
  }

  lemma GovernedBegun(policies: map<Key, Policy>, ls: seq<ListedPolicy>, order: seq<Key>, ns: string, d: Direction)
                      returns (item: Item)
    requires Walks(ls, order, policies) && Governed(policies, ns, d)
    ensures item in WalkItems(ls) && item.Begin? && item.ns == ns
  {
    var k :| k in policies && policies[k].ns == ns && d in policies[k].types;
    item := Begin(ns, policies[k].name, policies[k].selector);
    assert ItemOf(policies[k], item);
    WalkVisits(ls, order, policies, item);
  }

  lemma GovernedActive(nm: Namer, cfg: Config, sys: Sys, ns: string, d: Direction)
    requires RulesInv(nm, cfg, sys) && Governed(sys.flushed.policies, ns, d)
    ensures NamespaceSet(nm, ns) in sys.s.active
  {
    var item := GovernedBegun(sys.flushed.policies, sys.walk, sys.order, ns, d);
    ActiveSetsOfItem(nm, WalkItems(sys.walk), item);
    assert NamespaceSet(nm, ns) in SetsOf(nm, item);
  }

  // ---------- what a namespace's set shows ----------

  /** The set exists, is known for the namespace's pods, is tracked or not, and lists the addresses of these pods. */
  ghost predicate Shows(u: Setup, s: State, ns: string, pods: map<Key, Pod>, tracked: bool) {
    var name := NamespaceSet(u.nm, ns);
    && name in s.sets && s.sets[name].kind == HashIp && u.mean(name) == NamespaceMeant(ns)
    && (NamespacePods(ns) in s.tracked <==> tracked)
    && forall ip :: ip in s.sets[name].members <==> InNamespace(pods, ns, ip)
  }

  /** A tracked namespace's set shows the flushed pods. */
  lemma TrackedShows(u: Setup, sys: Sys, ns: string)
    requires Inv(u.nm, u.cfg, u.mean, sys) && NamespacePods(ns) in sys.s.tracked
    ensures Shows(u, sys.s, ns, sys.flushed.pods, true)
  {
    var s, name := sys.s, sys.s.tracked[NamespacePods(ns)];
    assert NamedTag(u.nm, s.selectors, NamespacePods(ns), name);
    assert TagWell(s.selectors, u.mean, NamespacePods(ns), name) && name in s.sets && Good(s, u.mean, name);
    assert s.sets[name].kind == KindOf(name);
    forall ip ensures ip in s.sets[name].members <==> InNamespace(sys.flushed.pods, ns, ip) {
      IndexedNamespace(sys, ns, ip);
    }
  }

  /** The set of a namespace is nobody else's. */
  lemma OnlyItsOwn(u: Setup, s: State, ns: string)
    requires WellTracked(s, u.mean) && u.mean(NamespaceSet(u.nm, ns)) == NamespaceMeant(ns)
    ensures forall tag :: tag in s.tracked && s.tracked[tag] == NamespaceSet(u.nm, ns) ==> tag == NamespacePods(ns)
  {
    forall tag | tag in s.tracked && s.tracked[tag] == NamespaceSet(u.nm, ns) ensures tag == NamespacePods(ns) {
      assert TagWell(s.selectors, u.mean, tag, s.tracked[tag]);
    }
  }

  /** Making rules tracks the sets of all governed namespaces again. */
  lemma RulesTrack(u: Setup, s: State, policies: map<Key, Policy>, ls: seq<ListedPolicy>, order: seq<Key>,
                   tags: seq<Tag>, ns: string, d: Direction)
    requires Named(u.nm, s) && Kinds(s) && RulesReady(u.nm, u.cfg, u.mean, s, policies, ls, order, tags)
             && Governed(policies, ns, d)
    ensures var s' := RulesAndSets(u.nm, u.cfg, s, WalkItems(ls), tags);
            NamespacePods(ns) in s'.tracked && s'.tracked[NamespacePods(ns)] == NamespaceSet(u.nm, ns)
  {
    var item := GovernedBegun(policies, ls, order, ns, d);
    var s0, s1 := s.(active := {IpRangeSet(u.nm), FlannelNetSet(u.nm)}), RulesSynced(u.nm, u.cfg, WalkItems(ls), s);
    WalkTracking(u.nm, WalkItems(ls), s0);
    assert NamespacePods(ns) in TagsOf(item);
    FullKeeps(s1, tags);
    assert NamedTag(u.nm, s1.selectors, NamespacePods(ns), s1.tracked[NamespacePods(ns)]);
  }

  lemma BaseNamed(u: Setup, sys: Sys, a: Act)
    requires Sound(u, sys) && MakesRules(a) && Enabled(u, sys, a)
    ensures Named(u.nm, RulesBase(u, sys, a)) && Kinds(RulesBase(u, sys, a))
  {
    if a.FirstSync? {
      var s := FirstFlush(sys, a.podOrder, a.nsOrder, a.infoOrder).s;
      FirstFlushInv(u.nm, u.cfg, u.mean, sys, a.podOrder, a.nsOrder, a.infoOrder);
      ConfigKeeps(u.nm, u.cfg, u.flannel, s, u.mean);
    } else {
      ConfigKeeps(u.nm, u.cfg, u.flannel, sys.s, u.mean);
    }
  }

  lemma RulesShow(u: Setup, sys: Sys, a: Act, ns: string, d: Direction)
    requires Sound(u, sys) && MakesRules(a) && Enabled(u, sys, a) && Governed(RulePolicies(sys, a), ns, d)
    ensures Shows(u, Next(u, sys, a).s, ns, Next(u, sys, a).flushed.pods, true)
  {
    var sys' := Next(u, sys, a);
    NextSound(u, sys, a);
    BaseNamed(u, sys, a);
    RulesResult(u, sys, a);
    RulesTrack(u, RulesBase(u, sys, a), RulePolicies(sys, a), a.ls, a.order, a.tags, ns, d);
    AfterRules(u, sys, a);
    GovernedActive(u.nm, u.cfg, sys', ns, d);
    TrackedShows(u, sys', ns);
  }

  lemma AfterRules(u: Setup, sys: Sys, a: Act)
    requires MakesRules(a) && Enabled(u, sys, a)
    ensures Next(u, sys, a).started && Next(u, sys, a).flushed.policies == RulePolicies(sys, a)
    ensures a.SyncPolicies?
            || Next(u, sys, a).s.active == RulesAndSets(u.nm, u.cfg, RulesBase(u, sys, a), WalkItems(a.ls),
                   a.tags).active
  {}

  // ---------- visits ----------

  /** A forgotten set is left as it is. */
  lemma ForgottenStays(u: Setup, s: State, visits: seq<Visit>, ns: string, pods: map<Key, Pod>)
    requires Shows(u, s, ns, pods, false) && WellTracked(s, u.mean) && SetReferenced(s.table, NamespaceSet(u.nm, ns))
    ensures Shows(u, TryAll(s, visits), ns, pods, false)
  {
    OnlyItsOwn(u, s, ns);
    GetsUntracked(s, visits, ns);
    UntouchedVisits(s, visits, NamespaceSet(u.nm, ns));
  }

  lemma {:induction false} UntouchedVisits(s: State, visits: seq<Visit>, name: SetName)
    requires forall tag :: tag in s.tracked ==> s.tracked[tag] != name
    ensures var s' := TryAll(s, visits);
            && (forall tag :: tag in s'.tracked ==> s'.tracked[tag] != name)
            && (name in s'.sets <==> name in s.sets) && (name in s.sets ==> s'.sets[name] == s.sets[name])
  {
    if visits != [] {
      UntouchedVisits(s, visits[..|visits| - 1], name);
      TryUntouched(TryAll(s, visits[..|visits| - 1]), visits[|visits| - 1], name);
    }
  }

  lemma TryUntouched(s: State, v: Visit, name: SetName)
    requires forall tag :: tag in s.tracked ==> s.tracked[tag] != name
    ensures var s' := Try(s, v);
            && (forall tag :: tag in s'.tracked ==> s'.tracked[tag] != name)
            && (name in s'.sets <==> name in s.sets) && (name in s.sets ==> s'.sets[name] == s.sets[name])
  {
    var tag := if v.Sync? then v.tag else NamespacePods(v.ns);
    assert tag in s.tracked ==> s.tracked[tag] != name;
  }

  /** At the moment it is forgotten, a set keeps what it shows. */
  lemma ForgettingKeeps(u: Setup, s: State, visits: seq<Visit>, ns: string, pods: map<Key, Pod>)
    requires Shows(u, s, ns, pods, true) && WellTracked(s, u.mean) && SetReferenced(s.table, NamespaceSet(u.nm, ns))
    requires Drop(ns) in visits && Sync(NamespacePods(ns)) !in visits
    ensures Shows(u, TryAll(s, visits), ns, pods, false)
  {
    OnlyItsOwn(u, s, ns);
    GetsUntracked(s, visits, ns);
    VisitsSpare(s, visits, ns, NamespaceSet(u.nm, ns));
  }

  lemma DropsDeleted(sys: Sys, visits: seq<Visit>, ns: string)
    requires PendingInv(sys) && VisitsNamespaces(sys.infoItems, visits)
    ensures Drop(ns) in visits <==> ns in sys.flushed.namespaces && ns !in sys.store.namespaces
    ensures Sync(NamespacePods(ns)) !in visits
  {
    var items := sys.infoItems;
    forall k | k in items
      ensures items[k] == Change(NamespaceInfo(Find(sys.flushed.namespaces, k)),
                  NamespaceInfo(Find(sys.store.namespaces, k)))
      ensures items[k].previous.Some? ==> items[k].previous.value.name == k
    {}
    if ns in sys.flushed.namespaces && ns !in sys.store.namespaces {
      assert Gone(items, ns) && items[ns].previous.value.name == ns;
    }
    assert Drop(ns) in visits <==> exists k :: Gone(items, k) && items[k].previous.value.name == ns;
  }

  lemma StillTracked(u: Setup, sys: Sys, s: State, visits: seq<Visit>, ns: string, d: Direction)
    requires Inv(u.nm, u.cfg, u.mean, sys) && sys.started && Governed(sys.flushed.policies, ns, d)
             && NamespacePods(ns) in sys.s.tracked
    requires s.tracked == sys.s.tracked && s.active == sys.s.active && Drop(ns) !in visits
    ensures NamespacePods(ns) in TryAll(s, visits).tracked
  {
    GovernedActive(u.nm, u.cfg, sys, ns, d);
    ConsistentTrackable(sys.s, u.mean);
    assert NamedTag(u.nm, sys.s.selectors, NamespacePods(ns), sys.s.tracked[NamespacePods(ns)]);
    StaysTracked(s, visits, ns);
  }

  lemma VisitsShow(u: Setup, sys: Sys, s: State, visits: seq<Visit>, ns: string, d: Direction, pods: map<Key, Pod>)
    requires Inv(u.nm, u.cfg, u.mean, sys) && sys.started && Governed(sys.flushed.policies, ns, d)
    requires s == sys.s.(pml := s.pml, npm := s.npm, nmlm := s.nmlm) && WellTracked(s, u.mean)
    requires Shows(u, sys.s, ns, pods, false)
    ensures Shows(u, TryAll(s, visits), ns, pods, false)
  {
    GovernedReferenced(u.nm, u.cfg, sys, ns, d);
    ForgottenStays(u, s, visits, ns, pods);
  }

  lemma PodStepShows(u: Setup, sys: Sys, a: Act, ns: string, d: Direction, pods: map<Key, Pod>, tracked: bool)
    requires Sound(u, sys) && sys.started && Enabled(u, sys, a) && a.SyncPods? && Governed(sys.flushed.policies, ns, d)
    requires Shows(u, sys.s, ns, pods, tracked)
    ensures Shows(u, Next(u, sys, a).s, ns, if tracked then Next(u, sys, a).flushed.pods else pods, tracked)
  {
    var s := PodFlushed(sys.s, sys.infos, sys.podItems, sys.nsItems, sys.labelItems, a.podOrder, a.nsOrder,
        a.labelOrder);
    assert Drop(ns) !in a.visits;
    if tracked {
      NextSound(u, sys, a);
      StillTracked(u, sys, s, a.visits, ns, d);
      TrackedShows(u, Next(u, sys, a), ns);
    } else {
      VisitsShow(u, sys, s, a.visits, ns, d, pods);
    }
  }

  lemma NamespaceStepShows(u: Setup, sys: Sys, a: Act, ns: string, d: Direction, pods: map<Key, Pod>, tracked: bool)
    requires Sound(u, sys) && sys.started && Enabled(u, sys, a) && a.SyncNamespaces?
             && Governed(sys.flushed.policies, ns, d)
    requires Shows(u, sys.s, ns, pods, tracked)
    ensures var after := tracked && !LearnsDeletion(sys, a, ns);
            Shows(u, Next(u, sys, a).s, ns, if after then Next(u, sys, a).flushed.pods else pods, after)
  {
    var s := NamespaceFlushed(sys.s, sys.infoItems, a.infoOrder);
    DropsDeleted(sys, a.visits, ns);
    if !tracked {
      VisitsShow(u, sys, s, a.visits, ns, d, pods);
    } else if LearnsDeletion(sys, a, ns) {
      GovernedReferenced(u.nm, u.cfg, sys, ns, d);
      ForgettingKeeps(u, s, a.visits, ns, pods);
    } else {
      KeptStepShows(u, sys, a, ns, d);
    }
  }

  lemma KeptStepShows(u: Setup, sys: Sys, a: Act, ns: string, d: Direction)
    requires Sound(u, sys) && sys.started && Enabled(u, sys, a) && a.SyncNamespaces?
             && Governed(sys.flushed.policies, ns, d)
    requires NamespacePods(ns) in sys.s.tracked && Drop(ns) !in a.visits
    ensures Shows(u, Next(u, sys, a).s, ns, Next(u, sys, a).flushed.pods, true)
  {
    NextSound(u, sys, a);
    StillTracked(u, sys, NamespaceFlushed(sys.s, sys.infoItems, a.infoOrder), a.visits, ns, d);
    TrackedShows(u, Next(u, sys, a), ns);
  }

  /** What a step makes of what a governed namespace's set shows. */
  lemma StepShows(u: Setup, sys: Sys, a: Act, ns: string, d: Direction, pods: map<Key, Pod>, tracked: bool)
    requires Sound(u, sys) && Enabled(u, sys, a) && Governed(Next(u, sys, a).flushed.policies, ns, d)
             && Next(u, sys, a).started
    requires !MakesRules(a) ==> Shows(u, sys.s, ns, pods, tracked)
    requires !MakesRules(a) && tracked ==> pods == sys.flushed.pods
    ensures var after := MakesRules(a) || (tracked && !LearnsDeletion(sys, a, ns));
            Shows(u, Next(u, sys, a).s, ns, if after then Next(u, sys, a).flushed.pods else pods, after)
  {
    if MakesRules(a) {
      AfterRules(u, sys, a);
      RulesShow(u, sys, a, ns, d);
    } else if a.SyncPods? {
      PodStepShows(u, sys, a, ns, d, pods, tracked);
    } else if a.SyncNamespaces? {
      NamespaceStepShows(u, sys, a, ns, d, pods, tracked);
    }
  }

  lemma Unmade(u: Setup, sys: Sys, a: Act)
    requires Enabled(u, sys, a) && !MakesRules(a)
    ensures Next(u, sys, a).flushed.policies == sys.flushed.policies && Next(u, sys, a).started == sys.started
    ensures a.SyncNamespaces? ==> Next(u, sys, a).flushed.pods == sys.flushed.pods
  {}

  lemma ShownNext(u: Setup, states: seq<Sys>, acts: seq<Act>, i: nat, ns: string)
    requires i < |acts| < |states|
    ensures Forgotten(states, acts, i + 1, ns)
            <==> !MakesRules(acts[i]) && (Forgotten(states, acts, i, ns) || LearnsDeletion(states[i], acts[i], ns))
    ensures Shown(states, acts, i + 1, ns) == if Forgotten(states, acts, i + 1, ns) then Shown(states, acts, i, ns)
                else states[i + 1].flushed.pods
    ensures !Forgotten(states, acts, i, ns) ==> Shown(states, acts, i, ns) == states[i].flushed.pods
  {
    ForgottenNext(states, acts, i, ns);
  }

  ghost predicate ShowsAt(u: Setup, states: seq<Sys>, acts: seq<Act>, i: nat, ns: string)
    requires i <= |acts| < |states|
  {
    Shows(u, states[i].s, ns, Shown(states, acts, i, ns), !Forgotten(states, acts, i, ns))
  }

  lemma ShowsNext(u: Setup, states: seq<Sys>, acts: seq<Act>, i: nat, ns: string, d: Direction)
    requires i < |acts| < |states| && Sound(u, states[i]) && Enabled(u, states[i], acts[i])
             && states[i + 1] == Next(u, states[i], acts[i])
    requires states[i + 1].started && Governed(states[i + 1].flushed.policies, ns, d)
    requires !MakesRules(acts[i]) ==> ShowsAt(u, states, acts, i, ns)
    ensures ShowsAt(u, states, acts, i + 1, ns)
  {
    ShownNext(u, states, acts, i, ns);
    StepShows(u, states[i], acts[i], ns, d, Shown(states, acts, i, ns), !Forgotten(states, acts, i, ns));
  }

  /**
   * At every moment of a run, a governed namespace is tracked exactly when it has not been forgotten,
   * and its set holds the addresses of the pods flushed last, or last before it was forgotten.
   */
  lemma {:induction false} RunShows(u: Setup, states: seq<Sys>, acts: seq<Act>, i: nat, ns: string, d: Direction)
    requires IsRun(u, states, acts) && i < |states| && states[i].started && Governed(states[i].flushed.policies, ns, d)
    ensures ShowsAt(u, states, acts, i, ns)
  {
    if i > 0 {
      if MakesRules(acts[i - 1]) {
        RunShowsNext(u, states, acts, i - 1, ns, d);
      } else {
        RunUnmade(u, states, acts, i - 1);
        RunShows(u, states, acts, i - 1, ns, d);
        RunShowsNext(u, states, acts, i - 1, ns, d);
      }
    }
  }

  lemma RunUnmade(u: Setup, states: seq<Sys>, acts: seq<Act>, i: nat)
    requires IsRun(u, states, acts) && i < |acts| && !MakesRules(acts[i])
    ensures states[i + 1].flushed.policies == states[i].flushed.policies && states[i + 1].started == states[i].started
  {
    Unmade(u, states[i], acts[i]);
  }

  lemma RunShowsNext(u: Setup, states: seq<Sys>, acts: seq<Act>, i: nat, ns: string, d: Direction)
    requires IsRun(u, states, acts) && i < |acts| && states[i + 1].started
             && Governed(states[i + 1].flushed.policies, ns, d)
    requires !MakesRules(acts[i]) ==> ShowsAt(u, states, acts, i, ns)
    ensures ShowsAt(u, states, acts, i + 1, ns)
  {
    RunSound(u, states, acts, i);
    ShowsNext(u, states, acts, i, ns, d);
  }

  // ---------- what the entry chains decide ----------

  /** Some governed namespace's set shows the address on its side of the packet. */
  ghost predicate Catches(states: seq<Sys>, acts: seq<Act>, i: nat, ns: string, d: Direction, p: Packet)
    requires i <= |acts| < |states|
  {
    Governed(states[i].flushed.policies, ns, d) && InNamespace(Shown(states, acts, i, ns), ns, p.Address(OwnSide(d)))
  }

  lemma EnteredCatches(u: Setup, states: seq<Sys>, acts: seq<Act>, i: nat, w: World, item: Item, p: Packet)
    requires IsRun(u, states, acts) && i < |states| && states[i].started && w.sets == states[i].s.sets && item.Enter?
    ensures Sections(states[i].walk)
    ensures item in WalkItems(states[i].walk) && Entered(w, u.nm, item, p)
            <==> Catches(states, acts, i, item.ns, item.dir, p)
  {
    var sys := states[i];
    RunSound(u, states, acts, i);
    GovernedEntered(sys.flushed.policies, sys.walk, sys.order, item.ns, item.dir);
    if Governed(sys.flushed.policies, item.ns, item.dir) {
      RunShows(u, states, acts, i, item.ns, item.dir);
    }
  }

  /** The entry chains end in the verdict of one of the namespaces that catch the packet. */
  lemma {:induction false} EntryDecides(w: World, nm: Namer, cfg: Config, items: seq<Item>, walked: seq<Item>,
                                        p: Packet)
    ensures var v := EntryVerdict(w, nm, cfg, items, walked, p);
            v != Pass ==> exists item ::
              && item in walked && Entered(w, nm, item, p)
              && v == NamespaceVerdict(w, nm, cfg, items, item.ns, item.dir, p)
  {
    if walked != [] {
      var n := |walked| - 1;
      assert walked == walked[..n] + [walked[n]];
      EntryDecides(w, nm, cfg, items, walked[..n], p);
      assert walked[n] in walked;
    }
  }

  /** The namespace whose chain decides, seen as the one that catches the packet. */
  ghost predicate DecidedBy(u: Setup, states: seq<Sys>, acts: seq<Act>, i: nat, w: World, ns: string, d: Direction,
                            p: Packet)
    requires i <= |acts| < |states| && EnnForward in states[i].s.table
  {
    && Catches(states, acts, i, ns, d, p) && NamespaceChain(u.nm, d, ns) in states[i].s.table
    && Eval(w, states[i].s.table, EnnForward, p) == Eval(w, states[i].s.table, NamespaceChain(u.nm, d, ns), p)
  }

  lemma SomeDecides(u: Setup, states: seq<Sys>, acts: seq<Act>, i: nat, w: World, p: Packet)
    requires IsRun(u, states, acts) && i < |states| && states[i].started && w.sets == states[i].s.sets
    requires EnnForward in states[i].s.table && Eval(w, states[i].s.table, EnnForward, p) != Pass
    ensures exists ns, d :: DecidedBy(u, states, acts, i, w, ns, d, p)
  {
    var sys := states[i];
    RunSound(u, states, acts, i);
    var items := WalkItems(sys.walk);
    EntryChainsVerdict(w, u.nm, u.cfg, items, sys.s.table, p);
    EntryDecides(w, u.nm, u.cfg, items, items, p);
    var item :| item in items && Entered(w, u.nm, item, p)
                && EntryVerdict(w, u.nm, u.cfg, items, items, p)
                       == NamespaceVerdict(w, u.nm, u.cfg, items, item.ns, item.dir, p);
    EnteredCatches(u, states, acts, i, w, item, p);
    assert item == Enter(item.ns, item.dir);
    NamespaceChainVerdict(w, u.nm, u.cfg, items, sys.s.table, item.ns, item.dir, p);
    assert DecidedBy(u, states, acts, i, w, item.ns, item.dir, p);
  }

  lemma PassesUncaught(u: Setup, states: seq<Sys>, acts: seq<Act>, i: nat, w: World, p: Packet)
    requires IsRun(u, states, acts) && i < |states| && states[i].started && w.sets == states[i].s.sets
             && EnnForward in states[i].s.table
    ensures Eval(w, states[i].s.table, EnnForward, p) == Pass <==> forall ns, d :: !Catches(states, acts, i, ns, d, p)
  {
    var sys := states[i];
    RunSound(u, states, acts, i);
    var items := WalkItems(sys.walk);
    EntryChainsVerdict(w, u.nm, u.cfg, items, sys.s.table, p);
    EntryUndecided(w, u.nm, u.cfg, items, items, p);
    if Eval(w, sys.s.table, EnnForward, p) == Pass {
      forall ns, d ensures !Catches(states, acts, i, ns, d, p) {
        EnteredCatches(u, states, acts, i, w, Enter(ns, d), p);
        if Enter(ns, d) in items {
          var j :| 0 <= j < |items| && items[j] == Enter(ns, d);
        }
      }
    }
    if forall ns, d :: !Catches(states, acts, i, ns, d, p) {
      forall j | 0 <= j < |items| ensures !Entered(w, u.nm, items[j], p) {
        if items[j].Enter? {
          EnteredCatches(u, states, acts, i, w, items[j], p);
        }
      }
    }
  }

  /**
   * The entry chains, at every moment of every run after the first synchronisation: FORWARD and
   * OUTPUT do the same, INPUT decides nothing, a packet passes undecided exactly when no governed
   * namespace's set catches it, and otherwise one of the namespaces that catch it decides.
   */
  lemma ForwardDecides(u: Setup, states: seq<Sys>, acts: seq<Act>, i: nat, w: World, p: Packet)
    requires IsRun(u, states, acts) && i < |states| && states[i].started && w.sets == states[i].s.sets
    ensures EnnForward in states[i].s.table && EnnOutput in states[i].s.table && EnnInput in states[i].s.table
    ensures Eval(w, states[i].s.table, EnnForward, p) == Eval(w, states[i].s.table, EnnOutput, p)
    ensures Eval(w, states[i].s.table, EnnInput, p) == Pass
    ensures Eval(w, states[i].s.table, EnnForward, p) == Pass <==> forall ns, d :: !Catches(states, acts, i, ns, d, p)
    ensures Eval(w, states[i].s.table, EnnForward, p) != Pass
            ==> exists ns, d :: DecidedBy(u, states, acts, i, w, ns, d, p)
  {
    RunSound(u, states, acts, i);
    assert Entry(EnnForward) && Entry(EnnOutput) && Entry(EnnInput);
    EntryChainsVerdict(w, u.nm, u.cfg, WalkItems(states[i].walk), states[i].s.table, p);
    PassesUncaught(u, states, acts, i, w, p);
    if Eval(w, states[i].s.table, EnnForward, p) != Pass {
      SomeDecides(u, states, acts, i, w, p);
    }
  }

  // ---------- on the cluster's own pods ----------

  /** The namespace governs the address on its side of the packet, by the pods flushed last. */
  ghost predicate Concerns(sys: Sys, ns: string, d: Direction, p: Packet) {
    Governed(sys.flushed.policies, ns, d) && InNamespace(sys.flushed.pods, ns, p.Address(OwnSide(d)))
  }

  /** No governed namespace's deletion has been learnt of since rules were last made. */
  ghost predicate NoneForgotten(states: seq<Sys>, acts: seq<Act>, i: nat)
    requires i <= |acts| < |states|
  {
    forall ns, d :: Governed(states[i].flushed.policies, ns, d) ==> !Forgotten(states, acts, i, ns)
  }

  lemma CatchesConcerned(states: seq<Sys>, acts: seq<Act>, i: nat, ns: string, d: Direction, p: Packet)
    requires i <= |acts| < |states| && NoneForgotten(states, acts, i)
    ensures Catches(states, acts, i, ns, d, p) <==> Concerns(states[i], ns, d, p)
  {}

  /** A governed namespace is tracked exactly when its deletion has not been learnt of since rules were last made. */
  lemma TrackedExactly(u: Setup, states: seq<Sys>, acts: seq<Act>, i: nat, ns: string, d: Direction)
    requires IsRun(u, states, acts) && i < |states| && states[i].started && Governed(states[i].flushed.policies, ns, d)
    ensures NamespacePods(ns) in states[i].s.tracked <==> !Forgotten(states, acts, i, ns)
  {
    RunShows(u, states, acts, i, ns, d);
  }

  /**
   * Packets of no governed pod, and no others, pass the entry chains undecided while no governed
   * namespace is forgotten.
   */
  lemma ForwardPasses(u: Setup, states: seq<Sys>, acts: seq<Act>, i: nat, w: World, p: Packet)
    requires IsRun(u, states, acts) && i < |states| && states[i].started && w.sets == states[i].s.sets
             && NoneForgotten(states, acts, i)
    ensures EnnForward in states[i].s.table
    ensures Eval(w, states[i].s.table, EnnForward, p) == Pass <==> forall ns, d :: !Concerns(states[i], ns, d, p)
  {
    ForwardDecides(u, states, acts, i, w, p);
    forall ns, d ensures Catches(states, acts, i, ns, d, p) <==> Concerns(states[i], ns, d, p) {
      CatchesConcerned(states, acts, i, ns, d, p);
    }
  }

  /**
   * From cluster objects to FORWARD. While no governed namespace is forgotten, a packet that governed
   * pods send or receive is accepted when it may pass for every one of them and rejected when it may
   * for none; for a packet that concerns one namespace in one direction, that is always one of the two.
   */
  lemma ForwardFollowsPolicies(u: Setup, states: seq<Sys>, acts: seq<Act>, i: nat, w: World, p: Packet)
    requires IsRun(u, states, acts) && i < |states| && states[i].started && w.sets == states[i].s.sets
             && NoneForgotten(states, acts, i)
    requires exists ns, d :: Concerns(states[i], ns, d, p)
    requires forall ns, d :: Concerns(states[i], ns, d, p) ==> NoneExcepts(SceneOf(states[i], w.inNet), ns, d, p)
    ensures EnnForward in states[i].s.table
    ensures (forall ns, d :: Concerns(states[i], ns, d, p) ==> MayPass(u, SceneOf(states[i], w.inNet), ns, d, p))
              ==> Eval(w, states[i].s.table, EnnForward, p) == Accepted
    ensures (forall ns, d :: Concerns(states[i], ns, d, p) ==> !MayPass(u, SceneOf(states[i], w.inNet), ns, d, p))
              ==> Eval(w, states[i].s.table, EnnForward, p) == Rejected
  {
    ForwardPasses(u, states, acts, i, w, p);
    ForwardDecides(u, states, acts, i, w, p);
    var ns, d :| DecidedBy(u, states, acts, i, w, ns, d, p);
    CatchesConcerned(states, acts, i, ns, d, p);
    KernelFollowsPolicies(u, states, acts, i, w, ns, d, p);
  }

  // ---------- excepted packets ----------

  /** A rule that admits the packet does so by blocks alone, each of which excepts it. */
  ghost predicate OnlyExcepted(v: Scene, ns: string, d: Direction, p: Packet) {
    forall k, r ::
      InForce(v.objects.policies, k, ns, d) && r in v.objects.policies[k].Rules(d)
      && RuleAdmits(v, v.objects.policies[k], d, r, p)
      ==> RuleExcepts(v, ns, r, p.Address(FarSide(d)))
  }

  ghost predicate RuleExcepts(v: Scene, ns: string, r: PeerRule, far: string) {
    && !PodsAdmit(v, ns, r, far) && !NamespacesAdmit(v, r, far) && r.blocks != []
    && forall b :: b in r.blocks && v.inNet(b.cidr, far) ==> exists net :: net in b.except && v.inNet(net, far)
  }

  /** A clause that matches is one of a block whose except set holds the address. */
  lemma ExceptedItem(u: Setup, sys: Sys, w: World, item: Item, p: Packet)
    requires Inv(u.nm, u.cfg, u.mean, sys) && sys.started && NetsInv(u.nm, u.cfg, u.flannel, sys)
             && w.sets == sys.s.sets
    requires item in WalkItems(sys.walk) && item.Peer? && ItemMatch(w, u.nm, item, p)
    requires OnlyExcepted(SceneOf(sys, w.inNet), item.ns, item.dir, p)
    ensures item.clause.BlockPeer? && w.Has(ExceptOf(u.nm, item), p.Address(FarSide(item.dir)))
  {
    var v, far := SceneOf(sys, w.inNet), p.Address(FarSide(item.dir));
    var k, r := ItemOwner(sys, item);
    RuleAllowsByClause(w, u.nm, sys.flushed.policies[k], item.dir, r, p);
    RuleMeans(u, sys, w, k, item.dir, r, p);
    assert RuleExcepts(v, item.ns, r, far);
    MatchedPeer(u, sys, w, k, item, r, p);
    ExceptHas(u, sys, w, item, far);
  }

  lemma ItemOwner(sys: Sys, item: Item) returns (k: Key, r: PeerRule)
    requires Walks(sys.walk, sys.order, sys.flushed.policies) && item in WalkItems(sys.walk) && item.Peer?
    ensures InForce(sys.flushed.policies, k, item.ns, item.dir) && r in sys.flushed.policies[k].Rules(item.dir)
    ensures sys.flushed.policies[k].selector == item.selector && RuleHas(r, item.clause)
  {
    WalkVisits(sys.walk, sys.order, sys.flushed.policies, item);
    k :| k in sys.flushed.policies && ItemOf(sys.flushed.policies[k], item);
    r :| r in sys.flushed.policies[k].Rules(item.dir) && RuleHas(r, item.clause);
  }

  lemma MatchedPeer(u: Setup, sys: Sys, w: World, k: Key, item: Item, r: PeerRule, p: Packet)
    requires Inv(u.nm, u.cfg, u.mean, sys) && sys.started && w.sets == sys.s.sets && item.Peer?
             && ItemMatch(w, u.nm, item, p)
    requires InForce(sys.flushed.policies, k, item.ns, item.dir) && r in sys.flushed.policies[k].Rules(item.dir)
             && RuleHas(r, item.clause)
    requires RuleExcepts(SceneOf(sys, w.inNet), item.ns, r, p.Address(FarSide(item.dir)))
    ensures item.clause.BlockPeer? && item.clause.block in r.blocks
            && w.inNet(item.clause.block.cidr, p.Address(FarSide(item.dir)))
  {
    var far := p.Address(FarSide(item.dir));
    match item.clause
    case OnlyPorts(_) =>
    case PodPeer(pair, _) =>
      var j :| 0 <= j < |r.pods| && pair in Pairs(r.pods[j]);
      PodPeerIs(u, sys, w, k, item.dir, r, j, pair, far);
    case NamespacePeer(pair, _) =>
      var j :| 0 <= j < |r.namespaces| && pair in Pairs(r.namespaces[j]);
      NamespacePeerIs(u, sys, w, k, item.dir, r, j, pair, far);
    case BlockPeer(_, _) =>
  }

  lemma ExceptedVerdict(u: Setup, sys: Sys, w: World, ns: string, d: Direction, p: Packet)
    requires Inv(u.nm, u.cfg, u.mean, sys) && sys.started && NetsInv(u.nm, u.cfg, u.flannel, sys)
             && w.sets == sys.s.sets
    requires OnlyExcepted(SceneOf(sys, w.inNet), ns, d, p)
    ensures FirstVerdict(w, u.nm, WalkItems(sys.walk), WalkItems(sys.walk), ns, d, p) in {Pass, Rejected}
  {
    var items := WalkItems(sys.walk);
    var v := FirstVerdict(w, u.nm, items, items, ns, d, p);
    FirstVerdictIs(w, u.nm, items, items, ns, d, p);
    if v != Pass {
      var i :| 0 <= i < |items| && Belongs(items[i], ns, d) && GroupVerdict(w, u.nm, items, items[i], p) == v;
      ExceptedGroup(u, sys, w, items[i], p);
    }
  }

  lemma SameGroup(nm: Namer, a: Item, b: Item)
    requires a.Peer? && b.Peer? && GroupOf(a) == GroupOf(b)
    ensures ExceptOf(nm, a) == ExceptOf(nm, b) && a.dir == b.dir && a.ns == b.ns
            && (a.clause.BlockPeer? <==> b.clause.BlockPeer?)
  {}

  lemma ExceptedGroup(u: Setup, sys: Sys, w: World, item: Item, p: Packet)
    requires Inv(u.nm, u.cfg, u.mean, sys) && sys.started && NetsInv(u.nm, u.cfg, u.flannel, sys)
             && w.sets == sys.s.sets && item.Peer?
    requires OnlyExcepted(SceneOf(sys, w.inNet), item.ns, item.dir, p)
    ensures GroupVerdict(w, u.nm, WalkItems(sys.walk), item, p) in {Pass, Rejected}
  {
    var items := WalkItems(sys.walk);
    if GroupMatch(w, u.nm, items, GroupOf(item), p) {
      var j :| 0 <= j < |items| && items[j].Peer? && GroupOf(items[j]) == GroupOf(item)
          && ItemMatch(w, u.nm, items[j], p);
      ExceptedItem(u, sys, w, items[j], p);
      SameGroup(u.nm, items[j], item);
    }
  }

  /** At every moment of a run, a packet that blocks alone admit, each of them with an exception for it, is rejected. */
  lemma ExceptedRejected(u: Setup, states: seq<Sys>, acts: seq<Act>, i: nat, w: World, ns: string, d: Direction,
                         p: Packet)
    requires IsRun(u, states, acts) && i < |states| && states[i].started && w.sets == states[i].s.sets
    requires Governed(states[i].flushed.policies, ns, d) && OnlyExcepted(SceneOf(states[i], w.inNet), ns, d, p)
    requires !p.established && !InFlannel(u, p.Address(FarSide(d)))
             && (u.cfg.Unlimited() || w.inNet(u.cfg.ipRange, p.Address(FarSide(d))))
    ensures NamespaceChain(u.nm, d, ns) in states[i].s.table
    ensures Eval(w, states[i].s.table, NamespaceChain(u.nm, d, ns), p) == Rejected
  {
    var sys := states[i];
    RunSound(u, states, acts, i);
    GovernedEntered(sys.flushed.policies, sys.walk, sys.order, ns, d);
    NamespaceChainVerdict(w, u.nm, u.cfg, WalkItems(sys.walk), sys.s.table, ns, d, p);
    ConfigMeans(u, sys, w, p.Address(FarSide(d)));
    ExceptedVerdict(u, sys, w, ns, d, p);
  }
}
