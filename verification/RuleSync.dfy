/** The synchronisation of rules: the sets a walk creates, tracks and fills, and garbage collection. */
module RuleSync {
  import opened Names
  import opened Naming
  import opened Netfilter
  import opened Policies
  import opened Pods
  import opened Restoring
  import opened Reconciler
  import opened Syncs

  // ---------- what an item does to sets and tracking ----------

  function KindOf(n: SetName): SetKind {
    if n.RangeSet? || n.ExceptSet? then HashNet else HashIp
  }

  /** ipset create -exist: an existing set is kept with its members. */
  function Created(sets: Sets, name: SetName): Sets {
    if name in sets then sets else sets[name := IpSet(KindOf(name), {})]
  }

  ghost function CreatedAll(sets: Sets, names: set<SetName>): Sets {
    map n | n in sets.Keys + names :: if n in sets then sets[n] else IpSet(KindOf(n), {})
  }

  /** A set is entered in a tracking map only when its key is new there. */
  function Noted(tracked: map<Tag, SetName>, tag: Tag, name: SetName): map<Tag, SetName> {
    if tag in tracked then tracked else tracked[tag := name]
  }

  function PodTags(ns: string, pairs: set<Label>): set<Tag> { set pair | pair in pairs :: PodLabel(NsLabel(ns, pair)) }

  ghost function NotedAll(tracked: map<Tag, SetName>, nm: Namer, ns: string, pairs: set<Label>): map<Tag, SetName> {
    map tag: Tag | tag in tracked.Keys + PodTags(ns, pairs) :: if tag in tracked then tracked[tag]
        else LabelSet(nm, ns, if tag.PodLabel? then tag.l.pair else Label("", ""))
  }

  ghost function ItemTracked(nm: Namer, item: Item, tracked: map<Tag, SetName>): map<Tag, SetName> {
    match item
    case Begin(ns, policy, selector) =>
      var t := NotedAll(Noted(tracked, NamespacePods(ns), NamespaceSet(nm, ns)), nm, ns, Pairs(selector));
      if selector == map[] then t else t[XLabel(Key(ns, policy)) := SelectorSet(nm, ns, selector)]
    case Enter(_, _) => tracked
    case Peer(ns, _, _, _, clause) =>
      match clause
      case OnlyPorts(_) => tracked
      case PodPeer(pair, _) => Noted(tracked, PodLabel(NsLabel(ns, pair)), LabelSet(nm, ns, pair))
      case NamespacePeer(pair, _) => Noted(tracked, NamespaceLabel(pair), NamespaceLabelSet(nm, pair))
      case BlockPeer(_, _) => tracked
  }

  function ItemSelectors(item: Item, selectors: map<Key, Scoped>): map<Key, Scoped> {
    if item.Begin? && item.selector != map[]
        then selectors[Key(item.ns, item.policy) := Scoped(item.ns, item.selector)] else selectors
  }

  ghost function ItemSets(nm: Namer, item: Item, sets: Sets): Sets {
    var created := CreatedAll(sets, SetsOf(nm, item));
    if item.Peer? && item.clause.BlockPeer? then Synced(created, ExceptOf(nm, item),
        set net | net in item.clause.block.except) else created
  }

  ghost function ItemApplied(nm: Namer, item: Item, s: State): State {
    s.(tracked := ItemTracked(nm, item, s.tracked), selectors := ItemSelectors(item, s.selectors),
       active := s.active + SetsOf(nm, item), sets := ItemSets(nm, item, s.sets))
  }

  ghost function Applied(nm: Namer, items: seq<Item>, s: State): State {
    if items == [] then s else ItemApplied(nm, items[|items| - 1], Applied(nm, items[..|items| - 1], s))
  }

  /** The names a walk uses have the meanings of the run. */
  ghost predicate ItemMeans(nm: Namer, mean: Reading, item: Item) {
    match item
    case Begin(ns, _, selector) =>
      && mean(NamespaceSet(nm, ns)) == NamespaceMeant(ns)
      && (forall pair ::
            pair in Pairs(selector) ==> mean(LabelSet(nm, ns, pair)) == PodsMeant(ns, map[pair.key := pair.value]))
      && (selector != map[] ==> mean(SelectorSet(nm, ns, selector)) == PodsMeant(ns, selector))
    case Enter(_, _) => true
    case Peer(ns, _, _, _, clause) =>
      match clause
      case PodPeer(pair, _) => mean(LabelSet(nm, ns, pair)) == PodsMeant(ns, map[pair.key := pair.value])
      case NamespacePeer(pair, _) => mean(NamespaceLabelSet(nm, pair)) == NamespaceLabelMeant(pair)
      case OnlyPorts(_) => true
      case BlockPeer(_, _) => true
  }

  ghost predicate AllMean(nm: Namer, mean: Reading, items: seq<Item>) {
    forall i :: 0 <= i < |items| ==> ItemMeans(nm, mean, items[i])
  }

  // ---------- tracking stays well ----------

  lemma TrackedKeys(nm: Namer, item: Item, s: State, mean: Reading, tag: Tag)
    requires ItemMeans(nm, mean, item) && WellTracked(s, mean) && tag in ItemTracked(nm, item, s.tracked)
    ensures var name := ItemTracked(nm, item, s.tracked)[tag];
            && TagWell(ItemSelectors(item, s.selectors), mean, tag, name)
            && (name in SetsOf(nm, item) || name in s.sets)
  {
    var selectors := ItemSelectors(item, s.selectors);
    if tag in s.tracked && ItemTracked(nm, item, s.tracked)[tag] == s.tracked[tag] {
      assert TagWell(s.selectors, mean, tag, s.tracked[tag]);
    }
  }

  lemma SetsGrow(nm: Namer, item: Item, s: State, mean: Reading)
    requires NothingStray(s, mean)
    ensures var s' := ItemApplied(nm, item, s);
            && s.sets.Keys <= s'.sets.Keys && SetsOf(nm, item) <= s'.sets.Keys
            && NothingStray(s', mean)
  {
    var s' := ItemApplied(nm, item, s);
    forall n ensures !Stray(s', mean, n) {
      assert !Stray(s, mean, n);
      SameDesires(s, s', mean(n));
    }
  }

  lemma ItemKeepsTracking(nm: Namer, item: Item, s: State, mean: Reading)
    requires ItemMeans(nm, mean, item) && WellTracked(s, mean) && NothingStray(s, mean)
    ensures WellTracked(ItemApplied(nm, item, s), mean) && NothingStray(ItemApplied(nm, item, s), mean)
  {
    var s' := ItemApplied(nm, item, s);
    SetsGrow(nm, item, s, mean);
    forall tag | tag in s'.tracked
      ensures TagWell(s'.selectors, mean, tag, s'.tracked[tag]) && s'.tracked[tag] in s'.sets
    {
      TrackedKeys(nm, item, s, mean, tag);
    }
  }

  lemma {:induction false} WalkKeepsTracking(nm: Namer, items: seq<Item>, s: State, mean: Reading)
    requires AllMean(nm, mean, items) && WellTracked(s, mean) && NothingStray(s, mean)
    ensures WellTracked(Applied(nm, items, s), mean) && NothingStray(Applied(nm, items, s), mean)
  {
    if items != [] {
      var n := |items| - 1;
      WalkKeepsTracking(nm, items[..n], s, mean);
      assert ItemMeans(nm, mean, items[n]);
      ItemKeepsTracking(nm, items[n], Applied(nm, items[..n], s), mean);
    }
  }

  /** After a walk every active set exists. */
  ghost predicate ActiveExist(s: State) { s.active <= s.sets.Keys }

  lemma {:induction false} WalkActive(nm: Namer, items: seq<Item>, s: State)
    requires s.active == {IpRangeSet(nm), FlannelNetSet(nm)} && ActiveExist(s)
    ensures Applied(nm, items, s).active == ActiveSets(nm, items) && ActiveExist(Applied(nm, items, s))
    ensures s.sets.Keys <= Applied(nm, items, s).sets.Keys
    ensures var s' := Applied(nm, items, s);
            s'.pml == s.pml && s'.npm == s.npm && s'.nmlm == s.nmlm && s'.table == s.table
  {
    if items != [] {
      WalkActive(nm, items[..|items| - 1], s);
    }
  }

  // ---------- the whole synchronisation ----------

  /** The state once the rules are in place and before any pod set is filled. */
  ghost function RulesSynced(nm: Namer, cfg: Config, items: seq<Item>, s: State): State {
    Applied(nm, items, s.(active := {IpRangeSet(nm), FlannelNetSet(nm)})).(table := Result(nm, cfg, items, s.table))
  }

  ghost predicate HasConfigSets(nm: Namer, s: State) {
    IpRangeSet(nm) in s.sets && FlannelNetSet(nm) in s.sets
  }

  /** A synchronisation of rules followed by one of all pod sets makes every tracked set right. */
  lemma RuleSyncConsistent(nm: Namer, cfg: Config, items: seq<Item>, s: State, mean: Reading, tags: seq<Tag>)
    requires WellTracked(s, mean) && NothingStray(s, mean) && AllMean(nm, mean, items) && HasConfigSets(nm, s)
    requires Covers(RulesSynced(nm, cfg, items, s), tags)
    ensures var s' := FullAll(RulesSynced(nm, cfg, items, s), tags);
            && Consistent(s', mean) && ActiveExist(s') && HasConfigSets(nm, s')
            && s'.active == ActiveSets(nm, items) && s'.table == Result(nm, cfg, items, s.table)
            && s'.pml == s.pml && s'.npm == s.npm && s'.nmlm == s.nmlm
  {
    var s0 := s.(active := {IpRangeSet(nm), FlannelNetSet(nm)});
    SameTracking(s, s0, mean);
    WalkKeepsTracking(nm, items, s0, mean);
    WalkActive(nm, items, s0);
    var s1, s2 := Applied(nm, items, s0), RulesSynced(nm, cfg, items, s);
    SameTracking(s1, s2, mean);
    FullConsistent(s2, mean, tags);
    FullKeeps(s2, tags);
  }

  lemma SameTracking(s: State, s': State, mean: Reading)
    requires WellTracked(s, mean) && NothingStray(s, mean)
    requires s'.pml == s.pml && s'.npm == s.npm && s'.nmlm == s.nmlm && s'.sets == s.sets && s'.tracked == s.tracked
             && s'.selectors == s.selectors
    ensures WellTracked(s', mean) && NothingStray(s', mean)
    ensures AllGood(s, mean) ==> AllGood(s', mean)
  {
    forall n ensures !Stray(s', mean, n) && (Good(s, mean, n) ==> Good(s', mean, n)) {
      assert !Stray(s, mean, n);
      SameDesires(s, s', mean(n));
    }
  }

  // ---------- garbage collection ----------

  ghost predicate Garbage(s: State, n: SetName) {
    n in s.sets && IsEnnSet(n) && n !in s.active && !SetReferenced(s.table, n)
  }

  /** Inactive generated sets go, and so do inactive entries of the tracking maps. */
  ghost function Collected(s: State): State {
    s.(sets := map n | n in s.sets && !Garbage(s, n) :: s.sets[n],
       tracked := map tag | tag in s.tracked && s.tracked[tag] in s.active :: s.tracked[tag])
  }

  lemma CollectedConsistent(nm: Namer, s: State, mean: Reading)
    requires Consistent(s, mean) && ActiveExist(s)
    ensures Consistent(Collected(s), mean) && ActiveExist(Collected(s))
    ensures forall tag :: tag in Collected(s).tracked ==> Collected(s).tracked[tag] in s.active
  {
    var s' := Collected(s);
    forall n
      ensures !Stray(s', mean, n)
      ensures n in s'.sets && Good(s, mean, n) ==> Good(s', mean, n)
    {
      assert !Stray(s, mean, n);
      SameDesires(s, s', mean(n));
    }
  }

  /** No other table refers to generated sets. */
  ghost predicate ForeignIgnores(t: Table) {
    forall n: SetName :: !n.ForeignSet? ==> !SetReferenced(ForeignPart(t), n)
  }

  ghost predicate KnownSets(s: State) {
    forall n: SetName :: n in s.sets && n.ForeignSet? ==> !("ENN" <= RenderSet(n))
  }

  /**
   * Reference safety. After the rules are in place every generated set that any rule refers to is
   * active, so collection destroys exactly the inactive generated sets: none is refused for being
   * referenced, and no active one is lost. A set of somebody else's goes only when its name begins
   * with ENN and no rule refers to it.
   */
  lemma CollectionExact(nm: Namer, cfg: Config, items: seq<Item>, s: State, t: Table)
    requires Begun(items) && ForeignIgnores(t)
    requires s.table == Result(nm, cfg, items, t) && s.active == ActiveSets(nm, items)
    ensures forall n: SetName :: n in s.sets && !n.ForeignSet? ==> (n in Collected(s).sets <==> n in s.active)
    ensures forall n: SetName :: n in s.sets && n.ForeignSet? ==>
              (n in Collected(s).sets <==> !("ENN" <= RenderSet(n)) || SetReferenced(s.table, n))
    ensures forall n: SetName :: SetReferenced(s.table, n) && !n.ForeignSet? ==> n in s.active
  {
    forall n: SetName | SetReferenced(s.table, n) && !n.ForeignSet? ensures n in s.active {
      ReferencedSetsActive(nm, cfg, items, t, n);
    }
    forall n: SetName | n in s.sets
      ensures !n.ForeignSet? ==> (n in Collected(s).sets <==> n in s.active)
      ensures n.ForeignSet? ==> (n in Collected(s).sets <==> !("ENN" <= RenderSet(n)) || SetReferenced(s.table, n))
    {
      EnnSetNames(n);
      ActiveGenerated(nm, items, n);
    }
  }

  lemma {:induction false} ActiveGenerated(nm: Namer, items: seq<Item>, n: SetName)
    ensures n in ActiveSets(nm, items) ==> !n.ForeignSet?
  {
    if items != [] {
      ActiveGenerated(nm, items[..|items| - 1], n);
    }
  }
}
