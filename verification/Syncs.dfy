/**
 * The synchronisations as steps on the state: by pods, by namespaces, by rules, in full. Each keeps
 * every tracked set equal to what a full synchronisation over the present indexes would make it.
 */
module Syncs {
  import opened Options
  import opened Netfilter
  import opened Orders
  import opened Policies
  import opened Indexes
  import opened Joins
  import opened Pods
  import opened Reconciler

  // ---------- moving indexes ----------

  ghost predicate Grows(s: State, s': State) {
    s.pml.Keys <= s'.pml.Keys && s.npm.Keys <= s'.npm.Keys && s.nmlm.Keys <= s'.nmlm.Keys
  }

  /** Once the indexes move, only the tags whose meaning moved can be out of date. */
  lemma IndexesMoved(s: State, s': State, mean: Reading, due: set<Tag>)
    requires Consistent(s, mean) && Grows(s, s')
    requires s' == s.(pml := s'.pml, npm := s'.npm, nmlm := s'.nmlm)
    requires forall tag ::
               tag in s.tracked && tag !in due ==> Desired(s', mean(s.tracked[tag])) == Desired(s, mean(s.tracked[tag]))
    ensures Pending(s', mean, due)
  {
    forall m ensures Indexed(s, m) ==> Indexed(s', m) {
      if m.PodsMeant? && AnyIndexed(s.pml, m.ns, m.selector) {
        var pair :| PairIndexed(s.pml, m.ns, m.selector, pair);
        assert PairIndexed(s'.pml, m.ns, m.selector, pair);
      }
    }
    forall n ensures !Stray(s', mean, n) {
      assert !Stray(s, mean, n);
    }
    forall tag | tag in s'.tracked
      ensures Good(s', mean, s'.tracked[tag]) || (tag in due && Indexed(s', mean(s'.tracked[tag])))
    {
      assert TagWell(s.selectors, mean, tag, s.tracked[tag]);
      if tag in due && !Indexed(s', mean(s.tracked[tag])) {
        Unindexed(s, mean(s.tracked[tag]));
        Unindexed(s', mean(s.tracked[tag]));
      }
    }
  }

  lemma Unindexed(s: State, m: Meaning)
    requires !Indexed(s, m)
    ensures Desired(s, m) == {}
  {}

  // ---------- pods ----------

  type PodItems = map<Key, Change<GoMap<NsLabel, PodInfos>>>

  type NamespaceItems = map<Key, Change<GoMap<string, PodInfos>>>

  /** The tags a batch of pod changes calls for. */
  ghost predicate DueByPods(s: State, infos: Infos, podItems: PodItems, nsItems: NamespaceItems,
                            labelItems: NamespaceItems, tag: Tag) {
    match tag
    case PodLabel(l) => Touches(Opened(podItems), l)
    case XLabel(k) =>
      k in s.selectors && exists pair ::
        pair in Pairs(s.selectors[k].selector) && Touches(Opened(podItems), NsLabel(s.selectors[k].ns, pair))
    case NamespacePods(ns) => Touches(Opened(nsItems), ns)
    case NamespaceLabel(pair) => exists ns :: Touches(Opened(labelItems), ns) && Carries(infos, ns, pair)
  }

  ghost predicate VisitsPods(s: State, infos: Infos, podItems: PodItems, nsItems: NamespaceItems,
                             labelItems: NamespaceItems, visits: seq<Visit>) {
    forall v :: v in visits <==> v.Sync? && DueByPods(s, infos, podItems, nsItems, labelItems, v.tag)
  }

  ghost function PodFlushed(s: State, infos: Infos, podItems: PodItems, nsItems: NamespaceItems,
                            labelItems: NamespaceItems, podOrder: seq<Key>, nsOrder: seq<Key>,
                            labelOrder: seq<Key>): State
    requires Enumerates(podOrder, podItems.Keys) && Enumerates(nsOrder, nsItems.Keys)
             && Enumerates(labelOrder, labelItems.Keys)
  {
    s.(pml := Flush(s.pml, podOrder, Opened(podItems)),
       npm := Flush(s.npm, nsOrder, Opened(nsItems)),
       nmlm := Flush(s.nmlm, labelOrder, LabelChanges(Opened(labelItems), infos)))
  }

  lemma UntouchedIntersection(pml: Index<NsLabel>, pml': Index<NsLabel>, ns: string, selector: Selector)
    requires forall pair :: pair in Pairs(selector) ==>
      (NsLabel(ns, pair) in pml <==> NsLabel(ns, pair) in pml')
      && Get(pml, NsLabel(ns, pair)) == Get(pml', NsLabel(ns, pair))
    ensures Intersection(pml, ns, selector) == Intersection(pml', ns, selector)
  {
    forall pair ensures PairIndexed(pml, ns, selector, pair) <==> PairIndexed(pml', ns, selector, pair) {}
    assert AnyIndexed(pml, ns, selector) <==> AnyIndexed(pml', ns, selector);
    forall ip ensures ip in Intersection(pml, ns, selector) <==> ip in Intersection(pml', ns, selector) {
      IntersectionIs(pml, ns, selector, ip);
      IntersectionIs(pml', ns, selector, ip);
      forall pair | PairIndexed(pml, ns, selector, pair) ensures pml[NsLabel(ns, pair)] == pml'[NsLabel(ns, pair)] {}
    }
  }

  lemma LabelChangesTouch(labelItems: NamespaceItems, infos: Infos, pair: Label)
    requires Touches(LabelChanges(Opened(labelItems), infos), pair)
    ensures exists ns :: Touches(Opened(labelItems), ns) && Carries(infos, ns, pair)
  {
    var changes := LabelChanges(Opened(labelItems), infos);
    var o :| o in changes && (pair in changes[o].previous || pair in changes[o].current);
    var views := Opened(labelItems)[o];
    if pair in changes[o].previous {
      LabelViewKey(views.previous, infos, pair);
      var ns :| ns in views.previous && Carries(infos, ns, pair);
      assert Touches(Opened(labelItems), ns);
    } else {
      LabelViewKey(views.current, infos, pair);
      var ns :| ns in views.current && Carries(infos, ns, pair);
      assert Touches(Opened(labelItems), ns);
    }
  }

  lemma LabelViewKey(view: Index<string>, infos: Infos, pair: Label)
    requires pair in LabelView(view, infos)
    ensures exists ns :: ns in view && Carries(infos, ns, pair)
  {}

  lemma FlushGrows<O(!new), K(!new)>(idx: Index<K>, order: seq<O>, changes: map<O, Change<Index<K>>>)
    requires Enumerates(order, changes.Keys)
    ensures idx.Keys <= Flush(idx, order, changes).Keys
  {
    forall k | k in idx ensures k in Flush(idx, order, changes) {
      FlushKeys(idx, order, changes, k);
    }
  }

  lemma SelectorUntouched(pml: Index<NsLabel>, podItems: PodItems, podOrder: seq<Key>, scoped: Scoped)
    requires Enumerates(podOrder, podItems.Keys)
    requires !exists pair :: pair in Pairs(scoped.selector) && Touches(Opened(podItems), NsLabel(scoped.ns, pair))
    ensures Intersection(Flush(pml, podOrder, Opened(podItems)), scoped.ns, scoped.selector)
                == Intersection(pml, scoped.ns, scoped.selector)
  {
    var pml' := Flush(pml, podOrder, Opened(podItems));
    forall pair | pair in Pairs(scoped.selector)
      ensures NsLabel(scoped.ns, pair) in pml <==> NsLabel(scoped.ns, pair) in pml'
      ensures Get(pml, NsLabel(scoped.ns, pair)) == Get(pml', NsLabel(scoped.ns, pair))
    {
      FlushUntouched(pml, podOrder, Opened(podItems), NsLabel(scoped.ns, pair));
    }
    UntouchedIntersection(pml, pml', scoped.ns, scoped.selector);
  }

  lemma PodsUntouched(s: State, infos: Infos, podItems: PodItems, nsItems: NamespaceItems, labelItems: NamespaceItems,
                      podOrder: seq<Key>, nsOrder: seq<Key>, labelOrder: seq<Key>, tag: Tag)
    requires Enumerates(podOrder, podItems.Keys) && Enumerates(nsOrder, nsItems.Keys)
             && Enumerates(labelOrder, labelItems.Keys)
    requires tag.XLabel? ==> tag.k in s.selectors
    requires !DueByPods(s, infos, podItems, nsItems, labelItems, tag)
    ensures var s' := PodFlushed(s, infos, podItems, nsItems, labelItems, podOrder, nsOrder, labelOrder);
            Desired(s', Means(s.selectors, tag)) == Desired(s, Means(s.selectors, tag))
  {
    var s' := PodFlushed(s, infos, podItems, nsItems, labelItems, podOrder, nsOrder, labelOrder);
    match tag
    case PodLabel(l) =>
      FlushUntouched(s.pml, podOrder, Opened(podItems), l);
      SinglePair(s.pml, l);
      SinglePair(s'.pml, l);
    case XLabel(k) => SelectorUntouched(s.pml, podItems, podOrder, s.selectors[k]);
    case NamespacePods(ns) => FlushUntouched(s.npm, nsOrder, Opened(nsItems), ns);
    case NamespaceLabel(pair) =>
      if Touches(LabelChanges(Opened(labelItems), infos), pair) {
        LabelChangesTouch(labelItems, infos, pair);
      }
      FlushUntouched(s.nmlm, labelOrder, LabelChanges(Opened(labelItems), infos), pair);
  }

  ghost predicate OrdersAll(podItems: PodItems, nsItems: NamespaceItems, labelItems: NamespaceItems,
                            podOrder: seq<Key>, nsOrder: seq<Key>, labelOrder: seq<Key>) {
    && Enumerates(podOrder, podItems.Keys) && Enumerates(nsOrder, nsItems.Keys)
    && Enumerates(labelOrder, labelItems.Keys)
  }

  lemma PodFlushGrows(s: State, infos: Infos, podItems: PodItems, nsItems: NamespaceItems, labelItems: NamespaceItems,
                      podOrder: seq<Key>, nsOrder: seq<Key>, labelOrder: seq<Key>)
    requires OrdersAll(podItems, nsItems, labelItems, podOrder, nsOrder, labelOrder)
    ensures Grows(s, PodFlushed(s, infos, podItems, nsItems, labelItems, podOrder, nsOrder, labelOrder))
  {
    FlushGrows(s.pml, podOrder, Opened(podItems));
    FlushGrows(s.npm, nsOrder, Opened(nsItems));
    assert LabelChanges(Opened(labelItems), infos).Keys == labelItems.Keys;
    FlushGrows(s.nmlm, labelOrder, LabelChanges(Opened(labelItems), infos));
  }

  ghost function DuePods(s: State, infos: Infos, podItems: PodItems, nsItems: NamespaceItems,
                         labelItems: NamespaceItems): set<Tag> {
    set tag | tag in s.tracked && DueByPods(s, infos, podItems, nsItems, labelItems, tag)
  }

  lemma PodsMoved(s: State, mean: Reading, infos: Infos, podItems: PodItems, nsItems: NamespaceItems,
                  labelItems: NamespaceItems, podOrder: seq<Key>, nsOrder: seq<Key>, labelOrder: seq<Key>)
    requires Consistent(s, mean) && OrdersAll(podItems, nsItems, labelItems, podOrder, nsOrder, labelOrder)
    ensures Pending(PodFlushed(s, infos, podItems, nsItems, labelItems, podOrder, nsOrder, labelOrder), mean,
                    DuePods(s, infos, podItems, nsItems, labelItems))
  {
    var s' := PodFlushed(s, infos, podItems, nsItems, labelItems, podOrder, nsOrder, labelOrder);
    var due := DuePods(s, infos, podItems, nsItems, labelItems);
    PodFlushGrows(s, infos, podItems, nsItems, labelItems, podOrder, nsOrder, labelOrder);
    forall tag | tag in s.tracked && tag !in due
      ensures Desired(s', mean(s.tracked[tag])) == Desired(s, mean(s.tracked[tag]))
    {
      assert TagWell(s.selectors, mean, tag, s.tracked[tag]);
      PodsUntouched(s, infos, podItems, nsItems, labelItems, podOrder, nsOrder, labelOrder, tag);
    }
    IndexesMoved(s, s', mean, due);
  }

  /** A pod synchronisation visits what the changes call for, and then every tracked set is right again. */
  lemma PodSyncConsistent(s: State, mean: Reading, infos: Infos, podItems: PodItems, nsItems: NamespaceItems,
                          labelItems: NamespaceItems, podOrder: seq<Key>, nsOrder: seq<Key>, labelOrder: seq<Key>,
                          visits: seq<Visit>)
    requires Consistent(s, mean)
    requires Enumerates(podOrder, podItems.Keys) && Enumerates(nsOrder, nsItems.Keys)
             && Enumerates(labelOrder, labelItems.Keys)
    requires VisitsPods(s, infos, podItems, nsItems, labelItems, visits)
    ensures Consistent(TryAll(PodFlushed(s, infos, podItems, nsItems, labelItems, podOrder, nsOrder, labelOrder),
                              visits), mean)
  {
    var due := DuePods(s, infos, podItems, nsItems, labelItems);
    PodsMoved(s, mean, infos, podItems, nsItems, labelItems, podOrder, nsOrder, labelOrder);
    forall tag | tag in due ensures Sync(tag) in visits {
      assert DueByPods(s, infos, podItems, nsItems, labelItems, Sync(tag).tag);
    }
    SettledBy(PodFlushed(s, infos, podItems, nsItems, labelItems, podOrder, nsOrder, labelOrder), mean, due, visits);
  }

  lemma SettledBy(s: State, mean: Reading, due: set<Tag>, visits: seq<Visit>)
    requires Pending(s, mean, due) && forall tag :: tag in due ==> Sync(tag) in visits
    ensures Consistent(TryAll(s, visits), mean)
  {
    VisitsSettle(s, mean, due, visits);
    assert forall tag :: tag in due ==> Sync(tag).tag in Visited(visits);
    assert due - Visited(visits) == {};
    AllSettled(TryAll(s, visits), mean);
  }

  lemma AllSettled(s: State, mean: Reading)
    requires Pending(s, mean, {})
    ensures Consistent(s, mean)
  {}

  // ---------- namespaces ----------

  type InfoItems = map<string, Change<Option<NsInfo>>>

  ghost predicate Labelled(info: Option<NsInfo>, pair: Label) {
    info.Some? && pair in Pairs(info.value.labels.Entries())
  }

  ghost predicate DueByNamespaces(items: InfoItems, tag: Tag) {
    tag.NamespaceLabel? && exists ns ::
      ns in items && (Labelled(items[ns].previous, tag.pair) || Labelled(items[ns].current, tag.pair))
  }

  ghost predicate Gone(items: InfoItems, ns: string) {
    ns in items && items[ns].previous.Some? && items[ns].current.None?
  }

  ghost predicate VisitsNamespaces(items: InfoItems, visits: seq<Visit>) {
    forall v :: v in visits <==>
      match v
      case Sync(tag) => DueByNamespaces(items, tag)
      case Drop(ns) => exists k :: Gone(items, k) && items[k].previous.value.name == ns
  }

  ghost function NamespaceFlushed(s: State, items: InfoItems, order: seq<string>): State
    requires Enumerates(order, items.Keys)
  {
    s.(nmlm := Flush(s.nmlm, order, NsChanges(items, s.npm)))
  }

  lemma NamespacesUntouched(s: State, items: InfoItems, order: seq<string>, pair: Label)
    requires Enumerates(order, items.Keys) && !DueByNamespaces(items, NamespaceLabel(pair))
    ensures Desired(NamespaceFlushed(s, items, order), NamespaceLabelMeant(pair))
                == Desired(s, NamespaceLabelMeant(pair))
  {
    var changes := NsChanges(items, s.npm);
    if Touches(changes, pair) {
      NsChangesTouch(items, s.npm, pair);
    }
    FlushUntouched(s.nmlm, order, changes, pair);
  }

  lemma NsChangesTouch(items: InfoItems, npm: Index<string>, pair: Label)
    requires Touches(NsChanges(items, npm), pair)
    ensures DueByNamespaces(items, NamespaceLabel(pair))
  {
    var changes := NsChanges(items, npm);
    var ns :| ns in changes && (pair in changes[ns].previous || pair in changes[ns].current);
    assert Labelled(items[ns].previous, pair) || Labelled(items[ns].current, pair);
  }

  lemma NamespacesMoved(s: State, mean: Reading, items: InfoItems, order: seq<string>, due: set<Tag>)
    requires Consistent(s, mean) && Enumerates(order, items.Keys)
    requires due == set tag | tag in s.tracked && DueByNamespaces(items, tag)
    ensures Pending(NamespaceFlushed(s, items, order), mean, due)
  {
    var s', changes := NamespaceFlushed(s, items, order), NsChanges(items, s.npm);
    assert changes.Keys == items.Keys;
    FlushGrows(s.nmlm, order, changes);
    forall tag | tag in s.tracked && tag !in due
      ensures Desired(s', mean(s.tracked[tag])) == Desired(s, mean(s.tracked[tag]))
    {
      TagUnmoved(s, mean, items, order, tag);
    }
    IndexesMoved(s, s', mean, due);
  }

  lemma TagUnmoved(s: State, mean: Reading, items: InfoItems, order: seq<string>, tag: Tag)
    requires Consistent(s, mean) && Enumerates(order, items.Keys) && tag in s.tracked && !DueByNamespaces(items, tag)
    ensures var s' := NamespaceFlushed(s, items, order);
            Desired(s', mean(s.tracked[tag])) == Desired(s, mean(s.tracked[tag]))
  {
    assert TagWell(s.selectors, mean, tag, s.tracked[tag]);
    if tag.NamespaceLabel? {
      NamespacesUntouched(s, items, order, tag.pair);
    }
  }

  /** A namespace synchronisation visits the labels of changed namespaces, and then every tracked set is right again. */
  lemma NamespaceSyncConsistent(s: State, mean: Reading, items: InfoItems, order: seq<string>, visits: seq<Visit>)
    requires Consistent(s, mean) && Enumerates(order, items.Keys) && VisitsNamespaces(items, visits)
    ensures Consistent(TryAll(NamespaceFlushed(s, items, order), visits), mean)
  {
    var due := set tag | tag in s.tracked && DueByNamespaces(items, tag);
    NamespacesMoved(s, mean, items, order, due);
    forall tag | tag in due ensures Sync(tag) in visits {
      assert DueByNamespaces(items, Sync(tag).tag);
    }
    SettledBy(NamespaceFlushed(s, items, order), mean, due, visits);
  }

  // ---------- everything ----------

  lemma AllDue(s: State, mean: Reading)
    requires WellTracked(s, mean) && NothingStray(s, mean)
    ensures Pending(s, mean, s.tracked.Keys)
  {
    forall tag | tag in s.tracked ensures Good(s, mean, s.tracked[tag]) || Indexed(s, mean(s.tracked[tag])) {
      var name := s.tracked[tag];
      assert TagWell(s.selectors, mean, tag, name);
      assert !Stray(s, mean, name);
      if !Indexed(s, mean(name)) {
        Unindexed(s, mean(name));
      }
    }
  }

  lemma FullStep(s: State, mean: Reading, due: set<Tag>, tag: Tag)
    requires Pending(s, mean, due)
    ensures Pending(FullSync(s, tag), mean, due - {tag})
  {
    if tag !in s.tracked {
      NoLongerDue(s, mean, due, tag);
    } else {
      WantedIsDesired(s, mean, tag);
      if FullWanted(s, tag).Some? {
        SetRight(s, mean, due, s.tracked[tag]);
        NoLongerDue(FullSync(s, tag), mean, due, tag);
      } else {
        NoLongerDue(s, mean, due, tag);
      }
    }
  }

  ghost predicate Covers(s: State, tags: seq<Tag>) {
    forall tag :: tag in tags <==> tag in s.tracked
  }

  lemma {:induction false} FullSettles(s: State, mean: Reading, due: set<Tag>, tags: seq<Tag>)
    requires Pending(s, mean, due)
    ensures Pending(FullAll(s, tags), mean, due - (set tag | tag in tags))
  {
    if tags == [] {
      assert due - (set tag | tag in tags) == due;
    } else {
      var n := |tags| - 1;
      assert tags == tags[..n] + [tags[n]];
      FullSettles(s, mean, due, tags[..n]);
      FullStep(FullAll(s, tags[..n]), mean, due - (set tag | tag in tags[..n]), tags[n]);
      assert due - (set tag | tag in tags) == due - (set tag | tag in tags[..n]) - {tags[n]};
    }
  }

  /** A full synchronisation makes every tracked set right, whatever it held before. */
  lemma FullConsistent(s: State, mean: Reading, tags: seq<Tag>)
    requires WellTracked(s, mean) && NothingStray(s, mean) && Covers(s, tags)
    ensures Consistent(FullAll(s, tags), mean)
  {
    AllDue(s, mean);
    FullSettles(s, mean, s.tracked.Keys, tags);
    assert s.tracked.Keys - (set tag | tag in tags) == {};
    AllSettled(FullAll(s, tags), mean);
  }

  lemma {:induction false} FullKeeps(s: State, tags: seq<Tag>)
    ensures var s' := FullAll(s, tags);
            && s' == s.(sets := s'.sets) && s'.sets.Keys == s.sets.Keys
            && (forall n ::
                  n in s.sets && (forall tag :: tag in s.tracked ==> s.tracked[tag] != n) ==> s'.sets[n] == s.sets[n])
            && (forall n :: n in s.sets ==> s'.sets[n].kind == s.sets[n].kind)
  {
    if tags != [] {
      FullKeeps(s, tags[..|tags| - 1]);
    }
  }

  /**
   * Incremental refines full. In a consistent state a full synchronisation changes nothing, and
   * one that starts with every tracked set emptied ends in the same sets.
   */
  lemma IncrementalRefinesFull(s: State, mean: Reading, tags: seq<Tag>, emptied: Sets)
    requires Consistent(s, mean) && Covers(s, tags)
    requires emptied.Keys == s.sets.Keys
    requires forall n ::
               n in s.sets
               ==> emptied[n] == s.sets[n]
                   || (emptied[n] == s.sets[n].(members := {}) && exists tag :: tag in s.tracked && s.tracked[tag] == n)
    ensures FullAll(s, tags) == s
    ensures FullAll(s.(sets := emptied), tags) == s
  {
    FromAny(s, mean, tags, s.sets);
    FromAny(s, mean, tags, emptied);
  }

  lemma FromAny(s: State, mean: Reading, tags: seq<Tag>, emptied: Sets)
    requires Consistent(s, mean) && Covers(s, tags)
    requires emptied.Keys == s.sets.Keys
    requires forall n ::
               n in s.sets
               ==> emptied[n] == s.sets[n]
                   || (emptied[n] == s.sets[n].(members := {}) && exists tag :: tag in s.tracked && s.tracked[tag] == n)
    ensures FullAll(s.(sets := emptied), tags) == s
  {
    var e := s.(sets := emptied);
    forall n ensures !Stray(e, mean, n) {
      assert !Stray(s, mean, n);
      SameDesires(s, e, mean(n));
    }
    FullConsistent(e, mean, tags);
    FullKeeps(e, tags);
    var r := FullAll(e, tags);
    forall n | n in s.sets ensures r.sets[n] == s.sets[n] {
      if tag :| tag in s.tracked && s.tracked[tag] == n {
        assert Good(r, mean, r.tracked[tag]) && Good(s, mean, s.tracked[tag]);
        SameDesires(s, r, mean(n));
      }
    }
    assert r.sets == s.sets;
  }
}
