/** Which sets a batch of changes calls for, and rounds of visits put together from parts. */
module Visiting {
  import opened Options
  import opened Policies
  import opened Indexes
  import opened Joins
  import opened Pods
  import opened Reconciler
  import opened Syncs
  import opened RuleSync
  import opened IndexMaps

  /** The visits one changed namespace calls for. */
  ghost predicate CoveringChange(visits: seq<Visit>, change: Change<Option<NsInfo>>) {
    forall v :: v in visits <==>
      match v
      case Sync(tag) => tag.NamespaceLabel? && (Labelled(change.previous, tag.pair)
          || Labelled(change.current, tag.pair))
      case Drop(ns) => change.previous.Some? && change.current.None? && change.previous.value.name == ns
  }

  lemma NamespaceVisitsMore(items: InfoItems, rest: set<string>, key: string, visits: seq<Visit>, more: seq<Visit>)
    requires rest <= items.Keys && key in rest && VisitsNamespaces(items - rest, visits)
             && CoveringChange(more, items[key])
    ensures VisitsNamespaces(items - (rest - {key}), visits + more)
  {
    var less, all := items - rest, items - (rest - {key});
    assert all.Keys == less.Keys + {key};
    forall v ensures v in visits + more <==>
      match v
      case Sync(tag) => DueByNamespaces(all, tag)
      case Drop(ns) => exists k :: Gone(all, k) && all[k].previous.value.name == ns
    {
      assert v in visits + more <==> v in visits || v in more;
      match v {
        case Sync(tag) => DueMore(less, all, items[key], key, tag);
        case Drop(ns) => GoneMore(less, all, items[key], key, ns);
      }
    }
  }

  lemma DueMore(less: InfoItems, all: InfoItems, change: Change<Option<NsInfo>>, key: string, tag: Tag)
    requires key !in less && all == less[key := change]
    ensures DueByNamespaces(all, tag)
       <==> DueByNamespaces(less, tag)
            || (tag.NamespaceLabel? && (Labelled(change.previous, tag.pair) || Labelled(change.current, tag.pair)))
  {
    if tag.NamespaceLabel? {
      if DueByNamespaces(less, tag) {
        var ns :| ns in less && (Labelled(less[ns].previous, tag.pair) || Labelled(less[ns].current, tag.pair));
        assert ns in all && all[ns] == less[ns];
      }
      if Labelled(change.previous, tag.pair) || Labelled(change.current, tag.pair) {
        assert key in all && all[key] == change;
      }
    }
  }

  lemma GoneMore(less: InfoItems, all: InfoItems, change: Change<Option<NsInfo>>, key: string, ns: string)
    requires key !in less && all == less[key := change]
    ensures (exists k :: Gone(all, k) && all[k].previous.value.name == ns)
       <==> (exists k :: Gone(less, k) && less[k].previous.value.name == ns)
            || (change.previous.Some? && change.current.None? && change.previous.value.name == ns)
  {
    if k :| Gone(less, k) && less[k].previous.value.name == ns {
      assert Gone(all, k);
    }
    if change.previous.Some? && change.current.None? && change.previous.value.name == ns {
      assert Gone(all, key);
    }
    if k :| Gone(all, k) && all[k].previous.value.name == ns {
      assert k == key || Gone(less, k);
    }
  }

  lemma CollectedIs(s: State)
    ensures s.(sets := s.sets - (set n | n in s.sets && Garbage(s, n)),
                tracked := s.tracked - (set tag | tag in s.tracked && s.tracked[tag] !in s.active))
         == Collected(s)
  {
    var a, b := s.sets - (set n | n in s.sets && Garbage(s, n)), Collected(s).sets;
    assert a.Keys == b.Keys;
    var x, y := s.tracked - (set tag | tag in s.tracked && s.tracked[tag] !in s.active), Collected(s).tracked;
    assert x.Keys == y.Keys;
  }

  // ---------- what a batch touches ----------

  lemma FullMore(s: State, tags: seq<Tag>, tag: Tag)
    ensures FullAll(s, tags + [tag]) == FullSync(FullAll(s, tags), tag)
  {
    assert (tags + [tag])[..|tags|] == tags;
  }

  lemma {:induction false} FullConcat(s: State, a: seq<Tag>, b: seq<Tag>)
    ensures FullAll(s, a + b) == FullAll(FullAll(s, a), b)
  {
    if b == [] {
      assert a + b == a;
    } else {
      var n := |b| - 1;
      assert (a + b)[..|a + b| - 1] == a + b[..n];
      FullConcat(s, a, b[..n]);
    }
  }

  function ChangedKeys<K>(change: Change<GoMap<K, PodInfos>>): set<K> {
    change.previous.Entries().Keys + change.current.Entries().Keys
  }

  function TouchedKeys<O, K>(items: map<O, Change<GoMap<K, PodInfos>>>): set<K> {
    set o, k | o in items && k in ChangedKeys(items[o]) :: k
  }

  lemma TouchedMore<O(!new), K(!new)>(items: map<O, Change<GoMap<K, PodInfos>>>, rest: set<O>, o: O)
    requires o in rest && rest <= items.Keys
    ensures TouchedKeys(items - (rest - {o}))
         == TouchedKeys(items - rest) + items[o].previous.Entries().Keys + items[o].current.Entries().Keys
  {
    var less, more := items - rest, items - (rest - {o});
    assert more.Keys == less.Keys + {o};
    forall k ensures k in TouchedKeys(more) <==> k in TouchedKeys(less) || k in ChangedKeys(items[o]) {
      if k in TouchedKeys(less) {
        var p :| p in less && k in ChangedKeys(less[p]);
        assert p in more && k in ChangedKeys(more[p]);
      }
      if k in ChangedKeys(items[o]) {
        assert o in more && k in ChangedKeys(more[o]);
      }
      if k in TouchedKeys(more) && k !in ChangedKeys(items[o]) {
        var p :| p in more && k in ChangedKeys(more[p]);
        assert p in less && k in ChangedKeys(less[p]);
      }
    }
  }

  lemma TouchedIs<O(!new), K(!new)>(items: map<O, Change<GoMap<K, PodInfos>>>, k: K)
    ensures k in TouchedKeys(items) <==> Touches(Opened(items), k)
  {
    if k in TouchedKeys(items) {
      var o :| o in items && k in ChangedKeys(items[o]);
      assert o in Opened(items);
    }
    if Touches(Opened(items), k) {
      var o :| o in Opened(items) && (k in Opened(items)[o].previous || k in Opened(items)[o].current);
      assert o in items && k in ChangedKeys(items[o]);
    }
  }

  ghost function LabelTags(selectors: map<Key, Scoped>, labels: set<NsLabel>): set<Tag> {
    (set l | l in labels :: PodLabel(l)) + SelectorTags(selectors, labels)
  }

  lemma LabelTagsHave(selectors: map<Key, Scoped>, labels: set<NsLabel>, tag: Tag)
    ensures tag in LabelTags(selectors, labels)
       <==> (tag.PodLabel? && tag.l in labels)
            || (tag.XLabel? && tag.k in selectors && HasLabel(selectors[tag.k], labels))
  {}

  lemma LabelTagsNone(selectors: map<Key, Scoped>)
    ensures LabelTags(selectors, {}) == {}
  {
    forall tag ensures tag !in LabelTags(selectors, {}) {
      LabelTagsHave(selectors, {}, tag);
    }
  }

  lemma LabelTagsUnion(selectors: map<Key, Scoped>, a: set<NsLabel>, b: set<NsLabel>)
    ensures LabelTags(selectors, a + b) == LabelTags(selectors, a) + LabelTags(selectors, b)
  {
    forall tag
      ensures tag in LabelTags(selectors, a + b) <==> tag in LabelTags(selectors, a) || tag in LabelTags(selectors, b)
    {
      LabelTagsHave(selectors, a + b, tag);
      LabelTagsHave(selectors, a, tag);
      LabelTagsHave(selectors, b, tag);
    }
  }

  lemma LabelTagsMore(selectors: map<Key, Scoped>, labels: set<NsLabel>, l: NsLabel)
    ensures LabelTags(selectors, labels + {l}) == LabelTags(selectors, labels) + LabelTags(selectors, {l})
    ensures LabelTags(selectors, {l}) == {PodLabel(l)} + SelectorTags(selectors, {l})
  {
    LabelTagsUnion(selectors, labels, {l});
  }

  lemma LabelTagsThree(selectors: map<Key, Scoped>, a: set<NsLabel>, b: set<NsLabel>, c: set<NsLabel>)
    ensures LabelTags(selectors, a + b + c) == LabelTags(selectors, a) + LabelTags(selectors, b - c)
                + LabelTags(selectors, c)
  {
    LabelTagsUnion(selectors, a, b - c);
    LabelTagsUnion(selectors, a + (b - c), c);
    assert a + (b - c) + c == a + b + c;
  }

  function NamespaceTags(names: set<string>): set<Tag> { set ns | ns in names :: NamespacePods(ns) }

  lemma NamespaceTagsThree(a: set<string>, b: set<string>, c: set<string>)
    ensures NamespaceTags(a + b + c) == NamespaceTags(a) + NamespaceTags(b - c) + NamespaceTags(c)
  {}

  function PairTags(pairs: set<Label>): set<Tag> { set pair | pair in pairs :: NamespaceLabel(pair) }

  ghost function CarriedTags(infos: Infos, names: set<string>): set<Tag> {
    set ns, pair | ns in names && ns in infos && pair in Pairs(infos[ns].labels.Entries()) :: NamespaceLabel(pair)
  }

  lemma CarriedHave(infos: Infos, names: set<string>, tag: Tag)
    ensures tag in CarriedTags(infos, names)
            <==> tag.NamespaceLabel? && exists ns :: ns in names && Carries(infos, ns, tag.pair)
  {
    if tag.NamespaceLabel? && exists ns :: ns in names && Carries(infos, ns, tag.pair) {
      var ns :| ns in names && Carries(infos, ns, tag.pair);
      assert ns in names && ns in infos && tag.pair in Pairs(infos[ns].labels.Entries());
    }
  }

  lemma CarriedUnion(infos: Infos, a: set<string>, b: set<string>)
    ensures CarriedTags(infos, a + b) == CarriedTags(infos, a) + CarriedTags(infos, b)
  {
    forall tag
      ensures tag in CarriedTags(infos, a + b) <==> tag in CarriedTags(infos, a) || tag in CarriedTags(infos, b)
    {
      CarriedHave(infos, a + b, tag);
      CarriedHave(infos, a, tag);
      CarriedHave(infos, b, tag);
    }
  }

  lemma CarriedMore(infos: Infos, names: set<string>, rest: set<string>, ns: string)
    requires ns in rest && rest <= names
    ensures CarriedTags(infos, names - (rest - {ns}))
         == CarriedTags(infos, names - rest) + if ns in infos then PairTags(Pairs(infos[ns].labels.Entries())) else {}
  {
    assert names - (rest - {ns}) == names - rest + {ns};
    CarriedUnion(infos, names - rest, {ns});
    forall tag
      ensures tag in CarriedTags(infos, {ns}) <==> ns in infos && tag in PairTags(Pairs(infos[ns].labels.Entries()))
    {
      CarriedHave(infos, {ns}, tag);
    }
  }

  lemma CarriedThree(infos: Infos, a: set<string>, b: set<string>, c: set<string>)
    ensures CarriedTags(infos, a + b + c) == CarriedTags(infos, a) + CarriedTags(infos, b - c) + CarriedTags(infos, c)
  {
    CarriedUnion(infos, a, b - c);
    CarriedUnion(infos, a + (b - c), c);
    assert a + (b - c) + c == a + b + c;
  }

  /** The three parts of a pod synchronisation visit what the changes call for, and nothing else. */
  lemma PodVisits(s: State, infos: Infos, podItems: PodItems, nsItems: NamespaceItems, labelItems: NamespaceItems,
                  a: seq<Visit>, b: seq<Visit>, c: seq<Visit>)
    requires Covering(a, LabelTags(s.selectors, TouchedKeys(podItems)))
    requires Covering(b, NamespaceTags(TouchedKeys(nsItems)))
    requires Covering(c, CarriedTags(infos, TouchedKeys(labelItems)))
    ensures VisitsPods(s, infos, podItems, nsItems, labelItems, a + b + c)
  {
    forall v ensures v in a + b + c <==> v.Sync? && DueByPods(s, infos, podItems, nsItems, labelItems, v.tag) {
      assert v in a + b + c <==> v in a || v in b || v in c;
      if v.Sync? {
        LabelTagsHave(s.selectors, TouchedKeys(podItems), v.tag);
        CarriedHave(infos, TouchedKeys(labelItems), v.tag);
        DueIs(s, infos, podItems, nsItems, labelItems, v.tag);
      }
    }
  }

  lemma DueIs(s: State, infos: Infos, podItems: PodItems, nsItems: NamespaceItems, labelItems: NamespaceItems, tag: Tag)
    ensures DueByPods(s, infos, podItems, nsItems, labelItems, tag)
       <==> match tag
            case PodLabel(l) => l in TouchedKeys(podItems)
            case XLabel(k) => k in s.selectors && HasLabel(s.selectors[k], TouchedKeys(podItems))
            case NamespacePods(ns) => ns in TouchedKeys(nsItems)
            case NamespaceLabel(pair) => exists ns :: ns in TouchedKeys(labelItems) && Carries(infos, ns, pair)
  {
    match tag
    case PodLabel(l) => TouchedIs(podItems, l);
    case XLabel(k) =>
      forall l ensures l in TouchedKeys(podItems) <==> Touches(Opened(podItems), l) {
        TouchedIs(podItems, l);
      }
    case NamespacePods(ns) => TouchedIs(nsItems, ns);
    case NamespaceLabel(pair) =>
      forall ns ensures ns in TouchedKeys(labelItems) <==> Touches(Opened(labelItems), ns) {
        TouchedIs(labelItems, ns);
      }
  }

  // ---------- visits ----------

  ghost predicate Covering(visits: seq<Visit>, tags: set<Tag>) {
    forall v :: v in visits <==> v.Sync? && v.tag in tags
  }

  lemma CoveringMore(visits: seq<Visit>, tags: set<Tag>, tag: Tag)
    requires Covering(visits, tags)
    ensures Covering(visits + [Sync(tag)], tags + {tag})
  {}

  lemma CoveringBoth(a: seq<Visit>, b: seq<Visit>, x: set<Tag>, y: set<Tag>)
    requires Covering(a, x) && Covering(b, y)
    ensures Covering(a + b, x + y)
  {}

  lemma TryMore(s: State, visits: seq<Visit>, v: Visit)
    ensures TryAll(s, visits + [v]) == Try(TryAll(s, visits), v)
  {
    assert (visits + [v])[..|visits|] == visits;
  }

  lemma {:induction false} TryConcat(s: State, a: seq<Visit>, b: seq<Visit>)
    ensures TryAll(s, a + b) == TryAll(TryAll(s, a), b)
  {
    if b == [] {
      assert a + b == a;
    } else {
      var n := |b| - 1;
      assert (a + b)[..|a + b| - 1] == a + b[..n];
      TryConcat(s, a, b[..n]);
    }
  }

  /** The policies whose selector has one of the labels. */
  ghost predicate HasLabel(scoped: Scoped, labels: set<NsLabel>) {
    exists pair :: pair in Pairs(scoped.selector) && NsLabel(scoped.ns, pair) in labels
  }

  ghost function SelectorTags(selectors: map<Key, Scoped>, labels: set<NsLabel>): set<Tag> {
    set k | k in selectors && HasLabel(selectors[k], labels) :: XLabel(k)
  }

  lemma SelectorTagsMore(selectors: map<Key, Scoped>, rest: set<Key>, k: Key, l: NsLabel)
    requires rest <= selectors.Keys && k in rest
    ensures var scoped := selectors[k];
            SelectorTags(selectors - (rest - {k}), {l})
            == SelectorTags(selectors - rest, {l})
               + if scoped.ns == l.ns && l.pair.key in scoped.selector && scoped.selector[l.pair.key] == l.pair.value
                   then {XLabel(k)} else {}
  {
    var scoped := selectors[k];
    assert HasLabel(scoped, {l}) <==> scoped.ns == l.ns && l.pair in Pairs(scoped.selector) by {
      assert scoped.ns == l.ns ==> NsLabel(scoped.ns, l.pair) == l;
    }
    var less, more := selectors - rest, selectors - (rest - {k});
    assert more.Keys == less.Keys + {k};
    forall tag
      ensures tag in SelectorTags(more, {l})
              <==> tag in SelectorTags(less, {l}) || (tag == XLabel(k) && HasLabel(scoped, {l}))
    {
      assert tag in SelectorTags(more, {l}) <==> tag.XLabel? && tag.k in more && HasLabel(more[tag.k], {l});
      assert tag in SelectorTags(less, {l}) <==> tag.XLabel? && tag.k in less && HasLabel(less[tag.k], {l});
    }
  }

  // ---------- intersections ----------

  /** The pods under some indexed pair of the selector. */
  ghost predicate UnderPair(pml: Index<NsLabel>, ns: string, selector: Selector, m: PodInfos) {
    exists pair :: PairIndexed(pml, ns, selector, pair) && pml[NsLabel(ns, pair)] == m
  }

  ghost predicate InFirst(ms: seq<PodInfos>, n: nat, ip: string) {
    forall i :: 0 <= i < n && i < |ms| ==> ip in ms[i]
  }

  lemma UnderPairMore(pml: Index<NsLabel>, ns: string, selector: Selector, rest: set<string>, k: string)
    requires k in rest && rest <= selector.Keys
    ensures var l := NsLabel(ns, Label(k, selector[k]));
            forall m ::
              UnderPair(pml, ns, selector - (rest - {k}), m)
              <==> UnderPair(pml, ns, selector - rest, m) || (l in pml && m == pml[l])
  {
    var one := Label(k, selector[k]);
    var less, more := selector - rest, selector - (rest - {k});
    PairsOfLabels(selector, rest, k);
    forall pair
      ensures PairIndexed(pml, ns, more, pair)
              <==> PairIndexed(pml, ns, less, pair) || (pair == one && NsLabel(ns, one) in pml)
    {}
    forall m
      ensures UnderPair(pml, ns, more, m)
              <==> UnderPair(pml, ns, less, m) || (NsLabel(ns, one) in pml && m == pml[NsLabel(ns, one)])
    {
      if NsLabel(ns, one) in pml {
        assert PairIndexed(pml, ns, more, one);
      }
      if UnderPair(pml, ns, less, m) {
        var pair :| PairIndexed(pml, ns, less, pair) && pml[NsLabel(ns, pair)] == m;
        assert PairIndexed(pml, ns, more, pair);
      }
    }
  }

  lemma UnderPairs(pml: Index<NsLabel>, ns: string, selector: Selector, ms: seq<PodInfos>, ips: set<string>)
    requires forall m :: m in ms <==> UnderPair(pml, ns, selector, m)
    requires if ms == [] then ips == {} else forall ip :: ip in ips <==> InFirst(ms, |ms|, ip)
    ensures ms != [] <==> AnyIndexed(pml, ns, selector)
    ensures ips == Intersection(pml, ns, selector)
  {
    if ms != [] {
      assert ms[0] in ms;
      var pair :| PairIndexed(pml, ns, selector, pair) && pml[NsLabel(ns, pair)] == ms[0];
    }
    if AnyIndexed(pml, ns, selector) {
      var pair :| PairIndexed(pml, ns, selector, pair);
      assert UnderPair(pml, ns, selector, pml[NsLabel(ns, pair)]);
    }
    forall ip ensures ip in ips <==> ip in Intersection(pml, ns, selector) {
      IntersectionIs(pml, ns, selector, ip);
      if ms != [] {
        AllUnderPairs(pml, ns, selector, ms, ip);
      }
    }
  }

  lemma AllUnderPairs(pml: Index<NsLabel>, ns: string, selector: Selector, ms: seq<PodInfos>, ip: string)
    requires forall m :: m in ms <==> UnderPair(pml, ns, selector, m)
    ensures InFirst(ms, |ms|, ip) <==> InAll(pml, ns, selector, ip)
  {
    if InFirst(ms, |ms|, ip) {
      forall pair | PairIndexed(pml, ns, selector, pair) ensures ip in pml[NsLabel(ns, pair)] {
        assert UnderPair(pml, ns, selector, pml[NsLabel(ns, pair)]);
        var i :| 0 <= i < |ms| && ms[i] == pml[NsLabel(ns, pair)];
      }
    }
    if InAll(pml, ns, selector, ip) {
      forall i | 0 <= i < |ms| ensures ip in ms[i] {
        assert ms[i] in ms;
        var pair :| PairIndexed(pml, ns, selector, pair) && pml[NsLabel(ns, pair)] == ms[i];
      }
    }
  }

  lemma LabelsVisited(selectors: map<Key, Scoped>, labels: set<NsLabel>, rest: set<NsLabel>, l: NsLabel,
                      visits: seq<Visit>, more: seq<Visit>)
    requires rest <= labels && l in rest
    requires Covering(visits, LabelTags(selectors, labels - rest)) && Covering(more, LabelTags(selectors, {l}))
    ensures Covering(visits + more, LabelTags(selectors, labels - (rest - {l})))
  {
    LabelTagsMore(selectors, labels - rest, l);
    assert labels - (rest - {l}) == labels - rest + {l};
    CoveringBoth(visits, more, LabelTags(selectors, labels - rest), LabelTags(selectors, {l}));
  }

  /** What pods call for does not depend on the indexes. */
  lemma SameVisits(s: State, s': State, infos: Infos, podItems: PodItems, nsItems: NamespaceItems,
                   labelItems: NamespaceItems, visits: seq<Visit>)
    requires s'.selectors == s.selectors
    ensures VisitsPods(s', infos, podItems, nsItems, labelItems, visits)
            <==> VisitsPods(s, infos, podItems, nsItems, labelItems, visits)
  {
    forall tag
      ensures DueByPods(s', infos, podItems, nsItems, labelItems, tag)
              <==> DueByPods(s, infos, podItems, nsItems, labelItems, tag)
    {}
  }
}
