/** Pods as reported by the cluster, the views built from them, and the three change maps. */
module Pods {
  import opened Options
  import opened Policies
  import opened PolicySpecs
  import opened Indexes
  import opened Joins
  import opened Coalescing

  datatype Phase = Succeeded | Failed | OtherPhase(text: string)

  datatype Pod = Pod(ns: string, name: string, labels: GoMap<string, string>, ip: string, hostNetwork: bool,
      phase: Phase)

  datatype Namespace = Namespace(name: string, labels: GoMap<string, string>)

  datatype NsLabel = NsLabel(ns: string, pair: Label)

  // ---------- the views ----------

  /** A pod counts when it has an address of its own and has not ended. */
  predicate Visible(pod: Option<Pod>) {
    pod.Some? && pod.value.ip != "" && !pod.value.hostNetwork && !pod.value.phase.Succeeded? && !pod.value.phase.Failed?
  }

  function Info(pod: Pod): PodInfo { PodInfo(pod.ip, pod.name, pod.ns, pod.labels) }

  function NsLabelsOf(ns: string, labels: map<string, string>, keys: set<string>): set<NsLabel>
    requires keys <= labels.Keys
  {
    set k | k in keys :: NsLabel(ns, Label(k, labels[k]))
  }

  function NsLabels(pod: Pod): set<NsLabel> {
    NsLabelsOf(pod.ns, pod.labels.Entries(), pod.labels.Entries().Keys)
  }

  /** A visible pod without labels has an empty view, which is not the view of an absent pod. */
  function PodLabelView(pod: Option<Pod>): GoMap<NsLabel, PodInfos> {
    if !Visible(pod) then NilMap
    else MapOf(map l | l in NsLabels(pod.value) :: map[pod.value.ip := Info(pod.value)])
  }

  function PodNamespaceView(pod: Option<Pod>): GoMap<string, PodInfos> {
    if !Visible(pod) then NilMap else MapOf(map[pod.value.ns := map[pod.value.ip := Info(pod.value)]])
  }

  function NamespaceInfo(namespace: Option<Namespace>): Option<NsInfo> {
    if namespace.None? then None else Some(NsInfo(namespace.value.name, namespace.value.labels))
  }

  /** A pod without an address, on the host network, or ended has no view; any other has both. */
  lemma ViewsOfPod(pod: Pod)
    ensures PodLabelView(Some(pod)) == NilMap
       <==> pod.ip == "" || pod.hostNetwork || pod.phase.Succeeded? || pod.phase.Failed?
    ensures PodNamespaceView(Some(pod)) == NilMap
       <==> pod.ip == "" || pod.hostNetwork || pod.phase.Succeeded? || pod.phase.Failed?
    ensures PodLabelView(None) == NilMap && PodNamespaceView(None) == NilMap
  {}

  /** The views hold the pod's address: under its namespace, and under each of its labels in its namespace. */
  lemma ViewsHold(pod: Pod, l: NsLabel, ns: string)
    requires PodLabelView(Some(pod)) != NilMap
    ensures var view := PodLabelView(Some(pod)).Entries();
            (l in view <==> l.ns == pod.ns && Picks(Some(pod.labels.Entries()), l.pair))
            && (l in view ==> view[l].Keys == {pod.ip})
    ensures var view := PodNamespaceView(Some(pod)).Entries();
            (ns in view <==> ns == pod.ns) && (ns in view ==> view[ns].Keys == {pod.ip})
  {
    var view := PodLabelView(Some(pod)).Entries();
    if l in view {
      assert l in NsLabels(pod);
    }
    if l.ns == pod.ns && Picks(Some(pod.labels.Entries()), l.pair) {
      assert NsLabel(pod.ns, Label(l.pair.key, l.pair.value)) == l;
      assert l in NsLabels(pod);
    }
  }

  method PodToPodMatchLabelMap(pod: Option<Pod>) returns (r: GoMap<NsLabel, PodInfos>)
    ensures r == PodLabelView(pod)
    ensures r == NilMap <==> pod.None? || pod.value.ip == "" || pod.value.hostNetwork || pod.value.phase.Succeeded?
                             || pod.value.phase.Failed?
  {
    if pod.None? || pod.value.ip == "" || pod.value.hostNetwork || pod.value.phase.Succeeded?
        || pod.value.phase.Failed? {
      return NilMap;
    }
    var p := pod.value;
    var podMatchLabelMap: Index<NsLabel> := map[];
    var labels := p.labels.Entries();
    var keys := labels.Keys;
    while keys != {}
      invariant keys <= labels.Keys
      invariant podMatchLabelMap == map l | l in NsLabelsOf(p.ns, labels, labels.Keys - keys) :: map[p.ip := Info(p)]
      decreases keys
    {
      var k :| k in keys;
      keys := keys - {k};
      podMatchLabelMap := podMatchLabelMap[NsLabel(p.ns, Label(k, labels[k])) := map[p.ip := Info(p)]];
    }
    assert labels.Keys - keys == labels.Keys;
    return MapOf(podMatchLabelMap);
  }

  // ---------- pods ----------

  class PodChangeMap {
    var podItems: map<Key, Change<GoMap<NsLabel, PodInfos>>>
    var namespacePodItems: map<Key, Change<GoMap<string, PodInfos>>>
    var namespaceLabelItems: map<Key, Change<GoMap<string, PodInfos>>>

    constructor ()
      ensures podItems == map[] && namespacePodItems == map[] && namespaceLabelItems == map[]
    {
      podItems, namespacePodItems, namespaceLabelItems := map[], map[], map[];
    }

    predicate Changed()
      reads this
    {
      podItems != map[] || namespacePodItems != map[] || namespaceLabelItems != map[]
    }

    method Update(key: Key, previous: Option<Pod>, current: Option<Pod>) returns (changed: bool)
      modifies this
      ensures podItems == Updated(old(podItems), key, PodLabelView(previous), PodLabelView(current))
      ensures namespacePodItems == Updated(old(namespacePodItems), key, PodNamespaceView(previous),
                  PodNamespaceView(current))
      ensures namespaceLabelItems == Updated(old(namespaceLabelItems), key, PodNamespaceView(previous),
                  PodNamespaceView(current))
      ensures changed == Changed()
    {
      UpdatePodItems(key, previous, current);
      UpdateNamespacePodItems(key, previous, current);
      UpdateNamespaceLabelItems(key, previous, current);
      changed := |podItems| > 0 || |namespacePodItems| > 0 || |namespaceLabelItems| > 0;
    }

    method UpdatePodItems(key: Key, previous: Option<Pod>, current: Option<Pod>)
      modifies this`podItems
      ensures podItems == Updated(old(podItems), key, PodLabelView(previous), PodLabelView(current))
    {
      if key !in podItems {
        var view := PodToPodMatchLabelMap(previous);
        podItems := podItems[key := Change(view, NilMap)];
      }
      var view := PodToPodMatchLabelMap(current);
      podItems := podItems[key := podItems[key].(current := view)];
      if podItems[key].previous == podItems[key].current {
        podItems := podItems - {key};
      }
    }

    method UpdateNamespacePodItems(key: Key, previous: Option<Pod>, current: Option<Pod>)
      modifies this`namespacePodItems
      ensures namespacePodItems == Updated(old(namespacePodItems), key, PodNamespaceView(previous),
                  PodNamespaceView(current))
    {
      if key !in namespacePodItems {
        namespacePodItems := namespacePodItems[key := Change(PodNamespaceView(previous), NilMap)];
      }
      namespacePodItems := namespacePodItems[key := namespacePodItems[key].(current := PodNamespaceView(current))];
      if namespacePodItems[key].previous == namespacePodItems[key].current {
        namespacePodItems := namespacePodItems - {key};
      }
    }

    method UpdateNamespaceLabelItems(key: Key, previous: Option<Pod>, current: Option<Pod>)
      modifies this`namespaceLabelItems
      ensures namespaceLabelItems == Updated(old(namespaceLabelItems), key, PodNamespaceView(previous),
                  PodNamespaceView(current))
    {
      if key !in namespaceLabelItems {
        namespaceLabelItems := namespaceLabelItems[key := Change(PodNamespaceView(previous), NilMap)];
      }
      namespaceLabelItems :=
        namespaceLabelItems[key := namespaceLabelItems[key].(current := PodNamespaceView(current))];
      if namespaceLabelItems[key].previous == namespaceLabelItems[key].current {
        namespaceLabelItems := namespaceLabelItems - {key};
      }
    }

    method CleanUpItem()
      modifies this
      ensures podItems == map[] && namespacePodItems == map[] && namespaceLabelItems == map[]
    {
      podItems, namespacePodItems, namespaceLabelItems := map[], map[], map[];
    }
  }

  // ---------- namespaces ----------

  class NamespaceChangeMap {
    var items: map<string, Change<Option<NsInfo>>>

    constructor ()
      ensures items == map[]
    {
      items := map[];
    }

    method Update(key: string, previous: Option<Namespace>, current: Option<Namespace>) returns (changed: bool)
      modifies this
      ensures items == Updated(old(items), key, NamespaceInfo(previous), NamespaceInfo(current))
      ensures changed == (items != map[])
    {
      if key !in items {
        items := items[key := Change(NamespaceInfo(previous), None)];
      }
      items := items[key := items[key].(current := NamespaceInfo(current))];
      if items[key].previous == items[key].current {
        items := items - {key};
      }
      changed := |items| > 0;
    }

    method CleanUpItem()
      modifies this
      ensures items == map[]
    {
      items := map[];
    }
  }

  // ---------- policies ----------

  class NetworkPolicyChangeMap {
    var items: map<Key, Change<Option<Policy>>>

    constructor ()
      ensures items == map[]
    {
      items := map[];
    }

    /** The views are built from the policies as reported. */
    method Update(key: Key, previous: Option<PolicySpec>, current: Option<PolicySpec>) returns (changed: bool)
      modifies this
      ensures items == Updated(old(items), key, PolicyView(previous), PolicyView(current))
      ensures changed == (items != map[])
    {
      if key !in items {
        var first := BuildNetworkPolicyInfo(previous);
        items := items[key := Change(first, None)];
      }
      var present := BuildNetworkPolicyInfo(current);
      items := items[key := items[key].(current := present)];
      if items[key].previous == items[key].current {
        items := items - {key};
      }
      changed := |items| > 0;
    }

    method CleanUpItem()
      modifies this
      ensures items == map[]
    {
      items := map[];
    }
  }

  // ---------- what a flush works on ----------

  /** Nil views merge like empty ones. */
  function Opened<O, K>(items: map<O, Change<GoMap<K, PodInfos>>>): map<O, Change<Index<K>>> {
    if items == map[] then map[]
    else map o | o in items :: Change(items[o].previous.Entries(), items[o].current.Entries())
  }

  lemma OpenedKeys<O(!new), K(!new)>(items: map<O, Change<GoMap<K, PodInfos>>>)
    ensures Opened(items).Keys == items.Keys
  {}

  ghost function LabelViews(pods: map<Key, Pod>): Snapshot<Key, NsLabel> {
    map p | p in pods :: PodLabelView(Some(pods[p])).Entries()
  }

  ghost function NamespaceViews(pods: map<Key, Pod>): Snapshot<Key, string> {
    map p | p in pods :: PodNamespaceView(Some(pods[p])).Entries()
  }

  lemma NamespaceViewsSingle(pods: map<Key, Pod>)
    ensures AllSingle(NamespaceViews(pods))
  {}

  lemma ViewsFind(pods: map<Key, Pod>, p: Key)
    ensures View(LabelViews(pods), p) == PodLabelView(Find(pods, p)).Entries()
    ensures View(NamespaceViews(pods), p) == PodNamespaceView(Find(pods, p)).Entries()
  {}

  /** Coalesced pending pods lead the label index from the flushed pods to the present ones. */
  lemma PodItemsLead(items: map<Key, Change<GoMap<NsLabel, PodInfos>>>, flushed: map<Key, Pod>, store: map<Key, Pod>)
    requires Coalesced(items, flushed, store, PodLabelView)
    ensures Leads(Opened(items), LabelViews(flushed), LabelViews(store))
  {
    forall p: Key
      ensures if p in Opened(items) then Opened(items)[p]
                  == Change(View(LabelViews(flushed), p), View(LabelViews(store), p))
              else View(LabelViews(flushed), p) == View(LabelViews(store), p)
    {
      ViewsFind(flushed, p);
      ViewsFind(store, p);
    }
  }

  /** And so for the namespace index. */
  lemma NamespaceItemsLead(items: map<Key, Change<GoMap<string, PodInfos>>>, flushed: map<Key, Pod>,
                           store: map<Key, Pod>)
    requires Coalesced(items, flushed, store, PodNamespaceView)
    ensures Leads(Opened(items), NamespaceViews(flushed), NamespaceViews(store))
  {
    forall p: Key
      ensures if p in Opened(items) then Opened(items)[p]
                  == Change(View(NamespaceViews(flushed), p), View(NamespaceViews(store), p))
              else View(NamespaceViews(flushed), p) == View(NamespaceViews(store), p)
    {
      ViewsFind(flushed, p);
      ViewsFind(store, p);
    }
  }

  /** No address belongs to two visible pods, across two states of the cluster. */
  ghost predicate PodsApart(before: map<Key, Pod>, after: map<Key, Pod>) {
    forall p, q, ip ::
      p != q
      ==> !((Address(before, p, ip) || Address(after, p, ip)) && (Address(before, q, ip) || Address(after, q, ip)))
  }

  ghost predicate Address(pods: map<Key, Pod>, p: Key, ip: string) {
    p in pods && Visible(Some(pods[p])) && pods[p].ip == ip
  }

  lemma ViewsUse(pods: map<Key, Pod>, p: Key, ip: string)
    ensures Uses(NamespaceViews(pods), p, ip) <==> Address(pods, p, ip)
  {
    if Address(pods, p, ip) {
      assert Has(NamespaceViews(pods), p, pods[p].ns, ip);
    }
  }

  lemma ApartViews(before: map<Key, Pod>, after: map<Key, Pod>)
    requires PodsApart(before, after)
    ensures Apart(NamespaceViews(before), NamespaceViews(after))
    ensures Within(LabelViews(before), NamespaceViews(before)) && Within(LabelViews(after), NamespaceViews(after))
  {
    forall p, q, ip | p != q
      ensures !((Uses(NamespaceViews(before), p, ip) || Uses(NamespaceViews(after), p, ip))
                && (Uses(NamespaceViews(before), q, ip) || Uses(NamespaceViews(after), q, ip)))
    {
      ViewsUse(before, p, ip);
      ViewsUse(after, p, ip);
      ViewsUse(before, q, ip);
      ViewsUse(after, q, ip);
    }
    LabelsWithin(before);
    LabelsWithin(after);
  }

  lemma LabelsWithin(pods: map<Key, Pod>)
    ensures Within(LabelViews(pods), NamespaceViews(pods))
  {
    forall p, l, ip | Has(LabelViews(pods), p, l, ip) ensures Uses(NamespaceViews(pods), p, ip) {
      ViewsUse(pods, p, ip);
    }
  }
}
