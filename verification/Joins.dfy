/**
 * The namespace-label index as a join: under a namespace label stand the pods of every namespace
 * that carries it. It is patched along two paths, by pods and by namespaces.
 */
module Joins {
  import opened Options
  import opened Orders
  import opened Policies
  import opened Indexes

  datatype NsInfo = NsInfo(name: string, labels: GoMap<string, string>)

  type Infos = map<string, NsInfo>

  /** The pods of a namespace under each of its labels. */
  function Spread(pods: PodInfos, info: NsInfo): Index<Label> {
    map pair | pair in Pairs(info.labels.Entries()) :: pods
  }

  // ---------- one namespace's contribution ----------

  /** What a namespace puts into the index; nothing when it is absent or has no entry in the pod index. */
  function NsView(npm: Index<string>, info: Option<NsInfo>): Index<Label> {
    if info.None? || info.value.name !in npm then map[] else Spread(npm[info.value.name], info.value)
  }

  function Lookup(infos: Infos, ns: string): Option<NsInfo> {
    if ns in infos then Some(infos[ns]) else None
  }

  ghost function NsSnapshot(npm: Index<string>, infos: Infos): Snapshot<string, Label> {
    map ns | ns in infos :: NsView(npm, Some(infos[ns]))
  }

  ghost predicate WellNamed(infos: Infos) {
    forall ns :: ns in infos ==> infos[ns].name == ns
  }

  ghost predicate Carries(infos: Infos, ns: string, pair: Label) {
    ns in infos && pair in Pairs(infos[ns].labels.Entries())
  }

  /** The join invariant. */
  ghost predicate Joined(nmlm: Index<Label>, npm: Index<string>, infos: Infos) {
    Agrees(nmlm, NsSnapshot(npm, infos))
  }

  lemma NsSnapshotHas(npm: Index<string>, infos: Infos, ns: string, pair: Label, ip: string)
    requires WellNamed(infos)
    ensures Has(NsSnapshot(npm, infos), ns, pair, ip) <==> Carries(infos, ns, pair) && ip in Get(npm, ns)
    ensures Has(NsSnapshot(npm, infos), ns, pair, ip) ==> View(NsSnapshot(npm, infos), ns)[pair][ip] == npm[ns][ip]
  {}

  /** The join invariant says: under a label stand exactly the pods of the namespaces that carry it. */
  lemma JoinedMeans(nmlm: Index<Label>, npm: Index<string>, infos: Infos, pair: Label, ip: string)
    requires Joined(nmlm, npm, infos) && WellNamed(infos)
    ensures ip in Get(nmlm, pair) <==> exists ns :: Carries(infos, ns, pair) && ip in Get(npm, ns)
    ensures forall ns :: Carries(infos, ns, pair) && ip in Get(npm, ns) ==> Get(nmlm, pair)[ip] == Get(npm, ns)[ip]
  {
    var snap := NsSnapshot(npm, infos);
    if ip in Get(nmlm, pair) {
      var ns :| Has(snap, ns, pair, ip);
      NsSnapshotHas(npm, infos, ns, pair, ip);
    }
    forall ns | Carries(infos, ns, pair) && ip in Get(npm, ns)
      ensures ip in Get(nmlm, pair) && Get(nmlm, pair)[ip] == Get(npm, ns)[ip]
    {
      NsSnapshotHas(npm, infos, ns, pair, ip);
      assert Has(snap, ns, pair, ip);
    }
  }

  // ---------- one pod's contribution ----------

  /** A pod is in one namespace. */
  ghost predicate Single(view: Index<string>) {
    forall a, b :: a in view && b in view ==> a == b
  }

  ghost predicate AllSingle<O(!new)>(snap: Snapshot<O, string>) {
    forall o :: Single(View(snap, o))
  }

  /** What a pod contributes under namespace labels, through the namespace it is in. */
  ghost function LabelView(view: Index<string>, infos: Infos): Index<Label> {
    if ns: string :| ns in view then
      if ns in infos && view[ns] != map[] then Spread(view[ns], infos[ns]) else map[]
    else map[]
  }

  ghost function PodSnapshot<O(!new)>(pods: Snapshot<O, string>, infos: Infos): Snapshot<O, Label> {
    map o | o in pods :: LabelView(pods[o], infos)
  }

  lemma LabelViewHas(view: Index<string>, infos: Infos, pair: Label, ip: string)
    requires Single(view)
    ensures ip in Get(LabelView(view, infos), pair) <==> exists ns :: Carries(infos, ns, pair) && ip in Get(view, ns)
    ensures forall ns ::
              Carries(infos, ns, pair) && ip in Get(view, ns) ==> Get(LabelView(view, infos), pair)[ip] == view[ns][ip]
  {
    if ns: string :| ns in view {
      var mine := if ns in infos && view[ns] != map[] then Spread(view[ns], infos[ns]) else map[];
      assert LabelView(view, infos) == mine;
      assert forall other :: other in view ==> other == ns;
      assert ip in Get(mine, pair) <==> Carries(infos, ns, pair) && ip in Get(view, ns);
    }
  }

  lemma PodSnapshotHas<O(!new)>(pods: Snapshot<O, string>, infos: Infos, o: O, pair: Label, ip: string)
    requires AllSingle(pods)
    ensures Has(PodSnapshot(pods, infos), o, pair, ip)
            <==> exists ns :: Carries(infos, ns, pair) && Has(pods, o, ns, ip)
    ensures forall ns :: Carries(infos, ns, pair) && Has(pods, o, ns, ip) ==>
              Has(PodSnapshot(pods, infos), o, pair, ip)
              && View(PodSnapshot(pods, infos), o)[pair][ip] == View(pods, o)[ns][ip]
  {
    assert View(PodSnapshot(pods, infos), o) == if o in pods then LabelView(View(pods, o), infos) else map[];
    assert Single(View(pods, o));
    if o in pods {
      LabelViewHas(View(pods, o), infos, pair, ip);
    }
  }

  /** Counting by pods or by namespaces comes to the same, when the pod index is right. */
  lemma ByPodsByNamespaces<O(!new)>(nmlm: Index<Label>, npm: Index<string>, infos: Infos, pods: Snapshot<O, string>)
    requires Agrees(npm, pods) && AllSingle(pods) && WellNamed(infos)
    ensures Joined(nmlm, npm, infos) <==> Agrees(nmlm, PodSnapshot(pods, infos))
  {
    if Joined(nmlm, npm, infos) {
      ByPods(nmlm, npm, infos, pods);
    }
    if Agrees(nmlm, PodSnapshot(pods, infos)) {
      ByNamespaces(nmlm, npm, infos, pods);
    }
  }

  lemma ByPods<O(!new)>(nmlm: Index<Label>, npm: Index<string>, infos: Infos, pods: Snapshot<O, string>)
    requires Agrees(npm, pods) && AllSingle(pods) && WellNamed(infos) && Joined(nmlm, npm, infos)
    ensures Agrees(nmlm, PodSnapshot(pods, infos))
  {
    var snap := PodSnapshot(pods, infos);
    forall pair, ip | ip in Get(nmlm, pair) ensures exists o :: Has(snap, o, pair, ip) {
      JoinedMeans(nmlm, npm, infos, pair, ip);
      var ns :| Carries(infos, ns, pair) && ip in Get(npm, ns);
      var o :| Has(pods, o, ns, ip);
      PodSnapshotHas(pods, infos, o, pair, ip);
      assert Has(snap, o, pair, ip);
    }
    forall o, pair, ip | Has(snap, o, pair, ip)
      ensures ip in Get(nmlm, pair) && Get(nmlm, pair)[ip] == View(snap, o)[pair][ip]
    {
      PodSnapshotHas(pods, infos, o, pair, ip);
      var ns :| Carries(infos, ns, pair) && Has(pods, o, ns, ip);
      JoinedMeans(nmlm, npm, infos, pair, ip);
    }
  }

  lemma ByNamespaces<O(!new)>(nmlm: Index<Label>, npm: Index<string>, infos: Infos, pods: Snapshot<O, string>)
    requires Agrees(npm, pods) && AllSingle(pods) && WellNamed(infos) && Agrees(nmlm, PodSnapshot(pods, infos))
    ensures Joined(nmlm, npm, infos)
  {
    var snap, target := PodSnapshot(pods, infos), NsSnapshot(npm, infos);
    forall pair, ip | ip in Get(nmlm, pair) ensures exists ns :: Has(target, ns, pair, ip) {
      var o :| Has(snap, o, pair, ip);
      PodSnapshotHas(pods, infos, o, pair, ip);
      var ns :| Carries(infos, ns, pair) && Has(pods, o, ns, ip);
      NsSnapshotHas(npm, infos, ns, pair, ip);
      assert Has(target, ns, pair, ip);
    }
    forall ns, pair, ip | Has(target, ns, pair, ip)
      ensures ip in Get(nmlm, pair) && Get(nmlm, pair)[ip] == View(target, ns)[pair][ip]
    {
      NsSnapshotHas(npm, infos, ns, pair, ip);
      var o :| Has(pods, o, ns, ip);
      PodSnapshotHas(pods, infos, o, pair, ip);
      assert Has(snap, o, pair, ip);
    }
  }

  // ---------- addresses ----------

  ghost predicate Uses<O, K(!new)>(snap: Snapshot<O, K>, o: O, ip: string) {
    exists k :: Has(snap, o, k, ip)
  }

  /** No address belongs to two pods, across the snapshots before and after a flush. */
  ghost predicate Apart<O(!new), K(!new)>(before: Snapshot<O, K>, after: Snapshot<O, K>) {
    forall o, o', ip ::
      o != o' ==> !((Uses(before, o, ip) || Uses(after, o, ip)) && (Uses(before, o', ip) || Uses(after, o', ip)))
  }

  /** A snapshot of the same owners that uses no address the other does not use. */
  ghost predicate Within<O(!new), K(!new), L(!new)>(small: Snapshot<O, L>, big: Snapshot<O, K>) {
    forall o, l, ip :: Has(small, o, l, ip) ==> Uses(big, o, ip)
  }

  lemma ApartUnique<O(!new), K(!new), L(!new)>(small: Snapshot<O, L>, small': Snapshot<O, L>, before: Snapshot<O, K>,
                      after: Snapshot<O, K>)
    requires Apart(before, after) && Within(small, before) && Within(small', after)
    ensures Unique(small) && Unique(small')
  {
    forall o, o', l, ip | Has(small, o, l, ip) && Has(small, o', l, ip) ensures o == o' {
      assert Uses(before, o, ip) && Uses(before, o', ip);
      assert o != o'
             ==> !((Uses(before, o, ip) || Uses(after, o, ip)) && (Uses(before, o', ip) || Uses(after, o', ip)));
    }
    forall o, o', l, ip | Has(small', o, l, ip) && Has(small', o', l, ip) ensures o == o' {
      assert Uses(after, o, ip) && Uses(after, o', ip);
      assert o != o'
             ==> !((Uses(before, o, ip) || Uses(after, o, ip)) && (Uses(before, o', ip) || Uses(after, o', ip)));
    }
  }

  lemma ApartNoMoves<O(!new), K(!new), L(!new)>(changes: map<O, Change<Index<L>>>, small: Snapshot<O, L>,
                       small': Snapshot<O, L>, before: Snapshot<O, K>, after: Snapshot<O, K>)
    requires Apart(before, after) && Within(small, before) && Within(small', after) && Leads(changes, small, small')
    ensures NoMoves(changes)
  {
    forall o, o', l, ip | o in changes && o' in changes && o != o'
      ensures !(ip in Get(changes[o].previous, l) && ip in Get(changes[o'].current, l))
    {
      LeadsHas(changes, small, small', o, l, ip);
      LeadsHas(changes, small, small', o', l, ip);
      assert Has(small, o, l, ip) ==> Uses(before, o, ip);
      assert Has(small', o', l, ip) ==> Uses(after, o', ip);
      assert !((Uses(before, o, ip) || Uses(after, o, ip)) && (Uses(before, o', ip) || Uses(after, o', ip)));
    }
  }

  lemma LeadsHas<O(!new), L(!new)>(changes: map<O, Change<Index<L>>>, small: Snapshot<O, L>, small': Snapshot<O, L>,
                   o: O, l: L, ip: string)
    requires Leads(changes, small, small') && o in changes
    ensures ip in Get(changes[o].previous, l) <==> Has(small, o, l, ip)
    ensures ip in Get(changes[o].current, l) <==> Has(small', o, l, ip)
  {}

  /** Address-wise separation gives all the hypotheses of a batch rebuild, in any index over the same pods. */
  lemma ApartFlush<O(!new), K(!new), L(!new)>(idx: Index<L>, order: seq<O>, changes: map<O, Change<Index<L>>>,
                     small: Snapshot<O, L>, small': Snapshot<O, L>, before: Snapshot<O, K>, after: Snapshot<O, K>)
    requires Apart(before, after) && Within(small, before) && Within(small', after)
    requires Agrees(idx, small) && Leads(changes, small, small') && Enumerates(order, changes.Keys)
    ensures Agrees(Flush(idx, order, changes), small')
  {
    ApartUnique(small, small', before, after);
    ApartNoMoves(changes, small, small', before, after);
    FlushAgrees(idx, order, changes, small, small');
  }

  lemma PodSnapshotWithin<O(!new)>(pods: Snapshot<O, string>, infos: Infos)
    requires AllSingle(pods)
    ensures Within(PodSnapshot(pods, infos), pods)
  {
    forall o, pair, ip | Has(PodSnapshot(pods, infos), o, pair, ip) ensures Uses(pods, o, ip) {
      PodSnapshotHas(pods, infos, o, pair, ip);
    }
  }

  // ---------- the two flushes ----------

  /** Pending pod changes as the namespace-label index sees them. */
  ghost function LabelChanges<O>(changes: map<O, Change<Index<string>>>, infos: Infos): map<O, Change<Index<Label>>> {
    if changes == map[] then map[]
    else map o | o in changes :: Change(LabelView(changes[o].previous, infos), LabelView(changes[o].current, infos))
  }

  lemma LabelChangesLead<O(!new)>(changes: map<O, Change<Index<string>>>, pods: Snapshot<O, string>,
                           pods': Snapshot<O, string>, infos: Infos)
    requires Leads(changes, pods, pods')
    ensures Leads(LabelChanges(changes, infos), PodSnapshot(pods, infos), PodSnapshot(pods', infos))
  {
    EmptyLabelView(infos);
    forall o
      ensures View(PodSnapshot(pods, infos), o) == LabelView(View(pods, o), infos)
      ensures View(PodSnapshot(pods', infos), o) == LabelView(View(pods', o), infos)
    {}
  }

  lemma EmptyLabelView(infos: Infos)
    ensures LabelView(map[], infos) == map[]
  {}

  /** Flushing pods keeps the join: both indexes move to the new pods. */
  lemma PodFlushJoins<O(!new)>(nmlm: Index<Label>, npm: Index<string>, infos: Infos,
                        changes: map<O, Change<Index<string>>>, pods: Snapshot<O, string>, pods': Snapshot<O, string>,
                        order: seq<O>, labelOrder: seq<O>)
    requires Joined(nmlm, npm, infos) && Agrees(npm, pods) && WellNamed(infos)
    requires AllSingle(pods) && AllSingle(pods') && Apart(pods, pods') && Leads(changes, pods, pods')
    requires Enumerates(order, changes.Keys) && Enumerates(labelOrder, changes.Keys)
    ensures LabelChanges(changes, infos).Keys == changes.Keys
    ensures var npm' := Flush(npm, order, changes);
            Agrees(npm', pods') && Joined(Flush(nmlm, labelOrder, LabelChanges(changes, infos)), npm', infos)
  {
    var labelled := LabelChanges(changes, infos);
    assert labelled.Keys == changes.Keys;
    SelfWithin(pods);
    SelfWithin(pods');
    ApartFlush(npm, order, changes, pods, pods', pods, pods');
    ByPodsByNamespaces(nmlm, npm, infos, pods);
    PodSnapshotWithin(pods, infos);
    PodSnapshotWithin(pods', infos);
    LabelChangesLead(changes, pods, pods', infos);
    ApartFlush(nmlm, labelOrder, labelled, PodSnapshot(pods, infos), PodSnapshot(pods', infos), pods, pods');
    ByPodsByNamespaces(Flush(nmlm, labelOrder, labelled), Flush(npm, order, changes), infos, pods');
  }

  lemma SelfWithin<O(!new), K(!new)>(snap: Snapshot<O, K>)
    ensures Within(snap, snap)
  {}

  /** Pending namespace changes as the namespace-label index sees them. */
  function NsChanges(changes: map<string, Change<Option<NsInfo>>>, npm: Index<string>): map<string,
      Change<Index<Label>>> {
    if changes == map[] then map[]
    else map ns | ns in changes :: Change(NsView(npm, changes[ns].previous), NsView(npm, changes[ns].current))
  }

  ghost predicate NsLeads(changes: map<string, Change<Option<NsInfo>>>, infos: Infos, infos': Infos) {
    forall ns ::
      if ns in changes then changes[ns] == Change(Lookup(infos, ns), Lookup(infos', ns))
          else Lookup(infos, ns) == Lookup(infos', ns)
  }

  /** An address is in one namespace. */
  ghost predicate OneNamespace(npm: Index<string>) {
    forall a, b, ip :: ip in Get(npm, a) && ip in Get(npm, b) ==> a == b
  }

  lemma PodsOneNamespace<O(!new)>(npm: Index<string>, pods: Snapshot<O, string>)
    requires Agrees(npm, pods) && AllSingle(pods) && Apart(pods, pods)
    ensures OneNamespace(npm)
  {
    forall a, b, ip | ip in Get(npm, a) && ip in Get(npm, b) ensures a == b {
      var o :| Has(pods, o, a, ip);
      var o' :| Has(pods, o', b, ip);
      assert Uses(pods, o, ip) && Uses(pods, o', ip);
      assert Single(View(pods, o));
    }
  }

  lemma NsChangesLead(changes: map<string, Change<Option<NsInfo>>>, npm: Index<string>, infos: Infos, infos': Infos)
    requires NsLeads(changes, infos, infos')
    ensures Leads(NsChanges(changes, npm), NsSnapshot(npm, infos), NsSnapshot(npm, infos'))
  {
    forall ns
      ensures View(NsSnapshot(npm, infos), ns) == NsView(npm, Lookup(infos, ns))
      ensures View(NsSnapshot(npm, infos'), ns) == NsView(npm, Lookup(infos', ns))
    {}
  }

  /** Flushing namespaces keeps the join, whether or not their pods are known yet. */
  lemma NamespaceFlushJoins(nmlm: Index<Label>, npm: Index<string>, infos: Infos, infos': Infos,
                            changes: map<string, Change<Option<NsInfo>>>, order: seq<string>)
    requires Joined(nmlm, npm, infos) && OneNamespace(npm) && WellNamed(infos) && WellNamed(infos')
    requires NsLeads(changes, infos, infos') && Enumerates(order, changes.Keys)
    ensures NsChanges(changes, npm).Keys == changes.Keys
    ensures Joined(Flush(nmlm, order, NsChanges(changes, npm)), npm, infos')
  {
    var spread := NsChanges(changes, npm);
    assert spread.Keys == changes.Keys;
    NsChangesLead(changes, npm, infos, infos');
    var before, after := NsSnapshot(npm, infos), NsSnapshot(npm, infos');
    NsSnapshotUnique(npm, infos);
    NsSnapshotUnique(npm, infos');
    forall a, b, pair, ip | a in spread && b in spread && a != b
      ensures !(ip in Get(spread[a].previous, pair) && ip in Get(spread[b].current, pair))
    {
      assert Has(before, a, pair, ip) == (ip in Get(spread[a].previous, pair));
      assert Has(after, b, pair, ip) == (ip in Get(spread[b].current, pair));
      NsSnapshotHas(npm, infos, a, pair, ip);
      NsSnapshotHas(npm, infos', b, pair, ip);
      assert !(ip in Get(npm, a) && ip in Get(npm, b));
    }
    FlushAgrees(nmlm, order, spread, before, after);
  }

  lemma NsSnapshotUnique(npm: Index<string>, infos: Infos)
    requires OneNamespace(npm) && WellNamed(infos)
    ensures Unique(NsSnapshot(npm, infos))
  {
    forall a, b, pair, ip | Has(NsSnapshot(npm, infos), a, pair, ip) && Has(NsSnapshot(npm, infos), b, pair, ip)
      ensures a == b
    {
      NsSnapshotHas(npm, infos, a, pair, ip);
      NsSnapshotHas(npm, infos, b, pair, ip);
    }
  }
}
