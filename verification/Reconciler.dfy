/**
 * Which ipsets hold what: the sets the controller tracks, what each should hold given the indexes,
 * and the set-by-set synchronisations it performs.
 */
module Reconciler {
  import opened Options
  import opened Names
  import opened Netfilter
  import opened Policies
  import opened Indexes
  import opened Pods

  /** A policy's own selector, with the namespace it applies in (NamespacedLabelMap). */
  datatype Scoped = Scoped(ns: string, selector: Selector)

  /** What a set is tracked for. */
  datatype Tag =
    | PodLabel(l: NsLabel)
    | XLabel(k: Key)
    | NamespacePods(ns: string)
    | NamespaceLabel(pair: Label)

  datatype State = State(
    pml: Index<NsLabel>,
    npm: Index<string>,
    nmlm: Index<Label>,
    selectors: map<Key, Scoped>,
    tracked: map<Tag, SetName>,
    active: set<SetName>,
    sets: Sets,
    table: Table)

  // ---------- what a set means and should hold ----------

  datatype Meaning = PodsMeant(ns: string,
      selector: Selector) | NamespaceMeant(ns: string) | NamespaceLabelMeant(pair: Label)

  ghost predicate PairIndexed(pml: Index<NsLabel>, ns: string, selector: Selector, pair: Label) {
    pair in Pairs(selector) && NsLabel(ns, pair) in pml
  }

  ghost predicate AnyIndexed(pml: Index<NsLabel>, ns: string, selector: Selector) {
    exists pair :: PairIndexed(pml, ns, selector, pair)
  }

  /** The addresses under every pair that is a key of the index; pairs that are not are skipped. */
  ghost predicate InAll(pml: Index<NsLabel>, ns: string, selector: Selector, ip: string) {
    forall pair :: PairIndexed(pml, ns, selector, pair) ==> ip in pml[NsLabel(ns, pair)]
  }

  ghost function Intersection(pml: Index<NsLabel>, ns: string, selector: Selector): set<string> {
    if pair :| PairIndexed(pml, ns, selector, pair) then
      set ip | ip in pml[NsLabel(ns, pair)] && InAll(pml, ns, selector, ip)
    else {}
  }

  lemma IntersectionIs(pml: Index<NsLabel>, ns: string, selector: Selector, ip: string)
    ensures ip in Intersection(pml, ns, selector) <==> AnyIndexed(pml, ns, selector) && InAll(pml, ns, selector, ip)
  {
    if pair :| PairIndexed(pml, ns, selector, pair) {
      assert AnyIndexed(pml, ns, selector);
    }
  }

  ghost predicate Indexed(s: State, m: Meaning) {
    match m
    case PodsMeant(ns, selector) => AnyIndexed(s.pml, ns, selector)
    case NamespaceMeant(ns) => ns in s.npm
    case NamespaceLabelMeant(pair) => pair in s.nmlm
  }

  ghost function Desired(s: State, m: Meaning): set<string> {
    match m
    case PodsMeant(ns, selector) => Intersection(s.pml, ns, selector)
    case NamespaceMeant(ns) => Get(s.npm, ns).Keys
    case NamespaceLabelMeant(pair) => Get(s.nmlm, pair).Keys
  }

  // ---------- synchronising one set ----------

  /** The named set gets exactly the wanted members; a set that does not exist is left alone. */
  function Synced(sets: Sets, name: SetName, wanted: set<string>): Sets {
    if name in sets then sets[name := sets[name].(members := wanted)] else sets
  }

  /** The members a set is synchronised to, when it is at all. */
  ghost function Wanted(s: State, tag: Tag): Option<set<string>> {
    match tag
    case PodLabel(l) => if l in s.pml then Some(s.pml[l].Keys) else None
    case NamespacePods(ns) => if ns in s.npm then Some(s.npm[ns].Keys) else None
    case NamespaceLabel(pair) => if pair in s.nmlm then Some(s.nmlm[pair].Keys) else None
    case XLabel(k) =>
      if k in s.selectors && s.selectors[k].selector != map[]
      then Some(Intersection(s.pml, s.selectors[k].ns, s.selectors[k].selector))
      else None
  }

  /** An incremental synchronisation: a set that is no longer active is forgotten instead. */
  ghost function TrySync(s: State, tag: Tag): State {
    if tag !in s.tracked then s
    else if s.tracked[tag] !in s.active then s.(tracked := s.tracked - {tag})
    else if Wanted(s, tag).Some? then s.(sets := Synced(s.sets, s.tracked[tag], Wanted(s, tag).value))
    else s
  }

  /** The set of a deleted namespace is destroyed, unless a rule still refers to it, and forgotten. */
  ghost function TryDrop(s: State, ns: string): State {
    var tag := NamespacePods(ns);
    if tag !in s.tracked then s
    else s.(tracked := s.tracked - {tag},
            sets := if SetReferenced(s.table, s.tracked[tag]) then s.sets else s.sets - {s.tracked[tag]})
  }

  datatype Visit = Sync(tag: Tag) | Drop(ns: string)

  ghost function Try(s: State, v: Visit): State {
    match v
    case Sync(tag) => TrySync(s, tag)
    case Drop(ns) => TryDrop(s, ns)
  }

  ghost function TryAll(s: State, visits: seq<Visit>): State {
    if visits == [] then s else Try(TryAll(s, visits[..|visits| - 1]), visits[|visits| - 1])
  }

  /** A full synchronisation does not ask whether a set is active, and skips a selector with no indexed pair. */
  ghost function FullWanted(s: State, tag: Tag): Option<set<string>> {
    if tag.XLabel? && tag.k in s.selectors && !AnyIndexed(s.pml, s.selectors[tag.k].ns, s.selectors[tag.k].selector)
        then None
    else Wanted(s, tag)
  }

  ghost function FullSync(s: State, tag: Tag): State {
    if tag in s.tracked && FullWanted(s, tag).Some?
    then s.(sets := Synced(s.sets, s.tracked[tag], FullWanted(s, tag).value))
    else s
  }

  ghost function FullAll(s: State, tags: seq<Tag>): State {
    if tags == [] then s else FullSync(FullAll(s, tags[..|tags| - 1]), tags[|tags| - 1])
  }

  // ---------- the invariant ----------

  /** What the set of a tracked key means. */
  ghost function Means(selectors: map<Key, Scoped>, tag: Tag): Meaning
    requires tag.XLabel? ==> tag.k in selectors
  {
    match tag
    case PodLabel(l) => PodsMeant(l.ns, map[l.pair.key := l.pair.value])
    case XLabel(k) => PodsMeant(selectors[k].ns, selectors[k].selector)
    case NamespacePods(ns) => NamespaceMeant(ns)
    case NamespaceLabel(pair) => NamespaceLabelMeant(pair)
  }

  /**
   * `mean` gives every generated pod set of a run its one meaning. That there is such an assignment
   * says that names in use do not clash; a one-pair selector and its label share name and meaning.
   */
  type Reading = SetName -> Meaning

  ghost predicate TagWell(selectors: map<Key, Scoped>, mean: Reading, tag: Tag, name: SetName) {
    && (tag.XLabel? ==> tag.k in selectors && selectors[tag.k].selector != map[])
    && HoldsPods(name)
    && mean(name) == Means(selectors, tag)
  }

  /** Every tracked key has its set, with the right meaning. */
  ghost predicate WellTracked(s: State, mean: Reading) {
    forall tag :: tag in s.tracked ==> TagWell(s.selectors, mean, tag, s.tracked[tag]) && s.tracked[tag] in s.sets
  }

  ghost predicate Stray(s: State, mean: Reading, n: SetName) {
    n in s.sets && HoldsPods(n) && s.sets[n].members != {} && !Indexed(s, mean(n))
  }

  /** A pod set that holds anything has a meaning the indexes know. */
  ghost predicate NothingStray(s: State, mean: Reading) {
    forall n :: !Stray(s, mean, n)
  }

  ghost predicate Good(s: State, mean: Reading, n: SetName) {
    n in s.sets && s.sets[n].members == Desired(s, mean(n))
  }

  /** Every tracked set, active or not, holds what it should. */
  ghost predicate AllGood(s: State, mean: Reading) {
    forall tag :: tag in s.tracked ==> Good(s, mean, s.tracked[tag])
  }

  ghost predicate Consistent(s: State, mean: Reading) {
    WellTracked(s, mean) && NothingStray(s, mean) && AllGood(s, mean)
  }

  // ---------- wanted and desired ----------

  lemma SinglePair(pml: Index<NsLabel>, l: NsLabel)
    ensures AnyIndexed(pml, l.ns, map[l.pair.key := l.pair.value]) <==> l in pml
    ensures Intersection(pml, l.ns, map[l.pair.key := l.pair.value]) == Get(pml, l).Keys
  {
    var selector: Selector := map[l.pair.key := l.pair.value];
    assert selector.Keys == {l.pair.key} && selector[l.pair.key] == l.pair.value;
    assert forall pair :: pair in Pairs(selector) <==> pair == Label(l.pair.key, l.pair.value) == l.pair;
    assert NsLabel(l.ns, l.pair) == l;
    assert l in pml ==> PairIndexed(pml, l.ns, selector, l.pair);
    forall ip ensures ip in Intersection(pml, l.ns, selector) <==> ip in Get(pml, l) {
      IntersectionIs(pml, l.ns, selector, ip);
    }
  }

  /** A set is synchronised to what it should hold, and left alone only when nothing is indexed for it. */
  lemma WantedIsDesired(s: State, mean: Reading, tag: Tag)
    requires tag in s.tracked && TagWell(s.selectors, mean, tag, s.tracked[tag])
    ensures Wanted(s, tag).Some? ==> Wanted(s, tag).value == Desired(s, mean(s.tracked[tag]))
    ensures FullWanted(s, tag).Some? ==> FullWanted(s, tag).value == Desired(s, mean(s.tracked[tag]))
    ensures Indexed(s, mean(s.tracked[tag])) ==> Wanted(s, tag).Some? && FullWanted(s, tag).Some?
    ensures !Indexed(s, mean(s.tracked[tag])) ==> Desired(s, mean(s.tracked[tag])) == {}
  {
    if tag.PodLabel? {
      SinglePair(s.pml, tag.l);
    }
  }

  /** A selector none of whose pairs is indexed: a full synchronisation skips it, an incremental one empties its set. */
  ghost predicate Unknown(s: State, tag: Tag) {
    && tag.XLabel? && tag.k in s.selectors && s.selectors[tag.k].selector != map[]
    && !AnyIndexed(s.pml, s.selectors[tag.k].ns, s.selectors[tag.k].selector)
  }

  /**
   * On an active tracked set the two synchronisations do the same, but for an unknown selector whose
   * set holds something.
   */
  lemma FullAndIncremental(s: State, tag: Tag)
    requires tag in s.tracked && s.tracked[tag] in s.active
    ensures FullSync(s, tag) == TrySync(s, tag)
       <==> !Unknown(s, tag) || s.tracked[tag] !in s.sets || s.sets[s.tracked[tag]].members == {}
  {
    var name := s.tracked[tag];
    if Unknown(s, tag) {
      assert Wanted(s, tag) == Some({}) && FullWanted(s, tag) == None;
      if name in s.sets {
        assert Synced(s.sets, name, {})[name].members == {};
        if s.sets[name].members == {} {
          assert Synced(s.sets, name, {}) == s.sets;
        }
      }
    }
  }

  /** So between any two synchronisations of a run they agree on every active tracked set. */
  lemma FullAndIncrementalAgree(s: State, mean: Reading, tag: Tag)
    requires WellTracked(s, mean) && NothingStray(s, mean) && tag in s.tracked && s.tracked[tag] in s.active
    ensures FullSync(s, tag) == TrySync(s, tag)
  {
    var name := s.tracked[tag];
    assert TagWell(s.selectors, mean, tag, name) && !Stray(s, mean, name);
    FullAndIncremental(s, tag);
  }

  /** Two states with the same indexes desire the same. */
  lemma SameDesires(s: State, s': State, m: Meaning)
    requires s'.pml == s.pml && s'.npm == s.npm && s'.nmlm == s.nmlm
    ensures Desired(s', m) == Desired(s, m) && (Indexed(s', m) <==> Indexed(s, m))
  {}

  // ---------- a round of visits ----------

  /** Every tracked set is as it should be, except for due ones, whose meaning the indexes know. */
  ghost predicate Pending(s: State, mean: Reading, due: set<Tag>) {
    && WellTracked(s, mean) && NothingStray(s, mean)
    && forall tag ::
         tag in s.tracked ==> Good(s, mean, s.tracked[tag]) || (tag in due && Indexed(s, mean(s.tracked[tag])))
  }

  /** Giving a set what it should hold spoils nothing. */
  lemma SetRight(s: State, mean: Reading, due: set<Tag>, name: SetName)
    requires Pending(s, mean, due) && name in s.sets
    requires Indexed(s, mean(name)) || Desired(s, mean(name)) == {}
    ensures var s' := s.(sets := Synced(s.sets, name, Desired(s, mean(name))));
            Pending(s', mean, due) && Good(s', mean, name)
  {
    var s' := s.(sets := Synced(s.sets, name, Desired(s, mean(name))));
    forall n
      ensures !Stray(s', mean, n)
      ensures n == name || Good(s, mean, n) ==> Good(s', mean, n)
    {
      assert !Stray(s, mean, n);
      SameDesires(s, s', mean(n));
    }
    forall tag | tag in s'.tracked
      ensures Good(s', mean, s'.tracked[tag]) || (tag in due && Indexed(s', mean(s'.tracked[tag])))
    {
      SameDesires(s, s', mean(s.tracked[tag]));
    }
    assert WellTracked(s', mean);
  }

  lemma Untrack(s: State, mean: Reading, due: set<Tag>, tag: Tag)
    requires Pending(s, mean, due)
    ensures Pending(s.(tracked := s.tracked - {tag}), mean, due - {tag})
  {
    var s' := s.(tracked := s.tracked - {tag});
    forall n ensures !Stray(s', mean, n) {
      assert !Stray(s, mean, n);
      SameDesires(s, s', mean(n));
    }
    forall other | other in s'.tracked
      ensures Good(s', mean, s'.tracked[other]) || (other in due - {tag} && Indexed(s', mean(s'.tracked[other])))
    {
      SameDesires(s, s', mean(s.tracked[other]));
    }
  }

  lemma NoLongerDue(s: State, mean: Reading, due: set<Tag>, tag: Tag)
    requires Pending(s, mean, due) && (tag in s.tracked ==> Good(s, mean, s.tracked[tag]))
    ensures Pending(s, mean, due - {tag})
  {}

  /** Visiting a tag settles it. */
  lemma SyncStep(s: State, mean: Reading, due: set<Tag>, tag: Tag)
    requires Pending(s, mean, due)
    ensures Pending(TrySync(s, tag), mean, due - {tag})
  {
    if tag !in s.tracked {
      NoLongerDue(s, mean, due, tag);
    } else if s.tracked[tag] !in s.active {
      Untrack(s, mean, due, tag);
    } else {
      WantedIsDesired(s, mean, tag);
      if Wanted(s, tag).Some? {
        SetRight(s, mean, due, s.tracked[tag]);
        NoLongerDue(TrySync(s, tag), mean, due, tag);
      } else {
        NoLongerDue(s, mean, due, tag);
      }
    }
  }

  lemma DropStep(s: State, mean: Reading, due: set<Tag>, ns: string)
    requires Pending(s, mean, due)
    ensures Pending(TryDrop(s, ns), mean, due)
  {
    var tag := NamespacePods(ns);
    if tag in s.tracked {
      var name := s.tracked[tag];
      Untrack(s, mean, due, tag);
      var s1, s' := s.(tracked := s.tracked - {tag}), TryDrop(s, ns);
      forall other | other in s'.tracked ensures s'.tracked[other] != name {
        assert TagWell(s.selectors, mean, tag, name) && TagWell(s.selectors, mean, other, s.tracked[other]);
      }
      forall n ensures !Stray(s', mean, n) {
        assert !Stray(s1, mean, n);
        SameDesires(s1, s', mean(n));
      }
      forall other | other in s'.tracked
        ensures Good(s', mean, s'.tracked[other]) || (other in due && Indexed(s', mean(s'.tracked[other])))
      {
        SameDesires(s1, s', mean(s'.tracked[other]));
      }
    }
  }

  ghost function Visited(visits: seq<Visit>): set<Tag> {
    set v | v in visits && v.Sync? :: v.tag
  }

  /** A round of visits settles every tag it visits, in any order and with any repetition. */
  lemma {:induction false} VisitsSettle(s: State, mean: Reading, due: set<Tag>, visits: seq<Visit>)
    requires Pending(s, mean, due)
    ensures Pending(TryAll(s, visits), mean, due - Visited(visits))
  {
    if visits == [] {
      assert due - Visited(visits) == due;
    } else {
      var n := |visits| - 1;
      var rest, last := visits[..n], visits[n];
      assert visits == rest + [last];
      VisitsSettle(s, mean, due, rest);
      var s1 := TryAll(s, rest);
      if last.Sync? {
        SyncStep(s1, mean, due - Visited(rest), last.tag);
        assert Visited(visits) == Visited(rest) + {last.tag};
        assert due - Visited(visits) == due - Visited(rest) - {last.tag};
      } else {
        DropStep(s1, mean, due - Visited(rest), last.ns);
        assert Visited(visits) == Visited(rest);
      }
    }
  }
}
