/**
 * Chain and ipset names. A generated name is a fixed prefix and a hash; the prefix is a
 * constructor here and the hash, a truncated sha256, is a parameter `h` about which nothing is known.
 */
module Names {
  import opened Orders
  import opened StringOrder

  type Hash = string -> string

  datatype Direction = Ingress | Egress {
    /** strconv.Itoa(TYPE_INGRESS) and strconv.Itoa(TYPE_EGRESS). */
    function Code(): string { if Ingress? then "1" else "2" }
  }

  // ---------- chains ----------

  datatype Chain =
    | EnnInput
    | EnnOutput
    | EnnForward
    | NsIn(hash: string)
    | NsOut(hash: string)
    | PlyIn(hash: string)
    | PlyOut(hash: string)
    | Dispatch(hash: string)
    | IpCidr(hash: string)
    | Foreign(name: string)

  function Render(c: Chain): string {
    match c
    case EnnInput => "ENN-INPUT"
    case EnnOutput => "ENN-OUTPUT"
    case EnnForward => "ENN-FORWARD"
    case NsIn(hash) => "ENN-INGRESS-" + hash
    case NsOut(hash) => "ENN-EGRESS-" + hash
    case PlyIn(hash) => "ENN-PLY-IN-" + hash
    case PlyOut(hash) => "ENN-PLY-E-" + hash
    case Dispatch(hash) => "ENN-DPATCH-" + hash
    case IpCidr(hash) => "ENN-IPCIDR-" + hash
    case Foreign(name) => name
  }

  function Classify(name: string): Chain {
    if name == "ENN-INPUT" then EnnInput
    else if name == "ENN-OUTPUT" then EnnOutput
    else if name == "ENN-FORWARD" then EnnForward
    else if "ENN-INGRESS-" <= name then NsIn(name[12..])
    else if "ENN-EGRESS-" <= name then NsOut(name[11..])
    else if "ENN-PLY-IN-" <= name then PlyIn(name[11..])
    else if "ENN-PLY-E-" <= name then PlyOut(name[10..])
    else if "ENN-DPATCH-" <= name then Dispatch(name[11..])
    else if "ENN-IPCIDR-" <= name then IpCidr(name[11..])
    else Foreign(name)
  }

  /** Every chain name in the table stands for one chain, and that chain prints as that name. */
  lemma RenderClassify(name: string)
    ensures Render(Classify(name)) == name
  {}

  /** The chains the controller makes per policy: the six prefixes that are garbage collected. */
  predicate Dynamic(c: Chain) {
    c.NsIn? || c.NsOut? || c.PlyIn? || c.PlyOut? || c.Dispatch? || c.IpCidr?
  }

  predicate Entry(c: Chain) { c.EnnInput? || c.EnnOutput? || c.EnnForward? }

  predicate Ply(c: Chain) { c.PlyIn? || c.PlyOut? }

  /** The prefix tests of the controller, on the printed name, pick out exactly these kinds. */
  lemma PrefixTests(name: string)
    ensures Dynamic(Classify(name)) <==>
      ("ENN-INGRESS-" <= name || "ENN-EGRESS-" <= name || "ENN-PLY-IN-" <= name
       || "ENN-PLY-E-" <= name || "ENN-DPATCH-" <= name || "ENN-IPCIDR-" <= name)
    ensures Dynamic(Classify(name)) || Entry(Classify(name)) ==> "ENN-" <= name
    ensures Ply(Classify(name)) ==> "ENN-PLY-" <= name
  {
    assert "ENN-INPUT"[5] == 'N' && "ENN-IPCIDR-"[5] == 'P' && "ENN-INGRESS-"[6] == 'G' && "ENN-INPUT"[6] == 'P';
    assert "ENN-OUTPUT"[4] == 'O' && "ENN-FORWARD"[4] == 'F';
  }

  /** A generated name, as printed, is classified as the chain it was printed for. */
  lemma ClassifyRender(c: Chain)
    requires !c.Foreign?
    ensures Classify(Render(c)) == c
  {
    var name := Render(c);
    match c
    case EnnInput =>
    case EnnOutput =>
    case EnnForward =>
    case NsIn(hash) =>
      assert name[4] == 'I' && name[5] == 'N' && name[6] == 'G' && |name| >= 12;
      assert name[12..] == hash;
    case NsOut(hash) =>
      assert name[4] == 'E' && |name| >= 11;
      assert name[11..] == hash;
    case PlyIn(hash) =>
      assert name[4] == 'P' && name[8] == 'I' && |name| >= 11;
      assert name[11..] == hash;
    case PlyOut(hash) =>
      assert name[4] == 'P' && name[8] == 'E' && |name| >= 10;
      assert name[10..] == hash;
    case Dispatch(hash) =>
      assert name[4] == 'D' && |name| >= 11;
      assert name[11..] == hash;
    case IpCidr(hash) =>
      assert name[4] == 'I' && name[5] == 'P' && |name| >= 11;
      assert name[11..] == hash;
  }

  // ---------- ipsets ----------

  datatype SetName =
    | NsSet(hash: string)
    | RangeSet(hash: string)
    | PodSet(hash: string)
    | FlannelSet(hash: string)
    | NsLabelSet(hash: string)
    | ExceptSet(hash: string)
    | ForeignSet(name: string)

  function RenderSet(s: SetName): string {
    match s
    case NsSet(hash) => "ENN-NS-" + hash
    case RangeSet(hash) => "ENN-RANGEIP-" + hash
    case PodSet(hash) => "ENN-PODSET-" + hash
    case FlannelSet(hash) => "ENN-FLANNEL-" + hash
    case NsLabelSet(hash) => "ENN-NSSET-" + hash
    case ExceptSet(hash) => "ENN-IPTSET-" + hash
    case ForeignSet(name) => name
  }

  /** The test of the garbage collector, on the printed name. */
  predicate IsEnnSet(s: SetName) { "ENN" <= RenderSet(s) }

  /** It is passed by exactly the names that begin with the three letters, all generated ones among them. */
  lemma EnnSetNames(s: SetName)
    ensures var name := RenderSet(s);
            IsEnnSet(s) <==> |name| >= 3 && name[0] == 'E' && name[1] == 'N' && name[2] == 'N'
    ensures !s.ForeignSet? ==> "ENN" <= RenderSet(s)
  {
    var name := RenderSet(s);
    if IsEnnSet(s) {
      assert name[..3] == "ENN";
    }
  }

  /** Every generated set has its printed name for itself. */
  lemma RenderSetApart(a: SetName, b: SetName)
    requires !a.ForeignSet? && !b.ForeignSet? && RenderSet(a) == RenderSet(b)
    ensures a == b
  {
    var x, y := RenderSet(a), RenderSet(b);
    assert x[4] == y[4] && x[5] == y[5] && x[6] == y[6];
    assert a.NsSet? ==> x[7..] == a.hash;
    assert b.NsSet? ==> y[7..] == b.hash;
    assert a.RangeSet? ==> x[12..] == a.hash;
    assert b.RangeSet? ==> y[12..] == b.hash;
    assert a.PodSet? ==> x[11..] == a.hash;
    assert b.PodSet? ==> y[11..] == b.hash;
    assert a.FlannelSet? ==> x[12..] == a.hash;
    assert b.FlannelSet? ==> y[12..] == b.hash;
    assert a.NsLabelSet? ==> x[10..] == a.hash;
    assert b.NsLabelSet? ==> y[10..] == b.hash;
    assert a.ExceptSet? ==> x[11..] == a.hash;
    assert b.ExceptSet? ==> y[11..] == b.hash;
  }

  /** Sets that hold the addresses of pods. */
  predicate HoldsPods(s: SetName) { s.NsSet? || s.PodSet? || s.NsLabelSet? }

  // ---------- what is hashed ----------

  function Concat(words: seq<string>): string {
    if words == [] then "" else words[0] + Concat(words[1..])
  }

  /** The hash of one label's pod set. */
  function LabelHash(h: Hash, ns: string, key: string, value: string): string {
    h(ns + "pod" + key + value)
  }

  /** The hash of a whole selector's pod set; `labels` are its keys and values, in any order. */
  function XLabelHash(h: Hash, ns: string, labels: seq<string>): string {
    h(ns + "pod" + Concat(Sort(labels)))
  }

  // ---------- the name of a selector's set does not depend on iteration order ----------

  function Flatten(order: seq<string>, m: map<string, string>): seq<string>
    requires forall k :: k in order ==> k in m
  {
    if order == [] then [] else
      var last := order[|order| - 1];
      Flatten(order[..|order| - 1], m) + [last, m[last]]
  }

  lemma {:induction false} FlattenRemove(a: seq<string>, k: string, b: seq<string>, m: map<string, string>)
    requires forall x :: x in a + [k] + b ==> x in m
    ensures forall x :: x in a + b ==> x in m
    ensures multiset(Flatten(a + [k] + b, m)) == multiset(Flatten(a + b, m)) + multiset{k, m[k]}
  {
    assert k in a + [k] + b;
    assert forall x :: x in a + b ==> x in a + [k] + b;
    if b == [] {
      assert a + [k] + b == a + [k] && a + b == a;
      FlattenLast(a, k, m);
    } else {
      var n := |b| - 1;
      var x, y := a + [k] + b[..n], a + b[..n];
      assert a + [k] + b == x + [b[n]];
      assert a + b == y + [b[n]];
      FlattenRemove(a, k, b[..n], m);
      FlattenBoth(x, y, b[n], m, multiset{k, m[k]});
    }
  }

  lemma FlattenBoth(x: seq<string>, y: seq<string>, k: string, m: map<string, string>, more: multiset<string>)
    requires (forall w :: w in x + [k] ==> w in m) && (forall w :: w in y + [k] ==> w in m)
    requires (forall w :: w in x ==> w in m) && (forall w :: w in y ==> w in m)
    requires multiset(Flatten(x, m)) == multiset(Flatten(y, m)) + more
    ensures multiset(Flatten(x + [k], m)) == multiset(Flatten(y + [k], m)) + more
  {
    FlattenLast(x, k, m);
    FlattenLast(y, k, m);
  }

  lemma FlattenLast(a: seq<string>, k: string, m: map<string, string>)
    requires forall x :: x in a + [k] ==> x in m
    ensures k in m && (forall x :: x in a ==> x in m)
    ensures Flatten(a + [k], m) == Flatten(a, m) + [k, m[k]]
  {
    assert k in a + [k];
    assert forall x :: x in a ==> x in a + [k];
    assert (a + [k])[..|a|] == a;
  }

  lemma {:induction false} FlattenSameWords(o: seq<string>, o': seq<string>, keys: set<string>, m: map<string, string>)
    requires Enumerates(o, keys) && Enumerates(o', keys) && keys <= m.Keys
    ensures multiset(Flatten(o, m)) == multiset(Flatten(o', m))
    decreases |o|
  {
    if o == [] {
      EnumeratesCount(o, keys);
      EnumeratesCount(o', keys);
    } else {
      var n := |o| - 1;
      var k := o[n];
      EnumeratesLess(o, keys);
      assert k in o';
      var i :| 0 <= i < |o'| && o'[i] == k;
      var a, b := o'[..i], o'[i + 1..];
      assert o' == a + [k] + b;
      FlattenRemove(a, k, b, m);
      EnumeratesWithout(a, k, b, keys);
      FlattenSameWords(o[..n], a + b, keys - {k}, m);
    }
  }

  lemma EnumeratesWithout(a: seq<string>, k: string, b: seq<string>, keys: set<string>)
    requires Enumerates(a + [k] + b, keys)
    ensures Enumerates(a + b, keys - {k})
  {
    var s, r := a + [k] + b, a + b;
    forall i | 0 <= i < |r| ensures r[i] == s[if i < |a| then i else i + 1] {}
    forall x ensures x in r <==> x in keys - {k} {
      assert x in s <==> x in a || x == k || x in b;
      assert x in r <==> x in a || x in b;
      if x in r {
        var i :| 0 <= i < |r| && r[i] == x;
        assert s[|a|] == k && s[if i < |a| then i else i + 1] == x;
      }
    }
  }

  ghost function SelectorWords(m: map<string, string>): seq<string> {
    Flatten(AnyOrder(m.Keys), m)
  }

  /** The set of a selector, as a function of the selector alone. */
  ghost function SelectorHash(h: Hash, ns: string, m: map<string, string>): string {
    XLabelHash(h, ns, SelectorWords(m))
  }

  lemma OnePairWords(k: string, v: string)
    ensures SelectorWords(map[k := v]) == [k, v]
  {
    assert map[k := v].Keys == {k};
    var o := AnyOrder({k});
    EnumeratesCount(o, {k});
    assert o[0] in o;
    assert o == [k];
    assert Flatten([], map[k := v]) == [];
    assert o[..0] == [];
  }

  lemma SortPair(k: string, v: string)
    ensures Sort([k, v]) == if Le(k, v) then [k, v] else [v, k]
  {
    assert [k, v][1..] == [v] && [v][1..] == [];
    assert Sort([v]) == Insert(v, []) == [v];
    assert Insert(k, [v]) == if Le(k, v) then [k, v] else [v] + Insert(k, []);
  }

  lemma SameHead(head: string, x: string, y: string)
    ensures head + x == head + y ==> x == y
  {
    assert (head + x)[|head|..] == x && (head + y)[|head|..] == y;
  }

  lemma LabelHashIs(h: Hash, ns: string, k: string, v: string)
    ensures LabelHash(h, ns, k, v) == h(ns + "pod" + (k + v))
    ensures k + v == v + k ==> LabelHash(h, ns, k, v) == LabelHash(h, ns, v, k)
  {
    assert ns + "pod" + k + v == ns + "pod" + (k + v);
    assert ns + "pod" + v + k == ns + "pod" + (v + k);
  }

  lemma OnePairHash(h: Hash, ns: string, k: string, v: string)
    ensures SelectorHash(h, ns, map[k := v]) == if Le(k, v) then LabelHash(h, ns, k, v) else LabelHash(h, ns, v, k)
  {
    OnePairWords(k, v);
    SortPair(k, v);
    ConcatPair(k, v);
    ConcatPair(v, k);
    LabelHashIs(h, ns, k, v);
    LabelHashIs(h, ns, v, k);
  }

  lemma ConcatPair(x: string, y: string)
    ensures Concat([x, y]) == x + y
  {
    assert [x, y][1..] == [y];
    assert Concat([y]) == y + Concat([]);
    assert y + "" == y;
  }

  /** In order, or with concatenations that coincide, the pair's own label set. */
  lemma OnePairOwn(ns: string, k: string, v: string)
    requires Le(k, v) || k + v == v + k
    ensures forall h: Hash :: SelectorHash(h, ns, map[k := v]) == LabelHash(h, ns, k, v)
  {
    forall h: Hash ensures SelectorHash(h, ns, map[k := v]) == LabelHash(h, ns, k, v) {
      OnePairHash(h, ns, k, v);
      LabelHashIs(h, ns, k, v);
    }
  }

  lemma OnePairSwapped(ns: string, k: string, v: string)
    requires !Le(k, v)
    ensures forall h: Hash :: SelectorHash(h, ns, map[k := v]) == LabelHash(h, ns, v, k)
  {
    forall h: Hash ensures SelectorHash(h, ns, map[k := v]) == LabelHash(h, ns, v, k) {
      OnePairHash(h, ns, k, v);
    }
  }

  lemma OnePairOther(ns: string, k: string, v: string) returns (h: Hash)
    requires !Le(k, v) && k + v != v + k
    ensures SelectorHash(h, ns, map[k := v]) != LabelHash(h, ns, k, v)
  {
    h := (s: string) => s;
    OnePairHash(h, ns, k, v);
    SameHead(ns + "pod", v + k, k + v);
    LabelHashIs(h, ns, k, v);
    LabelHashIs(h, ns, v, k);
  }

  /**
   * The set of a one-pair selector is that pair's own label set for every hash exactly when the
   * pair is in order (or its two concatenations coincide). Otherwise it is the label set of the
   * swapped pair, so the selector {b: a} and the label a=b fight over one kernel set.
   */
  lemma OnePairSelector(ns: string, k: string, v: string)
    ensures (forall h: Hash :: SelectorHash(h, ns, map[k := v]) == LabelHash(h, ns, k, v))
            <==> Le(k, v) || k + v == v + k
    ensures !Le(k, v) ==> forall h: Hash :: SelectorHash(h, ns, map[k := v]) == LabelHash(h, ns, v, k)
  {
    if Le(k, v) || k + v == v + k {
      OnePairOwn(ns, k, v);
    } else {
      var _ := OnePairOther(ns, k, v);
    }
    if !Le(k, v) {
      OnePairSwapped(ns, k, v);
    }
  }

  /** Only equal texts have equal hashes whatever the hash. */
  lemma TextsApart(head: string, x: string, y: string) returns (h: Hash)
    requires x != y
    ensures h(head + x) != h(head + y)
  {
    h := (s: string) => s;
    SameHead(head, x, y);
  }

  /**
   * Selectors with words `a` and `b` share one set, whatever the hash, exactly when their sorted words
   * run together to the same text.
   */
  lemma SelectorsShareSet(ns: string, a: seq<string>, b: seq<string>)
    ensures (forall h: Hash :: XLabelHash(h, ns, a) == XLabelHash(h, ns, b)) <==> Concat(Sort(a)) == Concat(Sort(b))
  {
    var x, y := Concat(Sort(a)), Concat(Sort(b));
    if x != y {
      var h := TextsApart(ns + "pod", x, y);
      assert XLabelHash(h, ns, a) != XLabelHash(h, ns, b);
    }
  }
}
