/**
 * The addresses of flannel and docker bridges: every subnet of length `mask + len`
 * inside the flannel network contributes its .0 and its .1 address.
 */
module Flannel {
  import opened Octets

  // ---------- splitting ----------

  /** strings.Split for a one-character separator. */
  function Split(s: string, sep: char): (parts: seq<string>)
    ensures |parts| > 0
  {
    if s == [] then [[]]
    else
      var rest := Split(s[1..], sep);
      if s[0] == sep then [[]] + rest else [[s[0]] + rest[0]] + rest[1..]
  }

  lemma {:induction false} SplitFirst(a: string, sep: char, b: string)
    requires sep !in a
    ensures Split(a + [sep] + b, sep) == [a] + Split(b, sep)
  {
    var s := a + [sep] + b;
    if a == [] {
      assert s[1..] == b;
    } else {
      assert s[0] == a[0] && a[0] in a && s[1..] == a[1..] + [sep] + b;
      SplitFirst(a[1..], sep, b);
      assert [a[0]] + a[1..] == a;
    }
  }

  lemma {:induction false} SplitNone(a: string, sep: char)
    requires sep !in a
    ensures Split(a, sep) == [a]
  {
    if a != [] {
      assert a[0] in a;
      SplitNone(a[1..], sep);
      assert [a[0]] + a[1..] == a;
    }
  }

  lemma OctetReads(n: int)
    requires 0 <= n <= 255
    ensures '.' !in Itoa(n) && Atoi(Itoa(n)) == Ok(n)
  {
    ItoaDigits(n);
    AtoiItoa(n);
  }

  lemma SplitDotted(a: string, b: string, c: string, d: string)
    requires '.' !in a && '.' !in b && '.' !in c && '.' !in d
    ensures Split(a + "." + (b + "." + (c + "." + d)), '.') == [a, b, c, d]
  {
    SplitFirst(a, '.', b + "." + (c + "." + d));
    SplitFirst(b, '.', c + "." + d);
    SplitFirst(c, '.', d);
    SplitNone(d, '.');
  }

  /** What is written as an address reads back as its octets. */
  lemma DottedReads(o: seq<int>)
    requires IsOctets(o)
    ensures var parts := Split(Dotted(o), '.');
            |parts| == 4 && forall i :: 0 <= i < 4 ==> Atoi(parts[3 - i]) == Ok(o[i])
  {
    OctetReads(o[0]);
    OctetReads(o[1]);
    OctetReads(o[2]);
    OctetReads(o[3]);
    SplitDotted(Itoa(o[3]), Itoa(o[2]), Itoa(o[1]), Itoa(o[0]));
  }

  datatype Net = Net(base: seq<int>, mask: int)

  /** The flannel network read from "a.b.c.d/mask", refused where the controller refuses it. */
  ghost function ParseNet(flannelNet: string, flannelLen: int): (r: Result<Net>)
    ensures r.Ok? ==> IsOctets(r.value.base) && 8 <= 32 - (r.value.mask + flannelLen) <= 32 && 0 <= flannelLen <= 32
  {
    var parts := Split(flannelNet, '/');
    if flannelLen > 32 || flannelLen < 0 || |parts| != 2 then Err
    else
      var ips := Split(parts[0], '.');
      var mask := Atoi(parts[1]);
      if |ips| != 4 || mask.Err? || !(forall i :: 0 <= i < 4 ==> OctetText(ips[i])) then Err
      else if mask.value + flannelLen > 24 || mask.value + flannelLen < 0 then Err
      else
        assert OctetText(ips[0]) && OctetText(ips[1]) && OctetText(ips[2]) && OctetText(ips[3]);
        Ok(Net([Atoi(ips[3]).value, Atoi(ips[2]).value, Atoi(ips[1]).value, Atoi(ips[0]).value], mask.value))
  }

  predicate OctetText(s: string) {
    Atoi(s).Ok? && 0 <= Atoi(s).value <= 255
  }

  ghost function TwoTo(n: nat): (r: nat)
    ensures r >= 1
  {
    PowPositive(2, n);
    Pow(2, n)
  }

  // ---------- the enumeration ----------

  /** Address number `j` (0 flannel, 1 docker) of subnet number `i`. */
  ghost function Element(base: int, stride: int, i: int, j: int): int {
    base + i * stride + j
  }

  ghost function Pick<T(!new)>(s: set<T>): (x: T)
    requires s != {}
    ensures x in s
  {
    var x :| x in s;
    x
  }

  ghost function Below(vs: set<int>): set<int> {
    set v | v in vs && v < LIMIT
  }

  /** The first `n` subnets' addresses that are below 2^32. */
  ghost function Values(base: nat, stride: nat, n: nat): (vs: set<int>)
    ensures forall v :: v in vs ==> 0 <= v < LIMIT
  {
    if n == 0 then {} else
      assert Element(base, stride, n - 1, 0) >= 0;
      Values(base, stride, n - 1) + Below({Element(base, stride, n - 1, 0), Element(base, stride, n - 1, 1)})
  }

  ghost function Text(vs: set<int>, spell: int -> string): set<string> {
    set v | v in vs :: spell(v)
  }

  /** The dotted spelling of an address. */
  ghost function Spell(v: int): string {
    if 0 <= v < LIMIT then Dotted(FromValue(v)) else ""
  }

  lemma ValuesDone(base: nat, stride: nat, n: nat, m: nat)
    requires n <= m && Element(base, stride, n, 0) >= LIMIT
    ensures Values(base, stride, m) == Values(base, stride, n)
  {
    if n < m {
      ValuesDone(base, stride, n, m - 1);
      assert n * stride <= (m - 1) * stride by { MulMonotone(n, m - 1, stride); }
    }
  }

  lemma StrideIs(sub: nat)
    ensures Pow(2, sub % 8) * Weight(sub / 8) == Pow(2, sub)
    ensures 1 <= Pow(2, sub % 8) < 256
  {
    Pow256(sub / 8);
    PowAdd(2, sub % 8, 8 * (sub / 8));
    PowPositive(2, sub % 8);
    PowMonotone(sub % 8, 7);
    assert Pow(2, 7) == 128 by {
      assert Pow(2, 3) == 8;
      PowAdd(2, 3, 3);
      PowAdd(2, 6, 1);
    }
  }

  /** The addresses of a well-formed network and length. */
  ghost function Addresses(flannelNet: string, flannelLen: int): Result<set<string>> {
    var net := ParseNet(flannelNet, flannelLen);
    if net.Err? then Err
    else Ok(Text(Values(Value(net.value.base), TwoTo(32 - (net.value.mask + flannelLen)), TwoTo(flannelLen)), Spell))
  }

  method FlannelAddresses(flannelNet: string, flannelLen: int) returns (r: Result<set<string>>)
    ensures r == Addresses(flannelNet, flannelLen)
  {
    if flannelLen > 32 || flannelLen < 0 {
      return Err;
    }
    var str := Split(flannelNet, '/');
    if |str| != 2 {
      return Err;
    }
    var ips := Split(str[0], '.');
    if |ips| != 4 {
      return Err;
    }
    var parsed := IpStringToInt(ips);
    if parsed.Err? {
      return Err;
    }
    assert forall i :: 0 <= i < 4 ==> OctetText(ips[i]) && Ok(parsed.value[3 - i]) == Atoi(ips[i]);
    var flannelMask := Atoi(str[1]);
    if flannelMask.Err? {
      return Err;
    }
    var dockerMask := flannelMask.value + flannelLen;
    if dockerMask > 32 || dockerMask < 0 {
      return Err;
    }
    var dockerSubLen := 32 - dockerMask;
    var item := 0;
    while item * 8 <= dockerSubLen
      invariant 0 <= item && (item - 1) * 8 <= dockerSubLen
      decreases dockerSubLen - item * 8
    {
      item := item + 1;
    }
    item := item - 1;
    if item == 0 {
      return Err;
    }
    ghost var net := ParseNet(flannelNet, flannelLen).value;
    assert parsed.value == net.base;
    var addresses := Enumerate(parsed.value, dockerSubLen, item, flannelLen);
    return Ok(addresses);
  }

  /** One turn's additions: the flannel address and, unless it overflows, the docker address. */
  method AddSubnet(seen: set<string>, current: seq<int>) returns (addresses: set<string>)
    requires IsOctets(current)
    ensures addresses == seen + Text(Below({Value(current), Value(current) + 1}), Spell)
  {
    addresses := seen + {Dotted(current)};
    var docker := IpOperateAdd(current, 0, 1);
    DockerText(seen, current, docker);
    if docker.Ok? {
      addresses := addresses + {Dotted(docker.value)};
    }
  }

  lemma DockerText(seen: set<string>, current: seq<int>, docker: Result<seq<int>>)
    requires IsOctets(current) && docker == Ripple(current, 0, 1)
    ensures docker.Ok? ==> IsOctets(docker.value)
    ensures seen + Text(Below({Value(current), Value(current) + 1}), Spell)
         == if docker.Ok? then seen + {Dotted(current)} + {Dotted(docker.value)} else seen + {Dotted(current)}
  {
    DockerAdds(current, docker);
    SubnetSpelled(seen, current, docker);
  }

  lemma SubnetSpelled(seen: set<string>, current: seq<int>, docker: Result<seq<int>>)
    requires IsOctets(current) && (docker.Ok? <==> Value(current) + 1 < LIMIT)
    requires docker.Ok? ==> IsOctets(docker.value) && Value(docker.value) == Value(current) + 1
    ensures seen + Text(Below({Value(current), Value(current) + 1}), Spell)
         == if docker.Ok? then seen + {Dotted(current)} + {Dotted(docker.value)} else seen + {Dotted(current)}
  {
    ValueBound(current);
    SpellOctets(current);
    if docker.Ok? {
      SpellOctets(docker.value);
    }
    SubnetText(seen, Value(current), Spell);
  }

  lemma DockerAdds(current: seq<int>, docker: Result<seq<int>>)
    requires IsOctets(current) && docker == Ripple(current, 0, 1)
    ensures 0 <= Value(current) < LIMIT && (docker.Ok? <==> Value(current) + 1 < LIMIT)
    ensures docker.Ok? ==> IsOctets(docker.value) && Value(docker.value) == Value(current) + 1
  {
    WeightBelow(0);
    RippleAdds(current, 0, 1);
  }

  lemma SubnetText(seen: set<string>, v: int, spell: int -> string)
    requires v < LIMIT
    ensures seen + Text(Below({v, v + 1}), spell) == if v + 1 < LIMIT then seen + {spell(v)} + {spell(v + 1)}
                else seen + {spell(v)}
  {
    assert Below({v, v + 1}) == if v + 1 < LIMIT then {v, v + 1} else {v};
  }

  /** The generation loop: stop at the first subnet that does not fit below 2^32. */
  method Enumerate(start: seq<int>, dockerSubLen: nat, item: nat, flannelLen: nat) returns (addresses: set<string>)
    requires IsOctets(start) && item == dockerSubLen / 8
    ensures addresses == Text(Values(Value(start), TwoTo(dockerSubLen), TwoTo(flannelLen)), Spell)
  {
    var dockerBit := dockerSubLen - item * 8;
    var step := PowerInt(2, dockerBit);
    var stepLimit := PowerInt(2, flannelLen);
    ghost var base, stride := Value(start), TwoTo(dockerSubLen);
    StrideOf(dockerSubLen, item, step);
    assert stepLimit == TwoTo(flannelLen);
    EnumerateStart(start, stride);
    var current := start;
    addresses := {};
    var i := 0;
    while i < stepLimit
      invariant 0 <= i <= stepLimit && Enumerated(base, stride, i, current, addresses)
    {
      ghost var seen := addresses;
      addresses := AddSubnet(addresses, current);
      var next := IpOperateAdd(current, item, step);
      EnumerateTurn(base, stride, i, stepLimit, current, item, step, next, seen, addresses);
      if next.Err? {
        return;
      }
      current := next.value;
      i := i + 1;
    }
  }

  lemma StrideOf(sub: nat, item: nat, step: int)
    requires item == sub / 8 && step == Pow(2, sub - item * 8)
    ensures 1 <= step < 256 && step * Weight(item) == TwoTo(sub)
  {
    StrideIs(sub);
  }

  /** Where the loop stands after `i` turns. */
  ghost predicate Enumerated(base: nat, stride: nat, i: nat, current: seq<int>, addresses: set<string>) {
    IsOctets(current) && Value(current) == Element(base, stride, i, 0)
    && addresses == Text(Values(base, stride, i), Spell)
  }

  lemma EnumerateStart(start: seq<int>, stride: nat)
    requires IsOctets(start)
    ensures Value(start) >= 0 && Enumerated(Value(start), stride, 0, start, {})
  {
    assert Values(Value(start), stride, 0) == {};
  }

  lemma EnumerateTurn(base: nat, stride: nat, i: nat, limit: nat, current: seq<int>, item: nat, step: int,
                      next: Result<seq<int>>, seen: set<string>, addresses: set<string>)
    requires Enumerated(base, stride, i, current, seen) && i < limit
    requires 1 <= step < 256 && step * Weight(item) == stride && next == Ripple(current, item, step)
    requires addresses == seen + Text(Below({Value(current), Value(current) + 1}), Spell)
    ensures next.Ok? ==> Enumerated(base, stride, i + 1, next.value, addresses)
    ensures next.Err? ==> addresses == Text(Values(base, stride, limit), Spell)
  {
    EnumerateStep(base, stride, i, current, item, step, next, Spell);
    if next.Err? {
      ValuesDone(base, stride, i + 1, limit);
    }
  }

  lemma EnumerateStep(base: nat, stride: nat, i: nat, current: seq<int>, item: nat, step: nat, next: Result<seq<int>>,
                      spell: int -> string)
    requires IsOctets(current) && Value(current) == Element(base, stride, i, 0)
    requires 1 <= step < 256 && step * Weight(item) == stride && next == Ripple(current, item, step)
    ensures Text(Values(base, stride, i + 1), spell)
         == Text(Values(base, stride, i), spell) + Text(Below({Value(current), Value(current) + 1}), spell)
    ensures next.Ok? ==> IsOctets(next.value) && Value(next.value) == Element(base, stride, i + 1, 0)
    ensures next.Err? ==> Element(base, stride, i + 1, 0) >= LIMIT
  {
    RippleAdds(current, item, step);
    NextElement(base, stride, i);
    ValuesStep(base, stride, i);
  }

  lemma NextElement(base: int, stride: int, i: int)
    ensures Element(base, stride, i + 1, 0) == Element(base, stride, i, 0) + stride
  {
    assert (i + 1) * stride == i * stride + stride;
  }

  lemma SpellOctets(o: seq<int>)
    requires IsOctets(o)
    ensures Spell(Value(o)) == Dotted(o)
  {
    ValueInjective(o, FromValue(Value(o)));
  }

  lemma ValuesStep(base: nat, stride: nat, i: nat)
    ensures Values(base, stride, i + 1) == Values(base, stride, i)
                + Below({Element(base, stride, i, 0), Element(base, stride, i, 0) + 1})
  {
    assert Element(base, stride, i, 1) == Element(base, stride, i, 0) + 1;
  }

  // ---------- what is enumerated ----------

  lemma {:induction false} ValuesAre(base: nat, stride: nat, n: nat, v: int)
    ensures v in Values(base, stride, n)
       <==> v < LIMIT && exists i, j :: 0 <= i < n && 0 <= j <= 1 && v == Element(base, stride, i, j)
  {
    if n > 0 {
      ValuesAre(base, stride, n - 1, v);
      if v < LIMIT && exists i, j :: 0 <= i < n && 0 <= j <= 1 && v == Element(base, stride, i, j) {
        var i, j :| 0 <= i < n && 0 <= j <= 1 && v == Element(base, stride, i, j);
        if i == n - 1 {
          assert v in {Element(base, stride, n - 1, 0), Element(base, stride, n - 1, 1)};
        } else {
          assert v in Values(base, stride, n - 1);
        }
      }
    }
  }

  lemma {:induction false} ValuesCount(base: nat, stride: nat, n: nat)
    requires stride >= 2 && base + n * stride <= LIMIT
    ensures |Values(base, stride, n)| == 2 * n
    ensures forall v :: v in Values(base, stride, n) ==> v < base + n * stride
  {
    if n > 0 {
      assert (n - 1) * stride + stride == n * stride;
      ValuesCount(base, stride, n - 1);
      var e := Element(base, stride, n - 1, 0);
      assert Element(base, stride, n - 1, 1) == e + 1;
      assert Values(base, stride, n) == Values(base, stride, n - 1) + {e, e + 1};
    }
  }

  ghost predicate Injective(vs: set<int>, spell: int -> string) {
    forall v, w :: v in vs && w in vs && spell(v) == spell(w) ==> v == w
  }

  lemma {:induction false} TextCount(vs: set<int>, spell: int -> string)
    requires Injective(vs, spell)
    ensures |Text(vs, spell)| == |vs|
    decreases vs
  {
    if vs == {} {
      assert Text(vs, spell) == {};
    } else {
      var v := Pick(vs);
      TextCount(vs - {v}, spell);
      assert Text(vs, spell) == Text(vs - {v}, spell) + {spell(v)};
    }
  }

  lemma SpellInjective(v: int, w: int)
    requires 0 <= v < LIMIT && 0 <= w < LIMIT && Spell(v) == Spell(w)
    ensures v == w
  {
    DottedInjective(FromValue(v), FromValue(w));
  }

  /** An address is aligned to a mask when the bits under the mask are all zero (RFC 4632, section 3.1). */
  ghost predicate Aligned(base: nat, mask: nat)
    requires mask <= 32
  {
    base % TwoTo(32 - mask) == 0
  }

  /**
   * For an aligned network the enumeration is exactly the .0 and .1 addresses of its 2^len
   * subnets: all inside the network, none lost to overflow, all spelled differently.
   */
  lemma AlignedEnumeration(base: nat, mask: nat, len: nat)
    requires mask + len <= 24 && base < LIMIT && Aligned(base, mask)
    ensures var stride := TwoTo(32 - mask - len);
            var vs := Values(base, stride, TwoTo(len));
            && (forall v ::
                  v in vs <==> exists i, j :: 0 <= i < TwoTo(len) && 0 <= j <= 1 && v == Element(base, stride, i, j))
            && (forall v :: v in vs ==> base <= v < base + TwoTo(32 - mask))
            && |Text(vs, Spell)| == TwoTo(len + 1)
  {
    var stride, n, size := TwoTo(32 - mask - len), TwoTo(len), TwoTo(32 - mask);
    PowAdd(2, len, 32 - mask - len);
    PowMonotone(1, 32 - mask - len);
    AlignedFits(base, mask);
    var vs := Values(base, stride, n);
    ValuesCount(base, stride, n);
    assert Injective(vs, Spell) by {
      forall v, w | v in vs && w in vs && Spell(v) == Spell(w) ensures v == w { SpellInjective(v, w); }
    }
    TextCount(vs, Spell);
    forall v
      ensures v in vs <==> exists i, j :: 0 <= i < n && 0 <= j <= 1 && v == Element(base, stride, i, j)
      ensures v in vs ==> base <= v < base + size
    {
      ElementsInside(base, stride, n, v);
    }
  }

  lemma ElementsInside(base: nat, stride: nat, n: nat, v: int)
    requires stride >= 2 && base + n * stride <= LIMIT
    ensures v in Values(base, stride, n)
            <==> exists i, j :: 0 <= i < n && 0 <= j <= 1 && v == Element(base, stride, i, j)
    ensures v in Values(base, stride, n) ==> base <= v < base + n * stride
  {
    ValuesAre(base, stride, n, v);
    forall i, j | 0 <= i < n && 0 <= j <= 1
      ensures base <= Element(base, stride, i, j) < base + n * stride
    {
      MulMonotone(0, i, stride);
      MulMonotone(i + 1, n, stride);
      assert (i + 1) * stride == i * stride + stride;
    }
  }

  lemma AlignedFits(base: nat, mask: nat)
    requires mask <= 32 && base < LIMIT && Aligned(base, mask)
    ensures base + TwoTo(32 - mask) <= LIMIT
  {
    var size, k := TwoTo(32 - mask), TwoTo(mask);
    PowAdd(2, mask, 32 - mask);
    LimitIs();
    NextMultiple(base, size, k);
  }

  lemma LimitIs()
    ensures TwoTo(32) == LIMIT
  {
    Pow256(4);
    WeightBelow(4);
  }

  lemma NextMultiple(base: nat, size: nat, k: nat)
    requires size > 0 && base % size == 0 && base < k * size
    ensures base + size <= k * size
  {
    var q := base / size;
    assert base == q * size;
    if q >= k {
      MulMonotone(k, q, size);
      assert false;
    } else {
      MulMonotone(q + 1, k, size);
      assert (q + 1) * size == q * size + size;
    }
  }

  // ---------- when nothing is lost ----------

  lemma BelowCount(e: int)
    ensures |Below({e, e + 1})| == (if e + 1 < LIMIT then 2 else if e < LIMIT then 1 else 0)
  {
    assert Below({e, e + 1}) == if e + 1 < LIMIT then {e, e + 1} else if e < LIMIT then {e} else {};
  }

  lemma Ascends(base: int, stride: int, i: int, n: int)
    requires stride >= 2 && i < n
    ensures Element(base, stride, i, 1) < Element(base, stride, n, 0)
  {
    MulMonotone(i + 1, n, stride);
    assert (i + 1) * stride == i * stride + stride;
  }

  /** The addresses of earlier subnets lie below those of the next. */
  lemma EarlierBelow(base: nat, stride: nat, n: nat, v: int)
    requires stride >= 2 && v in Values(base, stride, n)
    ensures v < Element(base, stride, n, 0)
  {
    ValuesAre(base, stride, n, v);
    var i, j :| 0 <= i < n && 0 <= j <= 1 && v == Element(base, stride, i, j);
    Ascends(base, stride, i, n);
  }

  lemma DisjointCount<T(!new)>(a: set<T>, b: set<T>)
    requires forall v :: v in a ==> v !in b
    ensures |a + b| == |a| + |b|
  {
    assert a * b == {};
  }

  lemma ValuesMore(base: nat, stride: nat, i: nat)
    requires stride >= 2
    ensures var e := Element(base, stride, i, 0);
            |Values(base, stride, i + 1)| == |Values(base, stride, i)| + |Below({e, e + 1})|
  {
    var e := Element(base, stride, i, 0);
    ValuesStep(base, stride, i);
    forall v | v in Values(base, stride, i) ensures v < e {
      EarlierBelow(base, stride, i, v);
    }
    DisjointCount(Values(base, stride, i), Below({e, e + 1}));
  }

  /** The last address of the first `n` subnets; before the first, none. */
  ghost function Last(base: nat, stride: nat, n: nat): int {
    if n == 0 then -1 else Element(base, stride, n - 1, 1)
  }

  lemma LastMore(base: nat, stride: nat, n: nat)
    requires stride >= 2
    ensures Last(base, stride, n) < Element(base, stride, n, 0)
            && Last(base, stride, n + 1) == Element(base, stride, n, 0) + 1
  {
    if n > 0 {
      Ascends(base, stride, n - 1, n);
    }
  }

  /** `n` full pairs below the limit, counted one pair at a time. */
  ghost predicate Counted(count: nat, n: nat, last: int) {
    count <= 2 * n && (count == 2 * n <==> last < LIMIT)
  }

  lemma OneMorePair(before: nat, after: nat, n: nat, last: int, e: int)
    requires Counted(before, n, last) && last < e
    requires after == before + (if e + 1 < LIMIT then 2 else if e < LIMIT then 1 else 0)
    ensures Counted(after, n + 1, e + 1)
  {}

  lemma PairsStep(base: nat, stride: nat, n: nat)
    requires stride >= 2 && Counted(|Values(base, stride, n)|, n, Last(base, stride, n))
    ensures Counted(|Values(base, stride, n + 1)|, n + 1, Last(base, stride, n + 1))
  {
    var e := Element(base, stride, n, 0);
    ValuesMore(base, stride, n);
    BelowCount(e);
    LastMore(base, stride, n);
    OneMorePair(|Values(base, stride, n)|, |Values(base, stride, n + 1)|, n, Last(base, stride, n), e);
  }

  lemma {:induction false} PairsCounted(base: nat, stride: nat, n: nat)
    requires stride >= 2
    ensures Counted(|Values(base, stride, n)|, n, Last(base, stride, n))
  {
    if n == 0 {
      assert Values(base, stride, 0) == {};
    } else {
      PairsCounted(base, stride, n - 1);
      PairsStep(base, stride, n - 1);
    }
  }

  /** All 2n addresses come out exactly when the last of them is below 2^32. */
  lemma NothingLost(base: nat, stride: nat, n: nat)
    requires stride >= 2 && n >= 1
    ensures |Values(base, stride, n)| == 2 * n <==> Element(base, stride, n - 1, 1) < LIMIT
  {
    PairsCounted(base, stride, n);
  }

  /** The last address of the last subnet of a parsed network. */
  ghost function LastAddress(net: Net, flannelLen: nat): int
    requires IsOctets(net.base) && 0 <= 32 - (net.mask + flannelLen)
  {
    Element(Value(net.base), TwoTo(32 - (net.mask + flannelLen)), TwoTo(flannelLen) - 1, 1)
  }

  lemma TextComplete(base: nat, stride: nat, n: nat)
    requires stride >= 2 && n >= 1
    ensures |Text(Values(base, stride, n), Spell)| == 2 * n <==> Element(base, stride, n - 1, 1) < LIMIT
  {
    var vs := Values(base, stride, n);
    NothingLost(base, stride, n);
    assert Injective(vs, Spell) by {
      forall v, w | v in vs && w in vs && Spell(v) == Spell(w) ensures v == w { SpellInjective(v, w); }
    }
    TextCount(vs, Spell);
  }

  lemma TwoToMore(n: nat)
    ensures TwoTo(n + 1) == 2 * TwoTo(n)
  {
    PowAdd(2, 1, n);
  }

  lemma NetComplete(net: Net, len: nat)
    requires IsOctets(net.base) && 8 <= 32 - (net.mask + len)
    ensures |Text(Values(Value(net.base), TwoTo(32 - (net.mask + len)), TwoTo(len)), Spell)| == TwoTo(len + 1)
       <==> LastAddress(net, len) < LIMIT
  {
    var sub := 32 - (net.mask + len);
    assert TwoTo(sub) >= 2 by {
      TwoToMore(sub - 1);
    }
    TextComplete(Value(net.base), TwoTo(sub), TwoTo(len));
    TwoToMore(len);
  }

  /**
   * The controller enumerates two addresses for each of the 2^len subnets exactly when the docker
   * address of the last subnet is below 2^32; alignment is enough for that, and not needed.
   */
  lemma AddressesComplete(flannelNet: string, flannelLen: nat)
    requires ParseNet(flannelNet, flannelLen).Ok?
    ensures Addresses(flannelNet, flannelLen).Ok?
    ensures var net := ParseNet(flannelNet, flannelLen).value;
            |Addresses(flannelNet, flannelLen).value| == TwoTo(flannelLen + 1) <==> LastAddress(net, flannelLen) < LIMIT
  {
    NetComplete(ParseNet(flannelNet, flannelLen).value, flannelLen);
  }

  lemma AlignedLast(base: nat, mask: nat, len: nat)
    requires mask + len <= 24 && base < LIMIT && Aligned(base, mask)
    ensures Element(base, TwoTo(32 - mask - len), TwoTo(len) - 1, 1) < LIMIT
  {
    PowAdd(2, len, 32 - mask - len);
    TwoToMore(31 - mask - len);
    AlignedFits(base, mask);
    LastBelow(base, TwoTo(32 - mask - len), TwoTo(len), TwoTo(32 - mask));
  }

  lemma LastBelow(base: nat, stride: nat, n: nat, size: nat)
    requires stride >= 2 && n * stride == size && base + size <= LIMIT
    ensures Element(base, stride, n - 1, 1) < LIMIT
  {
    assert (n - 1) * stride + stride == n * stride;
  }

  lemma AlignedComplete(flannelNet: string, flannelLen: nat)
    requires ParseNet(flannelNet, flannelLen).Ok? && 0 <= ParseNet(flannelNet, flannelLen).value.mask
    requires Aligned(Value(ParseNet(flannelNet, flannelLen).value.base), ParseNet(flannelNet, flannelLen).value.mask)
    ensures LastAddress(ParseNet(flannelNet, flannelLen).value, flannelLen) < LIMIT
  {
    var net := ParseNet(flannelNet, flannelLen).value;
    ValueBound(net.base);
    AlignedLast(Value(net.base), net.mask, flannelLen);
  }

  lemma ValueBound(o: seq<int>)
    requires IsOctets(o)
    ensures 0 <= Value(o) < LIMIT
  {}

  /** What the parts of a network's text have to be. */
  lemma ParsedParts(text: string, base: string, mask: nat, o: seq<int>, len: nat)
    requires IsOctets(o) && mask + len <= 24
    requires Split(text, '/') == [base, Itoa(mask)] && Atoi(Itoa(mask)) == Ok(mask)
    requires var ips := Split(base, '.'); |ips| == 4 && forall i :: 0 <= i < 4 ==> Atoi(ips[i]) == Ok(o[3 - i])
    ensures ParseNet(text, len) == Ok(Net(o, mask))
  {
    var ips := Split(base, '.');
    assert forall i :: 0 <= i < 4 ==> OctetText(ips[i]);
    assert o == [o[0], o[1], o[2], o[3]];
  }

  lemma TextSplits(o: seq<int>, mask: nat)
    requires IsOctets(o)
    ensures Split(Dotted(o) + "/" + Itoa(mask), '/') == [Dotted(o), Itoa(mask)]
  {
    NoSlash(o[0]);
    NoSlash(o[1]);
    NoSlash(o[2]);
    NoSlash(o[3]);
    NoSlash(mask);
    SplitFirst(Dotted(o), '/', Itoa(mask));
    SplitNone(Itoa(mask), '/');
  }

  /** A network as written reads back: its base, least significant octet first, and its mask. */
  lemma NetReads(o: seq<int>, mask: nat, len: nat)
    requires IsOctets(o) && mask + len <= 24
    ensures ParseNet(Dotted(o) + "/" + Itoa(mask), len) == Ok(Net(o, mask))
  {
    TextSplits(o, mask);
    AtoiItoa(mask);
    DottedReads(o);
    var ips := Split(Dotted(o), '.');
    forall i | 0 <= i < 4 ensures Atoi(ips[i]) == Ok(o[3 - i]) {
      assert Atoi(ips[3 - (3 - i)]) == Ok(o[3 - i]);
    }
    ParsedParts(Dotted(o) + "/" + Itoa(mask), Dotted(o), mask, o, len);
  }

  lemma NoSlash(n: nat)
    ensures '/' !in Itoa(n)
  {
    ItoaDigits(n);
  }

  const TOP := [255, 255, 255, 255]

  lemma TopIs()
    ensures Dotted(TOP) == "255.255.255.255" && Itoa(0) == "0" && Value(TOP) == LIMIT - 1
  {
    assert Itoa(255) == "255" by {
      assert Itoa(2) == "2" && Itoa(25) == "25";
    }
    assert "255" + "." + ("255" + "." + ("255" + "." + "255")) == "255.255.255.255";
  }

  lemma TopValues()
    ensures !Aligned(LIMIT - 1, 0) && Values(LIMIT - 1, TwoTo(32), TwoTo(0)) == {LIMIT - 1}
  {
    LimitIs();
    assert TwoTo(0) == 1;
    var stride := TwoTo(32);
    assert Values(LIMIT - 1, stride, 0) == {};
    assert Element(LIMIT - 1, stride, 0, 0) == LIMIT - 1;
    assert Element(LIMIT - 1, stride, 0, 1) == LIMIT;
  }

  lemma TopAddresses(text: string)
    requires text == Dotted(TOP) + "/" + Itoa(0)
    ensures ParseNet(text, 0) == Ok(Net(TOP, 0)) && Addresses(text, 0) == Ok({Dotted(TOP)})
  {
    TopIs();
    NetReads(TOP, 0, 0);
    TopValues();
    SpellOctets(TOP);
    assert Text({LIMIT - 1}, Spell) == {Spell(LIMIT - 1)};
  }

  const TOP_TEXT := "255.255.255.255/0"

  /**
   * Off alignment an address can be lost: for 255.255.255.255/0 with one subnet the docker
   * address would be 2^32, so a single address comes out instead of two.
   */
  lemma UnalignedLosesAddresses()
    ensures ParseNet(TOP_TEXT, 0) == Ok(Net(TOP, 0)) && !Aligned(Value(TOP), 0)
    ensures Addresses(TOP_TEXT, 0) == Ok({"255.255.255.255"}) && |Addresses(TOP_TEXT, 0).value| == 1
  {
    TopIs();
    TopValues();
    TopAddresses(TOP_TEXT);
  }
}
