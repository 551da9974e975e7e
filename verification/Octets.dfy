/** IPv4 addresses as four little-endian octets, and the arithmetic on them. */
module Octets {

  datatype Result<+T> = Ok(value: T) | Err

  // ---------- powers ----------

  ghost function Pow(x: int, n: nat): int {
    if n == 0 then 1 else x * Pow(x, n - 1)
  }

  /** The loop does not run for a negative exponent, which therefore gives 1. */
  method PowerInt(x: int, n: int) returns (result: int)
    ensures result == Pow(x, if n < 0 then 0 else n)
  {
    result := 1;
    if n != 0 {
      var i := 0;
      while i < n
        invariant 0 <= i <= if n < 0 then 0 else n
        invariant result == Pow(x, i)
      {
        result := result * x;
        i := i + 1;
      }
    }
  }

  lemma {:induction false} PowPositive(x: int, n: nat)
    requires x > 0
    ensures Pow(x, n) > 0
  {
    if n > 0 {
      PowPositive(x, n - 1);
    }
  }

  lemma {:induction false} PowAdd(x: int, a: nat, b: nat)
    ensures Pow(x, a + b) == Pow(x, a) * Pow(x, b)
  {
    if a == 0 {
      assert Pow(x, 0) == 1;
    } else {
      PowAdd(x, a - 1, b);
      assert Pow(x, a + b) == x * (Pow(x, a - 1) * Pow(x, b));
      assert Pow(x, a) * Pow(x, b) == (x * Pow(x, a - 1)) * Pow(x, b);
    }
  }

  lemma {:induction false} PowMonotone(a: nat, b: nat)
    requires a <= b
    ensures Pow(2, a) <= Pow(2, b)
  {
    if a < b {
      PowMonotone(a, b - 1);
      PowPositive(2, b - 1);
    }
  }

  lemma {:induction false} Pow256(k: nat)
    ensures Pow(256, k) == Pow(2, 8 * k)
  {
    if k > 0 {
      Pow256(k - 1);
      PowAdd(2, 8, 8 * (k - 1));
      assert Pow(2, 8) == 256 by {
        assert Pow(2, 2) == 4;
        PowAdd(2, 2, 2);
        PowAdd(2, 4, 4);
      }
    }
  }

  // ---------- octets ----------

  const LIMIT := 0x1_0000_0000

  predicate IsOctets(o: seq<int>) {
    |o| == 4 && forall i :: 0 <= i < 4 ==> 0 <= o[i] < 256
  }

  function Value(o: seq<int>): (v: int)
    requires |o| == 4
  {
    o[0] + 256 * o[1] + 0x1_0000 * o[2] + 0x100_0000 * o[3]
  }

  lemma OctetsExist(v: int)
    requires 0 <= v < LIMIT
    ensures exists o :: IsOctets(o) && Value(o) == v
  {
    var q, q', q'' := v / 256, v / 256 / 256, v / 256 / 256 / 256;
    var a, b, c, d := v - 256 * q, q - 256 * q', q' - 256 * q'', q'';
    assert 0 <= a < 256 && 0 <= b < 256 && 0 <= c < 256 && 0 <= d < 256;
    var o := [a, b, c, d];
    assert o[0] == a && o[1] == b && o[2] == c && o[3] == d;
    assert IsOctets(o) && Value(o) == v;
  }

  /** The octets of an address. */
  ghost function FromValue(v: int): (o: seq<int>)
    requires 0 <= v < LIMIT
    ensures IsOctets(o) && Value(o) == v
  {
    OctetsExist(v);
    var o :| IsOctets(o) && Value(o) == v;
    o
  }

  lemma HighPart(low: int, high: int, low': int, high': int)
    requires 0 <= low < 256 && 0 <= low' < 256
    requires low + 256 * high == low' + 256 * high'
    ensures low == low' && high == high'
  {}

  lemma ValueInjective(a: seq<int>, b: seq<int>)
    requires IsOctets(a) && IsOctets(b) && Value(a) == Value(b)
    ensures a == b
  {
    HighPart(a[0], a[1] + 256 * a[2] + 0x1_0000 * a[3], b[0], b[1] + 256 * b[2] + 0x1_0000 * b[3]);
    HighPart(a[1], a[2] + 256 * a[3], b[1], b[2] + 256 * b[3]);
    HighPart(a[2], a[3], b[2], b[3]);
  }

  // ---------- addition with carry ----------

  /** What the carry loop does from `item` on, for any integers at all: `None`-like Err is a carry left over. */
  ghost function Ripple(o: seq<int>, item: nat, carry: int): (r: Result<seq<int>>)
    requires |o| == 4
    ensures r.Ok? ==> |r.value| == 4
    decreases 4 - item
  {
    if item >= 4 then
      if carry != 0 then Err else Ok(o)
    else if o[item] + carry >= 256 then
      Ripple(o[item := o[item] + carry - 256], item + 1, 1)
    else
      Ok(o[item := o[item] + carry])
  }

  /** The caller's slice is left alone: the sum is built in a copy. */
  method IpOperateAdd(ips: seq<int>, baseItem: int, step: int) returns (r: Result<seq<int>>)
    requires |ips| == 4 ==> baseItem >= 0
    ensures |ips| != 4 ==> r.Err?
    ensures |ips| == 4 ==> r == Ripple(ips, baseItem, step)
  {
    if |ips| != 4 {
      return Err;
    }
    var result := ips;
    var item := baseItem;
    var carry := step;
    while item < 4
      invariant baseItem <= item && |result| == 4
      invariant Ripple(ips, baseItem, step) == Ripple(result, item, carry)
      decreases 4 - item
    {
      var sum := result[item] + carry;
      if sum >= 256 {
        result := result[item := sum - 256];
        carry := 1;
      } else {
        ghost var before := result;
        result := result[item := sum];
        assert Ripple(before, item, carry) == Ok(result);
        return Ok(result);
      }
      item := item + 1;
    }
    if carry != 0 {
      return Err;
    }
    return Ok(result);
  }

  ghost function Weight(item: nat): int { Pow(256, item) }

  /** Rippling adds carry * 256^item to the value, and fails exactly when the sum reaches 2^32. */
  lemma {:induction false} RippleAdds(o: seq<int>, item: nat, carry: int)
    requires IsOctets(o) && 0 <= carry < 256
    ensures var sum := Value(o) + carry * Weight(item);
            && Ripple(o, item, carry).Ok? == (sum < LIMIT)
            && (sum < LIMIT ==> IsOctets(Ripple(o, item, carry).value) && Value(Ripple(o, item, carry).value) == sum)
    decreases 4 - item
  {
    if item >= 4 {
      WeightAbove(item);
      if carry > 0 {
        assert carry * Weight(item) >= 1 * Weight(item) by { MulMonotone(1, carry, Weight(item)); }
      }
    } else {
      WeightBelow(item);
      if o[item] + carry >= 256 {
        var next := o[item := o[item] + carry - 256];
        assert Value(next) == Value(o) + (carry - 256) * Weight(item);
        RippleAdds(next, item + 1, 1);
        assert Weight(item + 1) == 256 * Weight(item);
      } else {
        var done := o[item := o[item] + carry];
        assert Value(done) == Value(o) + carry * Weight(item);
      }
    }
  }

  lemma WeightBelow(item: nat)
    requires item <= 4
    ensures Weight(item) == [1, 256, 0x1_0000, 0x100_0000, LIMIT][item]
  {
    assert Pow(256, 1) == 256 * Pow(256, 0);
    assert Pow(256, 2) == 256 * Pow(256, 1);
    assert Pow(256, 3) == 256 * Pow(256, 2);
    assert Pow(256, 4) == 256 * Pow(256, 3);
  }

  lemma WeightAbove(item: nat)
    requires item >= 4
    ensures Weight(item) >= LIMIT
  {
    WeightBelow(4);
    Pow256(4);
    Pow256(item);
    PowMonotone(32, 8 * item);
  }

  lemma MulMonotone(a: int, b: int, c: int)
    requires a <= b && c >= 0
    ensures a * c <= b * c
  {}

  // ---------- decimal text ----------

  predicate IsDigit(c: char) { '0' <= c <= '9' }

  function Digits(s: string): (v: nat)
    requires forall c :: c in s ==> IsDigit(c)
  {
    if s == [] then 0 else
      assert s[|s| - 1] in s && IsDigit(s[|s| - 1]);
      10 * Digits(s[..|s| - 1]) + (s[|s| - 1] as nat - '0' as nat)
  }

  const INT64_MAX := 0x7fff_ffff_ffff_ffff

  /** strconv.Atoi: an optional sign, at least one digit, nothing else, and a 64-bit result. */
  function Atoi(s: string): Result<int> {
    var negative := |s| > 0 && s[0] == '-';
    var digits := if |s| > 0 && (s[0] == '-' || s[0] == '+') then s[1..] else s;
    if digits == [] || exists c :: c in digits && !IsDigit(c) then Err
    else
      var v: int := if negative then -(Digits(digits) as int) else Digits(digits);
      if v < -INT64_MAX - 1 || v > INT64_MAX then Err else Ok(v)
  }

  function Itoa(n: nat): string {
    if n < 10 then [('0' as int + n) as char] else Itoa(n / 10) + [('0' as int + n % 10) as char]
  }

  lemma {:induction false} ItoaDigits(n: nat)
    ensures var s := Itoa(n); |s| > 0 && (forall c :: c in s ==> IsDigit(c)) && Digits(s) == n
  {
    var s := Itoa(n);
    if n < 10 {
      assert Digits(s[..0]) == 0;
    } else {
      ItoaDigits(n / 10);
      assert s[..|s| - 1] == Itoa(n / 10);
    }
  }

  lemma AtoiItoa(n: nat)
    requires n <= INT64_MAX
    ensures Atoi(Itoa(n)) == Ok(n)
  {
    ItoaDigits(n);
    var s := Itoa(n);
    assert s[0] in s && IsDigit(s[0]);
  }

  method IpStringToInt(ips: seq<string>) returns (r: Result<seq<int>>)
    ensures r.Ok? <==> (|ips| == 4 && forall i :: 0 <= i < 4 ==> Atoi(ips[i]).Ok? && 0 <= Atoi(ips[i]).value <= 255)
    ensures r.Ok? ==> IsOctets(r.value) && forall i :: 0 <= i < 4 ==> Ok(r.value[3 - i]) == Atoi(ips[i])
  {
    if |ips| != 4 {
      return Err;
    }
    var intIPs := [0, 0, 0, 0];
    var i := 0;
    while i < 4
      invariant 0 <= i <= 4
      invariant IsOctets(intIPs)
      invariant forall j :: 0 <= j < i ==> Ok(intIPs[3 - j]) == Atoi(ips[j])
    {
      var ip := Atoi(ips[i]);
      if ip.Err? {
        return Err;
      }
      if ip.value > 255 || ip.value < 0 {
        return Err;
      }
      intIPs := intIPs[3 - i := ip.value];
      i := i + 1;
    }
    return Ok(intIPs);
  }

  /** Dotted decimal, most significant octet first. */
  function Dotted(o: seq<int>): string
    requires IsOctets(o)
  {
    Itoa(o[3]) + "." + (Itoa(o[2]) + "." + (Itoa(o[1]) + "." + Itoa(o[0])))
  }

  lemma {:induction false} DotSplits(a: string, x: string, b: string, y: string)
    requires '.' !in a && '.' !in b
    requires a + "." + x == b + "." + y
    ensures a == b && x == y
  {
    var s := a + "." + x;
    assert s[|a|] == '.' && s[|b|] == '.';
    if |a| < |b| {
      assert false;
    } else if |b| < |a| {
      assert false;
    }
    assert a == s[..|a|] == b;
    assert x == s[|a| + 1..] == y;
  }

  lemma ItoaInjective(m: nat, n: nat)
    requires Itoa(m) == Itoa(n)
    ensures m == n
  {
    ItoaDigits(m);
    ItoaDigits(n);
  }

  lemma DottedInjective(a: seq<int>, b: seq<int>)
    requires IsOctets(a) && IsOctets(b) && Dotted(a) == Dotted(b)
    ensures a == b
  {
    forall i | 0 <= i < 4 ensures '.' !in Itoa(a[i]) && '.' !in Itoa(b[i]) {
      ItoaDigits(a[i]);
      ItoaDigits(b[i]);
    }
    DotSplits(Itoa(a[3]), Itoa(a[2]) + "." + (Itoa(a[1]) + "." + Itoa(a[0])),
              Itoa(b[3]), Itoa(b[2]) + "." + (Itoa(b[1]) + "." + Itoa(b[0])));
    DotSplits(Itoa(a[2]), Itoa(a[1]) + "." + Itoa(a[0]), Itoa(b[2]), Itoa(b[1]) + "." + Itoa(b[0]));
    DotSplits(Itoa(a[1]), Itoa(a[0]), Itoa(b[1]), Itoa(b[0]));
    ItoaInjective(a[3], b[3]);
    ItoaInjective(a[2], b[2]);
    ItoaInjective(a[1], b[1]);
    ItoaInjective(a[0], b[0]);
  }
}
