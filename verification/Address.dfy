/** IPv4 addresses: dotted-quad text and the special-purpose ranges that are
    never valid egress targets. */
module Address {
  import opened Text

  /** An address as its big-endian 32-bit value; the order of addresses is the
      order of these values. */
  type Addr = n: int | 0 <= n < 0x1_0000_0000

  // ---- dotted-quad text ----

  /** The four bytes of an address. */
  function Octets(ip: Addr): (o: seq<nat>)
    ensures |o| == 4
  {
    [ip / 0x100_0000, ip / 0x1_0000 % 256, ip / 0x100 % 256, ip % 256]
  }

  function ShowIp(ip: Addr): string {
    var o := Octets(ip);
    Join([Dec(o[0]), Dec(o[1]), Dec(o[2]), Dec(o[3])], ".")
  }

  function DecValue(s: string): nat
    requires forall c | c in s :: IsDigit(c)
  {
    if s == "" then 0
    else
      assert IsDigit(s[|s| - 1]) && forall c | c in s[..|s| - 1] :: c in s;
      10 * DecValue(s[..|s| - 1]) + (s[|s| - 1] as int - '0' as int)
  }

  /** One to three digits, no leading zero, at most 255. */
  function ParseOctet(s: string): (r: Option<nat>)
    ensures r.Some? ==> r.value <= 255
  {
    if 1 <= |s| <= 3 && (forall c | c in s :: IsDigit(c)) && (|s| > 1 ==> s[0] != '0') && DecValue(s) <= 255
    then Some(DecValue(s))
    else None
  }

  function ParseIp(s: string): Option<Addr> {
    var p := SplitOn(s, '.');
    if |p| != 4 then None
    else
      match (ParseOctet(p[0]), ParseOctet(p[1]), ParseOctet(p[2]), ParseOctet(p[3]))
      case (Some(a), Some(b), Some(c), Some(d)) =>
        Some(a * 0x100_0000 + b * 0x1_0000 + c * 0x100 + d)
      case _ => None
  }

  lemma {:induction false} DecValueRoundTrip(n: nat)
    ensures DecValue(Dec(n)) == n
  {
    var s := Dec(n);
    if n >= 10 {
      assert s[..|s| - 1] == Dec(n / 10);
      DecValueRoundTrip(n / 10);
    } else {
      assert s[..|s| - 1] == "";
    }
  }

  lemma {:induction false} DecShape(n: nat, k: nat)
    requires k > 0 && n < Pow10(k)
    ensures |Dec(n)| <= k && (n > 0 ==> Dec(n)[0] != '0')
  {
    if n >= 10 {
      DecShape(n / 10, k - 1);
    }
  }

  function Pow10(k: nat): nat {
    if k == 0 then 1 else 10 * Pow10(k - 1)
  }

  lemma OctetRoundTrip(n: nat)
    requires n <= 255
    ensures ParseOctet(Dec(n)) == Some(n)
  {
    assert Pow10(2) == 100 && Pow10(3) == 10 * Pow10(2);
    DecShape(n, 3);
    DecValueRoundTrip(n);
  }

  lemma Byte(x: nat)
    ensures x == x / 0x100 * 0x100 + x % 0x100 && x % 0x100 <= 255
  {}

  lemma Bytes(x: nat)
    ensures x / 0x1_0000 == x / 0x100 / 0x100 && x / 0x100_0000 == x / 0x1_0000 / 0x100
  {}

  lemma OctetsCompose(ip: Addr)
    ensures forall i | 0 <= i < 4 :: Octets(ip)[i] <= 255
    ensures
      var o := Octets(ip);
      o[0] * 0x100_0000 + o[1] * 0x1_0000 + o[2] * 0x100 + o[3] == ip
  {
    Bytes(ip);
    Byte(ip);
    Byte(ip / 0x100);
    Byte(ip / 0x1_0000);
  }

  /** Printing and parsing an address are inverse. */
  lemma IpRoundTrip(ip: Addr)
    ensures ParseIp(ShowIp(ip)) == Some(ip)
  {
    var o := Octets(ip);
    OctetsCompose(ip);
    OctetRoundTrip(o[0]);
    OctetRoundTrip(o[1]);
    OctetRoundTrip(o[2]);
    OctetRoundTrip(o[3]);
    SplitOfJoin([Dec(o[0]), Dec(o[1]), Dec(o[2]), Dec(o[3])], '.');
  }

  lemma DecValueNext(s: string, c: char)
    requires IsDigit(c) && forall x | x in s :: IsDigit(x)
    ensures (forall x | x in s + [c] :: IsDigit(x)) && DecValue(s + [c]) == 10 * DecValue(s) + (c as int - '0' as int)
  {
    assert (s + [c])[..|s|] == s;
  }

  lemma {:induction false} DecOfValue(s: string)
    requires s != "" && (forall c | c in s :: IsDigit(c)) && (|s| > 1 ==> s[0] != '0')
    ensures Dec(DecValue(s)) == s && (s[0] != '0' ==> DecValue(s) > 0)
  {
    var init, last := s[..|s| - 1], s[|s| - 1];
    assert last in s && s == init + [last];
    assert forall c | c in init :: c in s;
    DecValueNext(init, last);
    if |s| == 1 {
      assert init == "";
    } else {
      assert init[0] == s[0];
      DecOfValue(init);
      DecNext(DecValue(init), last);
    }
  }

  lemma DecNext(n: nat, c: char)
    requires n > 0 && IsDigit(c)
    ensures Dec(10 * n + (c as int - '0' as int)) == Dec(n) + [c]
  {
    var m := 10 * n + (c as int - '0' as int);
    assert m / 10 == n && m % 10 == c as int - '0' as int;
  }

  lemma OctetText(s: string)
    requires ParseOctet(s).Some?
    ensures s == Dec(ParseOctet(s).value)
  {
    DecOfValue(s);
  }

  lemma LastByte(x: nat, q: nat, r: nat)
    requires x == 0x100 * q + r && r <= 255
    ensures x / 0x100 == q && x % 0x100 == r
  {}

  lemma OctetsOfBytes(a: nat, b: nat, c: nat, d: nat)
    requires a <= 255 && b <= 255 && c <= 255 && d <= 255
    ensures
      var ip := a * 0x100_0000 + b * 0x1_0000 + c * 0x100 + d;
      ip < 0x1_0000_0000 && Octets(ip) == [a, b, c, d]
  {
    var x := a * 0x100 + b;
    var y := x * 0x100 + c;
    var ip := y * 0x100 + d;
    LastByte(ip, y, d);
    LastByte(y, x, c);
    LastByte(x, a, b);
    Bytes(ip);
  }

  /** A text that parses to an address is the one that the address prints as. */
  lemma OnlyOneText(s: string)
    requires ParseIp(s).Some?
    ensures s == ShowIp(ParseIp(s).value)
  {
    var p := SplitOn(s, '.');
    var a, b, c, d := ParseOctet(p[0]).value, ParseOctet(p[1]).value, ParseOctet(p[2]).value, ParseOctet(p[3]).value;
    OctetText(p[0]);
    OctetText(p[1]);
    OctetText(p[2]);
    OctetText(p[3]);
    OctetsOfBytes(a, b, c, d);
    JoinOfSplit(s, '.');
    assert p == [Dec(a), Dec(b), Dec(c), Dec(d)];
  }

  // ---- address ranges ----

  function Pow2(n: nat): (p: nat)
    ensures p > 0
  {
    if n == 0 then 1 else 2 * Pow2(n - 1)
  }

  /** Bitwise conjunction. */
  function BitAnd(x: nat, y: nat): nat {
    if x == 0 || y == 0 then 0
    else 2 * BitAnd(x / 2, y / 2) + (if x % 2 == 1 && y % 2 == 1 then 1 else 0)
  }

  /** A 32-bit left shift: the bits that leave the word are lost. */
  function Shl32(x: Addr, k: nat): Addr
    decreases k
  {
    if k == 0 then x else Shl32(if x >= 0x8000_0000 then 2 * x - 0x1_0000_0000 else 2 * x, k - 1)
  }

  type Prefix = n: nat | n <= 32

  datatype Range = Range(net: Addr, len: Prefix)

  predicate InRange(ip: Addr, net: Addr, len: Prefix) {
    len == 0 ||
    var mask := Shl32(0xFFFF_FFFF, 32 - len);
    BitAnd(ip, mask) == BitAnd(net, mask)
  }

  function Quad(a: nat, b: nat, c: nat): Addr
    requires a <= 255 && b <= 255 && c <= 255
  {
    a * 0x100_0000 + b * 0x1_0000 + c * 0x100
  }

  const SPECIAL_COUNT: nat := 15

  /** The special-purpose ranges, in table order. */
  function SpecialRange(i: nat): Range
    requires i < SPECIAL_COUNT
  {
    match i
    case 0 => Range(0, 8)
    case 1 => Range(Quad(10, 0, 0), 8)
    case 2 => Range(Quad(100, 64, 0), 10)
    case 3 => Range(Quad(127, 0, 0), 8)
    case 4 => Range(Quad(169, 254, 0), 16)
    case 5 => Range(Quad(172, 16, 0), 12)
    case 6 => Range(Quad(192, 0, 0), 24)
    case 7 => Range(Quad(192, 0, 2), 24)
    case 8 => Range(Quad(192, 88, 99), 24)
    case 9 => Range(Quad(192, 168, 0), 16)
    case 10 => Range(Quad(198, 18, 0), 15)
    case 11 => Range(Quad(198, 51, 100), 24)
    case 12 => Range(Quad(203, 0, 113), 24)
    case 13 => Range(Quad(224, 0, 0), 4)
    case _ => Range(Quad(240, 0, 0), 4)
  }

  /** In one of the ranges from the `i`-th on. */
  predicate InRangeFrom(ip: Addr, i: nat)
    requires i <= SPECIAL_COUNT
    decreases SPECIAL_COUNT - i, ip
  {
    i < SPECIAL_COUNT && (InRange(ip, SpecialRange(i).net, SpecialRange(i).len) || InRangeFrom(ip, i + 1))
  }

  predicate IsGlobalUnicast(ip: Addr) {
    !InRangeFrom(ip, 0)
  }

  lemma OddHalf(p: nat)
    requires p > 0
    ensures (2 * p - 1) / 2 == p - 1 && (2 * p - 1) % 2 == 1
  {}

  lemma {:induction false} AndOnes(x: nat, n: nat)
    requires x < Pow2(n)
    ensures BitAnd(x, Pow2(n) - 1) == x
  {
    if n > 0 && x > 0 {
      OddHalf(Pow2(n - 1));
      AndOnes(x / 2, n - 1);
    }
  }

  lemma DivUnique(x: int, d: int, q: int, r: int)
    requires 0 <= r < d && x == d * q + r
    ensures x / d == q
  {
    var e := x / d - q;
    assert d * e == r - x % d;
    assert e >= 1 ==> d * e >= d;
    assert e <= -1 ==> d * e <= -d;
  }

  lemma Assoc(a: int, b: int, c: int)
    ensures a * (b * c) == (a * b) * c
  {}

  lemma Halve(x: nat, p: nat)
    requires p > 0
    ensures x / (2 * p) == x / 2 / p
  {
    var q, r := x / 2 / p, x / 2 % p;
    assert x / 2 == p * q + r;
    Assoc(2, p, q);
    DivUnique(x, 2 * p, q, 2 * r + x % 2);
  }

  /** `n` ones followed by `k` zeros. */
  function HighOnes(n: nat, k: nat): nat {
    if k == 0 then Pow2(n) - 1 else 2 * HighOnes(n, k - 1)
  }

  /** `x` with its low `k` bits cleared. */
  function ClearLow(x: nat, k: nat): nat {
    if k == 0 then x else 2 * ClearLow(x / 2, k - 1)
  }

  lemma AndDouble(x: nat, m: nat)
    ensures BitAnd(x, 2 * m) == 2 * BitAnd(x / 2, m)
  {
    assert 2 * m / 2 == m && 2 * m % 2 == 0;
  }

  lemma {:induction false} AndHighOnes(x: nat, n: nat, k: nat)
    requires x < Pow2(n + k)
    ensures BitAnd(x, HighOnes(n, k)) == ClearLow(x, k)
  {
    if k == 0 {
      AndOnes(x, n);
    } else {
      AndHighOnes(x / 2, n, k - 1);
      AndDouble(x, HighOnes(n, k - 1));
    }
  }

  lemma {:induction false} HighOnesValue(n: nat, k: nat)
    ensures HighOnes(n, k) == (Pow2(n) - 1) * Pow2(k)
  {
    if k > 0 {
      HighOnesValue(n, k - 1);
      Assoc(Pow2(n) - 1, 2, Pow2(k - 1));
      Assoc(2, Pow2(n) - 1, Pow2(k - 1));
    }
  }

  lemma {:induction false} ClearLowValue(x: nat, k: nat)
    ensures ClearLow(x, k) == x / Pow2(k) * Pow2(k)
  {
    if k > 0 {
      var p := Pow2(k - 1);
      ClearLowValue(x / 2, k - 1);
      Halve(x, p);
      Assoc(x / 2 / p, 2, p);
      Assoc(2, x / 2 / p, p);
    }
  }

  lemma {:induction false} Pow2Add(a: nat, b: nat)
    ensures Pow2(a + b) == Pow2(a) * Pow2(b)
  {
    if a > 0 {
      Pow2Add(a - 1, b);
      Assoc(2, Pow2(a - 1), Pow2(b));
    }
  }

  lemma MulAtLeast(a: nat, b: nat)
    requires b > 0
    ensures a * b >= a
  {}

  lemma {:induction false} ShiftOnes(p: nat, k: nat)
    requires 0 < p <= 0x1_0000_0000 && p * Pow2(k) <= 0x1_0000_0000
    ensures Shl32(0x1_0000_0000 - p, k) == 0x1_0000_0000 - p * Pow2(k)
    decreases k
  {
    if k > 0 {
      var q := Pow2(k - 1);
      assert p * Pow2(k) == (2 * p) * q by { Assoc(p, 2, q); }
      MulAtLeast(2 * p, q);
      ShiftOnes(2 * p, k - 1);
    }
  }

  lemma OneLess(a: int, p: int)
    ensures (a - 1) * p == a * p - p
  {}

  lemma PrefixMask(len: nat)
    requires 1 <= len <= 32
    ensures Shl32(0xFFFF_FFFF, 32 - len) == (Pow2(len) - 1) * Pow2(32 - len)
  {
    Pow2Add(len, 32 - len);
    Powers();
    ShiftOnes(1, 32 - len);
    OneLess(Pow2(len), Pow2(32 - len));
  }

  /** The number of addresses a prefix of `len` bits covers. */
  function Size(len: Prefix): (n: nat)
    ensures n > 0
  {
    Pow2(32 - len)
  }

  ghost predicate InInterval(ip: Addr, r: Range) {
    r.net <= ip < r.net + Size(r.len)
  }

  ghost predicate Aligned(r: Range) {
    r.net % Size(r.len) == 0
  }

  lemma AlignedBlock(ip: nat, net: nat, p: nat)
    requires p > 0 && net % p == 0
    ensures ip / p * p == net / p * p <==> net <= ip < net + p
  {
    var q, n := ip / p, net / p;
    assert net == p * n && ip == p * q + ip % p;
    if net <= ip < net + p {
      DivUnique(ip, p, n, ip - net);
    }
  }

  /** For every prefix length and every network aligned to it, the mask test
      is membership in the interval the network covers. */
  lemma MaskTestIsInterval(ip: Addr, r: Range)
    requires Aligned(r)
    ensures InRange(ip, r.net, r.len) <==> InInterval(ip, r)
  {
    Powers();
    if r.len > 0 {
      var k := 32 - r.len;
      PrefixMask(r.len);
      HighOnesValue(r.len, k);
      AndHighOnes(ip, r.len, k);
      AndHighOnes(r.net, r.len, k);
      ClearLowValue(ip, k);
      ClearLowValue(r.net, k);
      AlignedBlock(ip, r.net, Pow2(k));
    }
  }

  lemma Powers()
    ensures Pow2(8) == 0x100 && Pow2(16) == 0x1_0000 && Pow2(17) == 0x2_0000 && Pow2(20) == 0x10_0000
    ensures Pow2(22) == 0x40_0000 && Pow2(24) == 0x100_0000 && Pow2(28) == 0x1000_0000
    ensures Pow2(32) == 0x1_0000_0000
  {
    assert Pow2(4) == 16;
    Pow2Add(4, 4);
    Pow2Add(8, 8);
    Pow2Add(1, 16);
    Pow2Add(16, 4);
    assert Pow2(22) == 4 * Pow2(20);
    Pow2Add(16, 8);
    Pow2Add(24, 4);
    Pow2Add(16, 16);
  }

  lemma Multiple(net: nat, size: nat, k: nat)
    requires size > 0 && net == size * k
    ensures net % size == 0
  {
    DivUnique(net, size, k, 0);
  }

  /** How many blocks of its size lie below each range. */
  function BlocksBelow(i: nat): nat
    requires i < SPECIAL_COUNT
  {
    match i
    case 0 => 0
    case 1 => 10
    case 2 => 401
    case 3 => 127
    case 4 => 43518
    case 5 => 2753
    case 6 => 0xC0_0000
    case 7 => 0xC0_0002
    case 8 => 0xC0_5863
    case 9 => 0xC0A8
    case 10 => 25353
    case 11 => 0xC6_3364
    case 12 => 0xCB_0071
    case 13 => 14
    case _ => 15
  }

  lemma RangeAligned(i: nat)
    requires i < SPECIAL_COUNT
    ensures Aligned(SpecialRange(i))
  {
    Powers();
    var r := SpecialRange(i);
    assert r.net == Size(r.len) * BlocksBelow(i);
    Multiple(r.net, Size(r.len), BlocksBelow(i));
  }

  lemma RangesAscend(i: nat)
    requires i + 1 < SPECIAL_COUNT
    ensures SpecialRange(i).net + Size(SpecialRange(i).len) <= SpecialRange(i + 1).net
  {
    Powers();
  }

  /** The special ranges are listed in ascending order and do not overlap. */
  lemma {:induction false} RangesDisjoint(i: nat, j: nat)
    requires i < j < SPECIAL_COUNT
    ensures SpecialRange(i).net + Size(SpecialRange(i).len) <= SpecialRange(j).net
  {
    RangesAscend(j - 1);
    if i < j - 1 {
      RangesDisjoint(i, j - 1);
    }
  }

  /** The address lies in the interval of a range from the `i`-th on. */
  ghost predicate InSome(ip: Addr, i: nat) {
    exists j :: i <= j < SPECIAL_COUNT && InInterval(ip, SpecialRange(j))
  }

  lemma InSomeSplit(ip: Addr, i: nat)
    requires i < SPECIAL_COUNT
    ensures InSome(ip, i) <==> InInterval(ip, SpecialRange(i)) || InSome(ip, i + 1)
  {}

  lemma {:induction false} RangesFrom(ip: Addr, i: nat)
    requires i <= SPECIAL_COUNT
    ensures InRangeFrom(ip, i) <==> InSome(ip, i)
    decreases SPECIAL_COUNT - i
  {
    if i < SPECIAL_COUNT {
      RangeAligned(i);
      MaskTestIsInterval(ip, SpecialRange(i));
      RangesFrom(ip, i + 1);
      InSomeSplit(ip, i);
    }
  }

  /** An address is global unicast exactly when it lies in none of the
      special intervals. */
  lemma GlobalUnicastIsComplement(ip: Addr)
    ensures IsGlobalUnicast(ip) <==> forall i | 0 <= i < SPECIAL_COUNT :: !InInterval(ip, SpecialRange(i))
  {
    RangesFrom(ip, 0);
  }

  // ---- the special addresses by their octets ----

  /** Not valid as an egress target, read off the four octets. */
  predicate IsSpecial(a: nat, b: nat, c: nat) {
    || a == 0 || a == 10 || a == 127                // this network, private, loopback
    || (a == 100 && 64 <= b <= 127)                 // shared address space
    || (a == 169 && b == 254)                       // link-local
    || (a == 172 && 16 <= b <= 31)                  // private
    || (a == 192 && b == 0 && (c == 0 || c == 2))   // protocol assignments, test
    || (a == 192 && b == 88 && c == 99)             // 6to4 relays
    || (a == 192 && b == 168)                       // private
    || (a == 198 && (b == 18 || b == 19))           // benchmarking
    || (a == 198 && b == 51 && c == 100)            // test
    || (a == 203 && b == 0 && c == 113)             // test
    || a >= 224                                     // multicast, reserved, broadcast
  }

  /** Each range in units of its last whole octet: `a`, `b` and `c` are the first
      one, two and three octets as one number. */
  predicate InUnits(i: nat, a: nat, b: nat, c: nat)
    requires i < SPECIAL_COUNT
  {
    match i
    case 0 => a == 0
    case 1 => a == 10
    case 2 => 0x6440 <= b < 0x6480
    case 3 => a == 127
    case 4 => b == 0xA9FE
    case 5 => 0xAC10 <= b < 0xAC20
    case 6 => c == 0xC0_0000
    case 7 => c == 0xC0_0002
    case 8 => c == 0xC0_5863
    case 9 => b == 0xC0A8
    case 10 => 0xC612 <= b < 0xC614
    case 11 => c == 0xC6_3364
    case 12 => c == 0xCB_0071
    case 13 => 224 <= a < 240
    case _ => 240 <= a < 256
  }

  lemma IntervalInUnits(ip: Addr, i: nat)
    requires i < SPECIAL_COUNT
    ensures InInterval(ip, SpecialRange(i)) <==> InUnits(i, ip / 0x100_0000, ip / 0x1_0000, ip / 0x100)
  {
    Powers();
  }

  lemma UnitsOfOctets(ip: Addr)
    ensures
      var o := Octets(ip);
      && ip / 0x100_0000 == o[0] && ip / 0x1_0000 == 256 * o[0] + o[1]
      && ip / 0x100 == 0x1_0000 * o[0] + 256 * o[1] + o[2]
      && o[0] <= 255 && o[1] <= 255 && o[2] <= 255
  {
    Bytes(ip);
    Byte(ip / 0x100);
    Byte(ip / 0x1_0000);
  }

  lemma SpecialInUnits(a: nat, b: nat, c: nat, v: nat, w: nat)
    requires a <= 255 && b <= 255 && c <= 255 && v == 256 * a + b && w == 0x1_0000 * a + 256 * b + c
    ensures IsSpecial(a, b, c) <==> exists i: nat :: i < SPECIAL_COUNT && InUnits(i, a, v, w)
  {
    if IsSpecial(a, b, c) {
      assert InUnits(0, a, v, w) || InUnits(1, a, v, w) || InUnits(2, a, v, w) || InUnits(3, a, v, w)
          || InUnits(4, a, v, w) || InUnits(5, a, v, w) || InUnits(6, a, v, w) || InUnits(7, a, v, w)
          || InUnits(8, a, v, w) || InUnits(9, a, v, w) || InUnits(10, a, v, w) || InUnits(11, a, v, w)
          || InUnits(12, a, v, w) || InUnits(13, a, v, w) || InUnits(14, a, v, w);
    }
  }

  /** An address is global unicast exactly when its octets are none of these. */
  lemma SpecialByOctets(ip: Addr)
    ensures var o := Octets(ip); IsGlobalUnicast(ip) <==> !IsSpecial(o[0], o[1], o[2])
  {
    var o := Octets(ip);
    UnitsOfOctets(ip);
    SpecialInUnits(o[0], o[1], o[2], ip / 0x1_0000, ip / 0x100);
    GlobalUnicastIsComplement(ip);
    forall i: nat | i < SPECIAL_COUNT
      ensures InInterval(ip, SpecialRange(i)) <==> InUnits(i, ip / 0x100_0000, ip / 0x1_0000, ip / 0x100)
    {
      IntervalInUnits(ip, i);
    }
  }
}
