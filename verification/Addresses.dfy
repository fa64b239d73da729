/** IP addresses and networks as the bit strings Go keeps in net.IP and net.IPNet. */
module Addresses {

  /** 32 bits, or 128 bits; the latter may hold a mapped IPv4 address. */
  type Bits = seq<bool>

  ghost predicate IsAddress(ip: Bits) {
    |ip| == 32 || |ip| == 128
  }

  function Fill(bit: bool, n: nat): (r: Bits)
    ensures |r| == n && forall i :: 0 <= i < n ==> r[i] == bit
  {
    seq(n, i => bit)
  }

  /** The prefix of IPv4-mapped addresses (section 2.5.5.2 of RFC 4291). */
  function MappedPrefix(): (r: Bits)
    ensures |r| == 96
  {
    Fill(false, 80) + Fill(true, 16)
  }

  predicate IsMapped(ip: Bits) {
    |ip| == 128 && ip[..96] == MappedPrefix()
  }

  /** normalizeIP: mapped addresses shrink to their 32 bits. */
  function Normalize(ip: Bits): (r: Bits)
    ensures IsAddress(ip) ==> IsAddress(r) && !IsMapped(r)
    ensures !IsMapped(ip) ==> r == ip
  {
    if IsMapped(ip) then ip[96..] else ip
  }

  /** net.CIDRMask. */
  function CidrMask(ones: nat, width: nat): (m: Bits)
    ensures |m| == width && forall i :: 0 <= i < width ==> m[i] == (i < ones)
  {
    seq(width, i => i < ones)
  }

  function And(a: Bits, b: Bits): (r: Bits)
    requires |a| == |b|
    ensures |r| == |a| && forall i :: 0 <= i < |a| ==> r[i] == (a[i] && b[i])
  {
    seq(|a|, i requires 0 <= i < |a| => a[i] && b[i])
  }

  /** net.IPNet. */
  datatype Network = Network(ip: Bits, mask: Bits)

  /** networkNumberAndMask: the number and mask that count, both of one width; a mapped
      or 32-bit number under a 128-bit mask is judged by the mask's last 32 bits. */
  function NumberAndMask(n: Network): (r: (Bits, Bits)) {
    var nn := Normalize(n.ip);
    if |nn| == 32 && |n.mask| == 128 then (nn, n.mask[96..]) else (nn, n.mask)
  }

  /** IPNet.Contains: the masked bits agree. */
  predicate Contains(n: Network, ip: Bits) {
    var (nn, m) := NumberAndMask(n);
    var x := Normalize(ip);
    |nn| == |m| && |x| == |nn| && And(nn, m) == And(x, m)
  }

  /** Masking by a CIDR mask compares exactly the leading bits (section 3.1 of RFC 4632). */
  lemma MaskingComparesPrefixes(a: Bits, b: Bits, ones: nat)
    requires |a| == |b| && ones <= |a|
    ensures And(a, CidrMask(ones, |a|)) == And(b, CidrMask(ones, |a|)) <==> a[..ones] == b[..ones]
  {
    var m := CidrMask(ones, |a|);
    if And(a, m) == And(b, m) {
      forall i | 0 <= i < ones ensures a[..ones][i] == b[..ones][i] {
        assert And(a, m)[i] == And(b, m)[i];
      }
    }
    if a[..ones] == b[..ones] {
      forall i | 0 <= i < |a| ensures And(a, m)[i] == And(b, m)[i] {
        if i < ones {
          assert a[..ones][i] == b[..ones][i];
        }
      }
    }
  }

  lemma ContainsByPrefix(n: Network, ones: nat, ip: Bits)
    requires n.mask == CidrMask(ones, |n.mask|) && |n.mask| == |n.ip| && ones <= |n.ip| && !IsMapped(n.ip)
    ensures Contains(n, ip) <==> |Normalize(ip)| == |n.ip| && Normalize(ip)[..ones] == n.ip[..ones]
  {
    if |Normalize(ip)| == |n.ip| {
      MaskingComparesPrefixes(n.ip, Normalize(ip), ones);
    }
  }

  // ---------------------------------------------------------------------
  // Entries of a provider list
  // ---------------------------------------------------------------------

  /** What net.ParseCIDR, and after it net.ParseIP, make of a listed value. Addresses come
      in 16 bytes; a dotted CIDR has a 32-bit mask. */
  datatype ListedValue = Cidr(ip: Bits, ones: nat, width: nat) | Single(ip: Bits) | Malformed

  ghost predicate IsListed(v: ListedValue) {
    match v
    case Cidr(ip, ones, width) =>
      |ip| == 128 && ones <= width && (width == 128 || (width == 32 && IsMapped(ip)))
    case Single(ip) => |ip| == 128
    case Malformed => true
  }

  /** IP.Mask. */
  function Masked(ip: Bits, mask: Bits): Bits {
    if |mask| == 32 && IsMapped(ip) then And(ip[96..], mask)
    else if |mask| == |ip| then And(ip, mask)
    else []
  }

  function NetworkOf(v: ListedValue): Network {
    match v
    case Cidr(ip, ones, width) => Network(Normalize(Masked(ip, CidrMask(ones, width))), CidrMask(ones, width))
    case Single(ip) => var n := Normalize(ip); Network(n, CidrMask(|n|, |n|))
    case Malformed => Network([], [])
  }

  /** The width of the addresses a listed value stands for, and their leading bits. */
  function Width(v: ListedValue): nat {
    match v
    case Cidr(a, ones, width) => if width == 32 || (IsMapped(a) && ones >= 96) then 32 else 128
    case Single(a) => |Normalize(a)|
    case Malformed => 0
  }

  ghost function LeadingBits(v: ListedValue): Bits
    requires IsListed(v)
  {
    match v
    case Cidr(a, ones, width) =>
      if width == 32 then a[96..][..ones]
      else if IsMapped(a) && ones >= 96 then a[96..ones]
      else a[..ones]
    case Single(a) => Normalize(a)
    case Malformed => []
  }

  /** The addresses a listed value stands for. */
  ghost predicate Covers(v: ListedValue, ip: Bits)
    requires IsListed(v)
  {
    !v.Malformed? && |Normalize(ip)| == Width(v) && LeadingBits(v) <= Normalize(ip)
  }

  lemma AndTake(a: Bits, ones: nat)
    requires ones <= |a|
    ensures And(a, CidrMask(ones, |a|))[..ones] == a[..ones]
  {}

  /** The stored network answers for exactly the listed addresses. */
  lemma NetworkMeansListing(v: ListedValue, ip: Bits)
    requires IsListed(v) && !v.Malformed? && IsAddress(ip)
    ensures Contains(NetworkOf(v), ip) <==> Covers(v, ip)
  {
    match v
    case Single(a) =>
      var n := Normalize(a);
      ContainsByPrefix(NetworkOf(v), |n|, ip);
      assert n[..|n|] == n;
      assert Normalize(ip)[..|Normalize(ip)|] == Normalize(ip);
    case Cidr(a, ones, width) =>
      if width == 32 {
        AndTake(a[96..], ones);
        ContainsByPrefix(NetworkOf(v), ones, ip);
      } else {
        WideNetworkMeansListing(a, ones, ip);
      }
  }

  lemma WideNetworkMeansListing(a: Bits, ones: nat, ip: Bits)
    requires |a| == 128 && ones <= 128 && IsAddress(ip)
    ensures Contains(NetworkOf(Cidr(a, ones, 128)), ip) <==> Covers(Cidr(a, ones, 128), ip)
  {
    var mask := CidrMask(ones, 128);
    var m := And(a, mask);
    MaskedIsMapped(a, ones);
    if IsMapped(m) {
      var low := CidrMask(ones - 96, 32);
      assert mask[96..] == low;
      assert m[96..] == And(a[96..], low);
      AndTake(a[96..], ones - 96);
      if |Normalize(ip)| == 32 {
        MaskingComparesPrefixes(m[96..], Normalize(ip), ones - 96);
      }
      assert NumberAndMask(Network(m[96..], mask)) == (m[96..], low);
    } else {
      AndTake(a, ones);
      ContainsByPrefix(Network(m, mask), ones, ip);
    }
  }

  /** Masking keeps the mapped prefix only when it covers all of it. */
  lemma MaskedIsMapped(a: Bits, ones: nat)
    requires |a| == 128 && ones <= 128
    ensures IsMapped(And(a, CidrMask(ones, 128))) <==> IsMapped(a) && ones >= 96
  {
    var m := And(a, CidrMask(ones, 128));
    assert MappedPrefix()[95];
    if IsMapped(m) {
      assert m[..96][95];
      assert m[95];
      assert ones >= 96;
      assert m[..96] == a[..96];
    }
    if IsMapped(a) && ones >= 96 {
      assert m[..96] == a[..96];
    }
  }

  // ---------------------------------------------------------------------
  // Public addresses
  // ---------------------------------------------------------------------

  function Byte(n: nat): Bits {
    [n / 128 % 2 == 1, n / 64 % 2 == 1, n / 32 % 2 == 1, n / 16 % 2 == 1,
     n / 8 % 2 == 1, n / 4 % 2 == 1, n / 2 % 2 == 1, n % 2 == 1]
  }

  /** The blocks publicProviderIP turns away, as leading bits: broadcast, unspecified,
      loopback, multicast, link-local and private. */
  function Reserved(width: nat): seq<Bits> {
    if width == 32 then
      [Fill(true, 32), Fill(false, 32), Byte(127), Byte(224)[..4], Byte(169) + Byte(254),
       Byte(10), Byte(172) + Byte(16)[..4], Byte(192) + Byte(168)]
    else
      [Fill(false, 128), Fill(false, 127) + [true], Byte(255), Byte(254) + Byte(128)[..2], Byte(252)[..7]]
  }

  /** publicProviderIP. */
  predicate Public(ip: Bits) {
    (|ip| == 32 || |ip| == 128) && forall k :: 0 <= k < |Reserved(|ip|)| ==> !(Reserved(|ip|)[k] <= ip)
  }

  /** The check looks at the base address only. A listed value that passes it stands for
      none but public addresses exactly when its leading bits lead to no reserved block. */
  lemma PublicBaseMeansPublicRange(v: ListedValue)
    requires IsListed(v) && !v.Malformed? && Public(NetworkOf(v).ip)
    ensures (forall ip: Bits :: IsAddress(ip) && Covers(v, ip) ==> Public(Normalize(ip)))
            <==> forall k :: 0 <= k < |Reserved(Width(v))| ==> !(LeadingBits(v) <= Reserved(Width(v))[k])
  {
    var lead, blocks := LeadingBits(v), Reserved(Width(v));
    BaseIsCovered(v);
    if forall k :: 0 <= k < |blocks| ==> !(lead <= blocks[k]) {
      forall ip: Bits | IsAddress(ip) && Covers(v, ip) ensures Public(Normalize(ip)) {
        PublicThroughout(NetworkOf(v).ip, lead, Normalize(ip));
      }
    }
    if k :| 0 <= k < |blocks| && lead <= blocks[k] {
      var x := AddressIn(Width(v), k);
      assert Covers(v, x);
    }
  }

  /** The base address of the stored network is one of those the value stands for. */
  lemma BaseIsCovered(v: ListedValue)
    requires IsListed(v) && !v.Malformed?
    ensures |NetworkOf(v).ip| == Width(v) && (Width(v) == 32 || Width(v) == 128)
    ensures LeadingBits(v) <= NetworkOf(v).ip
  {
    if v.Cidr? {
      if v.width == 32 {
        AndTake(v.ip[96..], v.ones);
      } else {
        MaskedIsMapped(v.ip, v.ones);
        AndTake(v.ip, v.ones);
        if v.ones >= 96 {
          WideBaseIsCovered(v.ip, v.ones);
        }
      }
    }
  }

  lemma WideBaseIsCovered(a: Bits, ones: nat)
    requires |a| == 128 && 96 <= ones <= 128
    ensures a[96..ones] <= And(a, CidrMask(ones, 128))[96..]
  {
    var m := And(a, CidrMask(ones, 128));
    forall i | 0 <= i < ones - 96 ensures m[96..][i] == a[96..ones][i] {
      assert m[96 + i] == a[96 + i];
    }
  }

  /** It is the lowest of them: the leading bits and then zeros. */
  lemma BaseIsLowest(v: ListedValue)
    requires IsListed(v) && !v.Malformed?
    ensures |LeadingBits(v)| <= Width(v)
    ensures NetworkOf(v).ip == LeadingBits(v) + Fill(false, Width(v) - |LeadingBits(v)|)
  {
    match v
    case Single(a) =>
      assert Normalize(a) == Normalize(a) + Fill(false, 0);
    case Cidr(a, ones, width) =>
      if width == 32 {
        MaskedIsLead(a[96..], ones);
      } else {
        MaskedIsMapped(a, ones);
        MaskedIsLead(a, ones);
        if IsMapped(a) && ones >= 96 {
          assert (a[..ones] + Fill(false, 128 - ones))[96..] == a[96..ones] + Fill(false, 128 - ones);
        }
      }
  }

  lemma MaskedIsLead(a: Bits, ones: nat)
    requires ones <= |a|
    ensures And(a, CidrMask(ones, |a|)) == a[..ones] + Fill(false, |a| - ones)
  {}

  lemma PublicThroughout(base: Bits, lead: Bits, x: Bits)
    requires Public(base) && |x| == |base| && lead <= base && lead <= x
    requires forall k :: 0 <= k < |Reserved(|base|)| ==> !(lead <= Reserved(|base|)[k])
    ensures Public(x)
  {
    forall k | 0 <= k < |Reserved(|base|)| ensures !(Reserved(|base|)[k] <= x) {
      NestedOrApart(base, x, |lead|, Reserved(|base|)[k]);
    }
  }

  /** An address of a reserved block, and not a mapped one. */
  lemma AddressIn(width: nat, k: nat) returns (x: Bits)
    requires (width == 32 || width == 128) && k < |Reserved(width)|
    ensures |x| == width && Reserved(width)[k] <= x && Normalize(x) == x && IsAddress(x)
    ensures !Public(x)
  {
    var b := Reserved(width)[k];
    BlocksFit(width);
    x := b + Fill(false, width - |b|);
    assert b <= x;
    if width == 128 {
      BlocksAreNotMapped(k, x);
    }
  }

  lemma BlocksAreNotMapped(k: nat, x: Bits)
    requires k < |Reserved(128)| && |x| == 128 && Reserved(128)[k] <= x
    ensures !IsMapped(x)
  {
    var b := Reserved(128)[k];
    assert !MappedPrefix()[0] && MappedPrefix()[80];
    assert k < 2 ==> !b[80];
    assert k >= 2 ==> b[0];
    assert x[0] == b[0] && x[..96][0] == x[0] && x[..96][80] == x[80];
    assert k < 2 ==> x[80] == b[80];
  }

  lemma BlocksFit(width: nat)
    requires width == 32 || width == 128
    ensures forall k :: 0 <= k < |Reserved(width)| ==> |Reserved(width)[k]| <= width
  {}

  /** Two blocks that share an address are nested. */
  lemma NestedOrApart(nn: Bits, x: Bits, ones: nat, b: Bits)
    requires |x| == |nn| && ones <= |nn| && x[..ones] == nn[..ones]
    ensures b <= x ==> b <= nn || nn[..ones] <= b
  {
    if b <= x {
      if |b| <= ones {
        assert b == x[..ones][..|b|];
        assert nn[..ones][..|b|] == nn[..|b|];
      } else {
        assert x[..ones] == b[..ones];
      }
    }
  }

  /** An IPv4 address as the 16 bytes the parsers return. */
  function Dotted(a: nat, b: nat, c: nat, d: nat): (r: Bits)
    ensures IsMapped(r) && Normalize(r) == Byte(a) + Byte(b) + Byte(c) + Byte(d)
  {
    var low := Byte(a) + Byte(b) + Byte(c) + Byte(d);
    assert (MappedPrefix() + low)[..96] == MappedPrefix();
    assert (MappedPrefix() + low)[96..] == low;
    MappedPrefix() + low
  }

  // ---------------------------------------------------------------------
  // The public addresses by their numbers
  // ---------------------------------------------------------------------

  function Bit(b: bool): nat {
    if b then 1 else 0
  }

  /** The bits of a byte, most significant first. */
  lemma ByteMeaning(n: nat)
    requires n < 256
    ensures var b := Byte(n);
            n == 128 * Bit(b[0]) + 64 * Bit(b[1]) + 32 * Bit(b[2]) + 16 * Bit(b[3])
                 + 8 * Bit(b[4]) + 4 * Bit(b[5]) + 2 * Bit(b[6]) + Bit(b[7])
  {
    Quarters(n);
    Sixteenths(n);
    OneBit(n, n / 2);
    OneBit(n / 2, n / 4);
    OneBit(n / 4, n / 8);
    OneBit(n / 8, n / 16);
    OneBit(n / 16, n / 32);
    OneBit(n / 32, n / 64);
    OneBit(n / 64, n / 128);
    OneBit(n / 128, 0);
    BitsAddUp(n, n / 2, n / 4, n / 8, n / 16, n / 32, n / 64, n / 128, Byte(n));
  }

  lemma Quarters(n: nat)
    ensures n / 4 == n / 2 / 2 && n / 8 == n / 4 / 2 && n / 16 == n / 8 / 2
  {}

  lemma Sixteenths(n: nat)
    ensures n / 32 == n / 16 / 2 && n / 64 == n / 32 / 2 && n / 128 == n / 64 / 2
    ensures n < 256 ==> n / 128 / 2 == 0
  {}

  lemma OneBit(n: nat, half: nat)
    requires half == n / 2
    ensures n == 2 * half + Bit(n % 2 == 1)
  {}

  lemma BitsAddUp(n: nat, n2: nat, n4: nat, n8: nat, n16: nat, n32: nat, n64: nat, n128: nat, b: Bits)
    requires |b| == 8 && n == 2 * n2 + Bit(b[7]) && n2 == 2 * n4 + Bit(b[6]) && n4 == 2 * n8 + Bit(b[5])
    requires n8 == 2 * n16 + Bit(b[4]) && n16 == 2 * n32 + Bit(b[3]) && n32 == 2 * n64 + Bit(b[2])
    requires n64 == 2 * n128 + Bit(b[1]) && n128 == Bit(b[0])
    ensures n == 128 * Bit(b[0]) + 64 * Bit(b[1]) + 32 * Bit(b[2]) + 16 * Bit(b[3])
                 + 8 * Bit(b[4]) + 4 * Bit(b[5]) + 2 * Bit(b[6]) + Bit(b[7])
  {}

  lemma EqualBytes(m: nat, n: nat)
    requires m < 256 && n < 256
    ensures Byte(m) == Byte(n) <==> m == n
  {
    ByteMeaning(m);
    ByteMeaning(n);
  }

  /** A leading half byte fixes the number up to 15. */
  lemma HighHalf(m: nat, n: nat)
    requires m < 256 && n < 256 && m % 16 == 0
    ensures Byte(m)[..4] <= Byte(n) <==> m <= n <= m + 15
  {
    ByteMeaning(m);
    ByteMeaning(n);
    LowHalfIsEmpty(Byte(m), m);
    HalvesAgree(Byte(m), Byte(n));
    HalfByValue(Byte(m), Byte(n), m, n);
  }

  lemma HalvesAgree(p: Bits, q: Bits)
    requires |p| == |q| == 8
    ensures p[..4] <= q <==> p[0] == q[0] && p[1] == q[1] && p[2] == q[2] && p[3] == q[3]
  {
    assert p[..4] == [p[0], p[1], p[2], p[3]] && q[..4] == [q[0], q[1], q[2], q[3]];
    assert p[..4] <= q <==> p[..4] == q[..4];
  }

  lemma HalfByValue(p: Bits, q: Bits, m: nat, n: nat)
    requires |p| == |q| == 8 && m == 128 * Bit(p[0]) + 64 * Bit(p[1]) + 32 * Bit(p[2]) + 16 * Bit(p[3])
    requires n == 128 * Bit(q[0]) + 64 * Bit(q[1]) + 32 * Bit(q[2]) + 16 * Bit(q[3])
                  + 8 * Bit(q[4]) + 4 * Bit(q[5]) + 2 * Bit(q[6]) + Bit(q[7])
    ensures m <= n <= m + 15 <==> p[0] == q[0] && p[1] == q[1] && p[2] == q[2] && p[3] == q[3]
  {}

  lemma LowHalfIsEmpty(p: Bits, m: nat)
    requires |p| == 8 && m % 16 == 0
    requires m == 128 * Bit(p[0]) + 64 * Bit(p[1]) + 32 * Bit(p[2]) + 16 * Bit(p[3])
                  + 8 * Bit(p[4]) + 4 * Bit(p[5]) + 2 * Bit(p[6]) + Bit(p[7])
    ensures m == 128 * Bit(p[0]) + 64 * Bit(p[1]) + 32 * Bit(p[2]) + 16 * Bit(p[3])
  {
    var low := 8 * Bit(p[4]) + 4 * Bit(p[5]) + 2 * Bit(p[6]) + Bit(p[7]);
    assert m == 16 * (8 * Bit(p[0]) + 4 * Bit(p[1]) + 2 * Bit(p[2]) + Bit(p[3])) + low && 0 <= low < 16;
  }

  lemma ShortPrefix(p: Bits, first: Bits, rest: Bits)
    requires |p| <= |first|
    ensures p <= first + rest <==> p <= first
  {
    assert (first + rest)[..|p|] == first[..|p|];
  }

  lemma LongPrefix(first: Bits, p: Bits, a: Bits, rest: Bits)
    requires |first| == |a|
    ensures first + p <= a + rest <==> first == a && p <= rest
  {
    if first + p <= a + rest {
      assert (first + p)[..|a|] == (a + rest)[..|a|];
      assert (first + p)[|a|..] == p && (a + rest)[|a|..] == rest;
      assert (a + rest)[..|first + p|][|a|..] == rest[..|p|];
    }
    if first == a && p <= rest {
      assert rest == p + rest[|p|..];
      assert a + rest == (first + p) + rest[|p|..];
    }
  }

  function Quad(a: nat, b: nat, c: nat, d: nat): (r: Bits)
    ensures |r| == 32
  {
    Byte(a) + (Byte(b) + (Byte(c) + Byte(d)))
  }

  lemma EqualQuads(n: nat, a: nat, b: nat, c: nat, d: nat)
    requires n < 256 && a < 256 && b < 256 && c < 256 && d < 256
    ensures Quad(n, n, n, n) <= Quad(a, b, c, d) <==> a == b == c == d == n
  {
    LongPrefix(Byte(n), Byte(n) + (Byte(n) + Byte(n)), Byte(a), Byte(b) + (Byte(c) + Byte(d)));
    LongPrefix(Byte(n), Byte(n) + Byte(n), Byte(b), Byte(c) + Byte(d));
    LongPrefix(Byte(n), Byte(n), Byte(c), Byte(d));
    EqualBytes(n, a);
    EqualBytes(n, b);
    EqualBytes(n, c);
    EqualBytes(n, d);
    assert Byte(n) <= Byte(d) <==> Byte(n) == Byte(d) by {
      assert Byte(d)[..8] == Byte(d);
    }
  }

  lemma FullByte(n: nat, a: nat, rest: Bits)
    requires n < 256 && a < 256
    ensures Byte(n) <= Byte(a) + rest <==> a == n
  {
    ShortPrefix(Byte(n), Byte(a), rest);
    EqualBytes(n, a);
    assert Byte(a)[..8] == Byte(a);
  }

  lemma FillsAreQuads()
    ensures Fill(true, 32) == Quad(255, 255, 255, 255) && Fill(false, 32) == Quad(0, 0, 0, 0)
  {
    assert Byte(255) == Fill(true, 8) && Byte(0) == Fill(false, 8);
    assert Fill(true, 8) + (Fill(true, 8) + (Fill(true, 8) + Fill(true, 8))) == Fill(true, 32);
    assert Fill(false, 8) + (Fill(false, 8) + (Fill(false, 8) + Fill(false, 8))) == Fill(false, 32);
  }

  /** The verdict on an IPv4 address, number by number: all but the unspecified and the
      broadcast address, loopback, multicast, link-local and the three private blocks. */
  lemma PublicByNumbers(a: nat, b: nat, c: nat, d: nat)
    requires a < 256 && b < 256 && c < 256 && d < 256
    ensures Public(Normalize(Dotted(a, b, c, d))) <==>
            !( (a == 0 && b == 0 && c == 0 && d == 0)
             || (a == 255 && b == 255 && c == 255 && d == 255)
             || a == 127 || 224 <= a <= 239 || (a == 169 && b == 254)
             || a == 10 || (a == 172 && 16 <= b <= 31) || (a == 192 && b == 168))
  {
    var x := Quad(a, b, c, d);
    QuadIsDotted(a, b, c, d);
    FillsAreQuads();
    EqualQuads(255, a, b, c, d);
    EqualQuads(0, a, b, c, d);
    SingleBlocks(a, Byte(b) + (Byte(c) + Byte(d)));
    DoubleBlocks(a, b, Byte(c) + Byte(d));
    PublicByBlocks(x);
  }

  lemma QuadIsDotted(a: nat, b: nat, c: nat, d: nat)
    ensures Normalize(Dotted(a, b, c, d)) == Quad(a, b, c, d)
  {}

  lemma PublicByBlocks(x: Bits)
    requires |x| == 32
    ensures Public(x) <==>
            !( Fill(true, 32) <= x || Fill(false, 32) <= x || Byte(127) <= x || Byte(224)[..4] <= x
             || Byte(169) + Byte(254) <= x || Byte(10) <= x || Byte(172) + Byte(16)[..4] <= x
             || Byte(192) + Byte(168) <= x)
  {
    var blocks := Reserved(32);
    assert |blocks| == 8;
    assert blocks[0] == Fill(true, 32) && blocks[1] == Fill(false, 32) && blocks[2] == Byte(127);
    assert blocks[3] == Byte(224)[..4] && blocks[4] == Byte(169) + Byte(254) && blocks[5] == Byte(10);
    assert blocks[6] == Byte(172) + Byte(16)[..4] && blocks[7] == Byte(192) + Byte(168);
  }

  lemma SingleBlocks(a: nat, rest: Bits)
    requires a < 256
    ensures Byte(127) <= Byte(a) + rest <==> a == 127
    ensures Byte(10) <= Byte(a) + rest <==> a == 10
    ensures Byte(224)[..4] <= Byte(a) + rest <==> 224 <= a <= 239
  {
    FullByte(127, a, rest);
    FullByte(10, a, rest);
    ShortPrefix(Byte(224)[..4], Byte(a), rest);
    HighHalf(224, a);
  }

  lemma DoubleBlocks(a: nat, b: nat, rest: Bits)
    requires a < 256 && b < 256
    ensures Byte(169) + Byte(254) <= Byte(a) + (Byte(b) + rest) <==> a == 169 && b == 254
    ensures Byte(172) + Byte(16)[..4] <= Byte(a) + (Byte(b) + rest) <==> a == 172 && 16 <= b <= 31
    ensures Byte(192) + Byte(168) <= Byte(a) + (Byte(b) + rest) <==> a == 192 && b == 168
  {
    LongPrefix(Byte(169), Byte(254), Byte(a), Byte(b) + rest);
    LongPrefix(Byte(172), Byte(16)[..4], Byte(a), Byte(b) + rest);
    LongPrefix(Byte(192), Byte(168), Byte(a), Byte(b) + rest);
    EqualBytes(169, a);
    EqualBytes(172, a);
    EqualBytes(192, a);
    FullByte(254, b, rest);
    FullByte(168, b, rest);
    ShortPrefix(Byte(16)[..4], Byte(b), rest);
    HighHalf(16, b);
  }

  /** The verdict on a 128-bit address by its leading bits: all but ::, ::1, ff00::/8,
      fe80::/10 and fc00::/7. */
  lemma PublicByLeadingBits(ip: Bits)
    requires |ip| == 128
    ensures Public(ip) <==>
            !( (forall i :: 0 <= i < 128 ==> !ip[i])
             || (ip[127] && forall i :: 0 <= i < 127 ==> !ip[i])
             || ip[..8] == [true, true, true, true, true, true, true, true]
             || ip[..10] == [true, true, true, true, true, true, true, false, true, false]
             || ip[..7] == [true, true, true, true, true, true, false])
  {
    var blocks := Reserved(128);
    assert blocks[0] <= ip <==> forall i :: 0 <= i < 128 ==> !ip[i] by {
      assert ip[..128] == ip;
    }
    assert blocks[1] <= ip <==> (ip[127] && forall i :: 0 <= i < 127 ==> !ip[i]) by {
      assert ip[..128] == ip;
      LastBit(ip);
    }
    assert blocks[2] == [true, true, true, true, true, true, true, true];
    assert blocks[3] == [true, true, true, true, true, true, true, false, true, false];
    assert blocks[4] == [true, true, true, true, true, true, false];
  }

  lemma LastBit(ip: Bits)
    requires |ip| == 128
    ensures Fill(false, 127) + [true] == ip <==> (ip[127] && forall i :: 0 <= i < 127 ==> !ip[i])
  {
    var one := Fill(false, 127) + [true];
    assert one[127] && forall i :: 0 <= i < 127 ==> !one[i];
  }

  /** The mapped form of an IPv4 address, byte by byte. */
  lemma MappedBytes(a: nat, b: nat, c: nat, d: nat)
    ensures Dotted(a, b, c, d)[..80] == Fill(false, 80) && Dotted(a, b, c, d)[80..96] == Fill(true, 16)
    ensures Dotted(a, b, c, d)[96..] == Byte(a) + Byte(b) + Byte(c) + Byte(d)
  {
    var x := Dotted(a, b, c, d);
    assert x[..80] == x[..96][..80] && x[80..96] == x[..96][80..];
  }

  /** 8.0.0.0/5 passes the check although 10.0.0.1 lies inside it. */
  lemma ListedRangeMayHoldPrivateAddresses()
    ensures var v := Cidr(Dotted(8, 0, 0, 0), 5, 32);
            IsListed(v) && Public(NetworkOf(v).ip)
            && Covers(v, Dotted(10, 0, 0, 1)) && !Public(Normalize(Dotted(10, 0, 0, 1)))
  {
    var v := Cidr(Dotted(8, 0, 0, 0), 5, 32);
    BaseIsLowest(v);
    EightAndTen();
    PublicByNumbers(8, 0, 0, 0);
    PublicByNumbers(10, 0, 0, 1);
  }

  lemma EightAndTen()
    ensures LeadingBits(Cidr(Dotted(8, 0, 0, 0), 5, 32)) == FiveBits()
    ensures FiveBits() + Fill(false, 27) == Normalize(Dotted(8, 0, 0, 0))
    ensures FiveBits() <= Normalize(Dotted(10, 0, 0, 1))
  {
    FirstFive();
    LeadOfQuad(8, 0, 0, 0);
    LeadOfQuad(10, 0, 0, 1);
    QuadIsDotted(8, 0, 0, 0);
    QuadIsDotted(10, 0, 0, 1);
    LowBytes();
  }

  lemma FirstFive()
    ensures Byte(8)[..5] == FiveBits() && Byte(10)[..5] == FiveBits()
    ensures FiveBits() + Fill(false, 27) == Byte(8) + Fill(false, 24)
  {
    EightByBits();
    assert Byte(8) == FiveBits() + Fill(false, 3);
    assert Fill(false, 3) + Fill(false, 24) == Fill(false, 27);
  }

  lemma EightByBits()
    ensures Byte(8) == [false, false, false, false, true, false, false, false]
    ensures Byte(10) == [false, false, false, false, true, false, true, false]
  {}

  function FiveBits(): Bits {
    [false, false, false, false, true]
  }

  lemma LeadOfQuad(a: nat, b: nat, c: nat, d: nat)
    ensures Quad(a, b, c, d)[..5] == Byte(a)[..5] && Dotted(a, b, c, d)[96..][..5] == Byte(a)[..5]
  {
    MappedBytes(a, b, c, d);
    assert (Byte(a) + Byte(b) + Byte(c) + Byte(d))[..5] == Byte(a)[..5];
  }

  lemma LowBytes()
    ensures Quad(8, 0, 0, 0) == Byte(8) + Fill(false, 24)
  {
    assert Byte(0) == Fill(false, 8);
    assert Fill(false, 8) + (Fill(false, 8) + Fill(false, 8)) == Fill(false, 24);
  }
}
