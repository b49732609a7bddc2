/** Trusted peers as CIDR blocks (crates/core/src/net.rs:11-134): the masked 128-bit comparison, against
    section 3.1 of RFC 4632 and the IPv4-mapped block of section 2.5.5.2 of RFC 4291. */
module Net {
  import opened Wrappers

  function Pow2(n: nat): nat {
    if n == 0 then 1 else 2 * Pow2(n - 1)
  }

  // ---------- Machine words of a given width ----------

  /** `&` on two words of `w` bits. */
  function And(a: nat, b: nat, w: nat): nat {
    if w == 0 then 0 else 2 * And(a / 2, b / 2, w - 1) + (a % 2) * (b % 2)
  }

  /** `<<` on a 128-bit word: what is shifted out is lost. */
  function Shl128(a: nat, places: nat): nat {
    PowersArePositive(128);
    (a * Pow2(places)) % Pow2(128)
  }

  /** The word without its last `k` bits. */
  function Shr(a: nat, k: nat): nat {
    if k == 0 then a else Shr(a / 2, k - 1)
  }

  /** Bit `i`, counting from the least significant. */
  function Bit(a: nat, i: nat): nat {
    Shr(a, i) % 2
  }

  lemma {:induction false} PowersArePositive(n: nat)
    ensures Pow2(n) > 0
  {
    if n > 0 { PowersArePositive(n - 1); }
  }

  lemma {:induction false} PowersAdd(m: nat, n: nat)
    ensures Pow2(m + n) == Pow2(m) * Pow2(n)
  {
    if m > 0 {
      PowersAdd(m - 1, n);
      Double(Pow2(m - 1), Pow2(n));
    }
  }

  lemma Double(a: nat, b: nat)
    ensures 2 * (a * b) == (2 * a) * b
  {}

  lemma {:induction false} ShrAdds(a: nat, j: nat, k: nat)
    ensures Shr(Shr(a, j), k) == Shr(a, j + k)
  {
    if j > 0 { ShrAdds(a / 2, j - 1, k); }
  }

  /** A shifted word is an interval. */
  lemma {:induction false} ShrIsInterval(a: nat, k: nat, q: nat)
    ensures Shr(a, k) == q <==> q * Pow2(k) <= a < q * Pow2(k) + Pow2(k)
  {
    if k > 0 {
      ShrIsInterval(a / 2, k - 1, q);
      var p := Pow2(k - 1);
      assert q * Pow2(k) == 2 * (q * p) by { Double(p, q); assert q * (2 * p) == (2 * p) * q && q * p == p * q; }
    } else {
      assert q * Pow2(0) == q;
    }
  }

  /** Two words share their bits from `k` up exactly when they are equal once the rest is dropped. */
  lemma {:induction false} ShrIsLeadingBits(a: nat, b: nat, k: nat, w: nat)
    requires k <= w && a < Pow2(w) && b < Pow2(w)
    ensures Shr(a, k) == Shr(b, k) <==> forall i :: k <= i < w ==> Bit(a, i) == Bit(b, i)
    decreases w - k
  {
    if k == w {
      ShrIsInterval(a, w, 0);
      ShrIsInterval(b, w, 0);
    } else {
      ShrIsLeadingBits(a, b, k + 1, w);
      ShrAdds(a, k, 1);
      ShrAdds(b, k, 1);
      assert Shr(a, k + 1) == Shr(a, k) / 2 && Shr(b, k + 1) == Shr(b, k) / 2;
      assert Shr(a, k) == 2 * (Shr(a, k) / 2) + Bit(a, k) && Shr(b, k) == 2 * (Shr(b, k) / 2) + Bit(b, k);
      assert (forall i :: k <= i < w ==> Bit(a, i) == Bit(b, i))
             <==> Bit(a, k) == Bit(b, k) && forall i :: k + 1 <= i < w ==> Bit(a, i) == Bit(b, i);
    }
  }

  lemma {:induction false} AndAllOnes(a: nat, w: nat)
    requires a < Pow2(w)
    ensures Pow2(w) >= 1 && And(a, Pow2(w) - 1, w) == a
  {
    PowersArePositive(w);
    if w > 0 {
      var m := Pow2(w) - 1;
      AndAllOnes(a / 2, w - 1);
      assert m / 2 == Pow2(w - 1) - 1 && m % 2 == 1;
      assert And(a, m, w) == 2 * And(a / 2, m / 2, w - 1) + (a % 2) * (m % 2);
    }
  }

  lemma {:induction false} PowersGrow(k: nat, w: nat)
    requires k <= w
    ensures 1 <= Pow2(k) <= Pow2(w)
  {
    PowersArePositive(k);
    if k < w { PowersGrow(k, w - 1); }
  }

  /** Masking with ones followed by `k` zeros clears the last `k` bits. */
  lemma {:induction false} AndOfMask(a: nat, k: nat, w: nat)
    requires k <= w && a < Pow2(w)
    ensures Pow2(k) <= Pow2(w)
    ensures And(a, Pow2(w) - Pow2(k), w) == Shr(a, k) * Pow2(k)
  {
    PowersGrow(k, w);
    if k == 0 {
      AndAllOnes(a, w);
      assert Shr(a, 0) * Pow2(0) == a;
    } else {
      var m := Pow2(w) - Pow2(k);
      AndOfMask(a / 2, k - 1, w - 1);
      HalfOfMask(k, w);
      assert And(a, m, w) == 2 * And(a / 2, m / 2, w - 1) + (a % 2) * (m % 2);
      TwiceScaled(Shr(a / 2, k - 1), Pow2(k - 1));
    }
  }

  lemma HalfOfMask(k: nat, w: nat)
    requires 0 < k <= w && Pow2(k) <= Pow2(w)
    ensures var m := Pow2(w) - Pow2(k); m / 2 == Pow2(w - 1) - Pow2(k - 1) && m % 2 == 0
  {}

  lemma TwiceScaled(s: nat, p: nat)
    ensures 2 * (s * p) == s * (2 * p)
  {}

  lemma AllOnesShifted(k: nat)
    requires k < 128
    ensures Pow2(k) <= Pow2(128) && Pow2(128) >= 1
    ensures Shl128(Pow2(128) - 1, k) == Pow2(128) - Pow2(k)
  {
    PowersGrow(k, 128);
    PowersArePositive(128);
    ShiftedOut(Pow2(128), Pow2(k));
  }

  lemma ShiftedOut(m: nat, p: nat)
    requires 1 <= p <= m
    ensures ((m - 1) * p) % m == m - p
  {
    assert (m - 1) * p == (p - 1) * m + (m - p);
    RemainderOf((m - 1) * p, m, p - 1, m - p);
  }

  lemma RemainderOf(x: int, m: nat, q: int, r: nat)
    requires 0 <= r < m && x == q * m + r
    ensures x % m == r
  {
    var d := x / m - q;
    assert d * m == (x / m) * m - q * m;
    assert d * m == r - x % m;
    NoMultipleBetween(d, m);
  }

  lemma NoMultipleBetween(d: int, m: int)
    requires m >= 0 && -m < d * m < m
    ensures d == 0 && d * m == 0
  {
    if d >= 1 { AtLeast(d, m); }
    if d <= -1 { AtLeast(-d, m); }
  }

  lemma AtLeast(d: int, m: int)
    requires m >= 0 && d >= 1
    ensures d * m >= m && (-d) * m <= -m
  {
    assert (d - 1) * m >= 0;
  }

  // ---------- Addresses and blocks ----------

  type Word32 = n: nat | n < 0x1_0000_0000
  type Word128 = n: nat | n < 0x1_0000_0000_0000_0000_0000_0000_0000_0000

  datatype Addr = V4(v4: Word32) | V6(v6: Word128)

  /** A block as `parse` admits it: the prefix is no longer than the address. */
  datatype TrustedNet = TrustedNet(base: Addr, prefix: nat)

  predicate ValidNet(net: TrustedNet) {
    net.prefix <= if net.base.V4? then 32 else 128
  }

  /** The length check of `TrustedNet::parse`. */
  function Parsed(base: Addr, prefix: Option<nat>): (net: Option<TrustedNet>)
    ensures net.Some? ==> ValidNet(net.value) && net.value.base == base
    ensures net.Some? <==> prefix.None? || ValidNet(TrustedNet(base, prefix.value))
    ensures prefix.Some? && net.Some? ==> net.value.prefix == prefix.value
    ensures prefix.None? ==> forall a :: Contains(net.value, a) <==> AsV6(a) == AsV6(base)
  {
    SingleAddress(base);
    var bits := if base.V4? then 32 else 128;
    match prefix
    case None => Some(TrustedNet(base, bits))
    case Some(p) => if p > bits then None else Some(TrustedNet(base, p))
  }

  /** A block with no host bits is one address. */
  lemma SingleAddress(base: Addr)
    ensures forall a :: Contains(TrustedNet(base, if base.V4? then 32 else 128), a) <==> AsV6(a) == AsV6(base)
  {
    var net := TrustedNet(base, if base.V4? then 32 else 128);
    forall a ensures Contains(net, a) <==> AsV6(a) == AsV6(base) {
      ContainsDropsHostBits(net, a);
    }
  }

  lemma WordSizes()
    ensures Pow2(32) == 0x1_0000_0000 && Pow2(128) == 0x1_0000_0000_0000_0000_0000_0000_0000_0000
  {
    assert Pow2(8) == 256;
    PowersAdd(8, 8);
    assert Pow2(16) == 0x1_0000;
    PowersAdd(16, 16);
    assert Pow2(32) == 0x1_0000_0000;
    PowersAdd(32, 32);
    assert Pow2(64) == 0x1_0000_0000_0000_0000;
    PowersAdd(64, 64);
  }

  /** `::ffff:a.b.c.d`. */
  function Mapped(v4: Word32): Word128 {
    0xffff * 0x1_0000_0000 + v4
  }

  function AsV6(a: Addr): Word128 {
    match a
    case V6(v6) => v6
    case V4(v4) => Mapped(v4)
  }

  function V6Mask(prefix: nat): nat
    requires prefix <= 128
  {
    PowersArePositive(128);
    if prefix == 0 then 0 else Shl128(Pow2(128) - 1, 128 - prefix)
  }

  function PrefixInV6(net: TrustedNet): nat {
    if net.base.V4? then 96 + net.prefix else net.prefix
  }

  /** `TrustedNet::contains`. */
  predicate Contains(net: TrustedNet, a: Addr)
    requires ValidNet(net)
  {
    var mask := V6Mask(PrefixInV6(net));
    And(AsV6(net.base), mask, 128) == And(AsV6(a), mask, 128)
  }

  /** `TrustedProxies::contains`. */
  predicate Trusts(nets: seq<TrustedNet>, a: Addr)
    requires forall net :: net in nets ==> ValidNet(net)
  {
    exists net :: net in nets && Contains(net, a)
  }

  /** The bits of a block that do not count. */
  function HostBits(net: TrustedNet): nat
    requires ValidNet(net)
  {
    128 - PrefixInV6(net)
  }

  lemma MaskedEqual(a: nat, b: nat, k: nat)
    requires Shr(a, k) * Pow2(k) == Shr(b, k) * Pow2(k)
    ensures Shr(a, k) == Shr(b, k)
  {
    PowersArePositive(k);
    Cancel(Shr(a, k), Shr(b, k), Pow2(k));
  }

  lemma Cancel(a: nat, b: nat, p: nat)
    requires p > 0 && a * p == b * p
    ensures a == b
  {
    assert (a - b) * p == 0;
    NoMultipleBetween(a - b, p);
  }

  /** The masked comparison drops the host bits of both sides and compares the rest. */
  lemma ContainsDropsHostBits(net: TrustedNet, a: Addr)
    requires ValidNet(net)
    ensures Contains(net, a) <==> Shr(AsV6(net.base), HostBits(net)) == Shr(AsV6(a), HostBits(net))
  {
    WordSizes();
    var k := HostBits(net);
    var x, y := AsV6(net.base), AsV6(a);
    AndOfMask(x, k, 128);
    AndOfMask(y, k, 128);
    if k == 128 {
      assert V6Mask(0) == 0 && Pow2(128) - Pow2(k) == 0;
    } else {
      AllOnesShifted(k);
    }
    if Contains(net, a) { MaskedEqual(x, y, k); }
  }

  /** Section 3.1 of RFC 4632: an address is in the block exactly when the prefix's leading bits agree. */
  lemma ContainsIsLeadingBits(net: TrustedNet, a: Addr)
    requires ValidNet(net)
    ensures Contains(net, a) <==>
            forall i :: HostBits(net) <= i < 128 ==> Bit(AsV6(net.base), i) == Bit(AsV6(a), i)
  {
    WordSizes();
    ContainsDropsHostBits(net, a);
    ShrIsLeadingBits(AsV6(net.base), AsV6(a), HostBits(net), 128);
  }

  /** A block is an aligned interval of two to the host bits addresses, and its base lies in it. */
  lemma BlockIsAlignedInterval(net: TrustedNet, a: Addr)
    requires ValidNet(net)
    ensures var size := Pow2(HostBits(net));
            var low := Shr(AsV6(net.base), HostBits(net)) * size;
            && (Contains(net, a) <==> low <= AsV6(a) < low + size)
            && low <= AsV6(net.base) < low + size
  {
    var k := HostBits(net);
    ContainsDropsHostBits(net, a);
    ShrIsInterval(AsV6(a), k, Shr(AsV6(net.base), k));
    ShrIsInterval(AsV6(net.base), k, Shr(AsV6(net.base), k));
  }

  lemma {:induction false} ShrOfMapped(high: nat, low: nat, k: nat, w: nat)
    requires k <= w
    ensures Shr(high * Pow2(w) + low, k) == high * Pow2(w - k) + Shr(low, k)
  {
    if k > 0 {
      var p := Pow2(w - 1);
      assert high * Pow2(w) == 2 * (high * p) by { Double(p, high); assert high * p == p * high && high * (2 * p) == (2 * p) * high; }
      assert (2 * (high * p) + low) / 2 == high * p + low / 2;
      ShrOfMapped(high, low / 2, k - 1, w - 1);
    }
  }

  /** For IPv4 the 128-bit form is the 32-bit rule: the leading bits of the 32-bit addresses. */
  lemma V4BlocksAreThe32BitRule(base: Word32, prefix: nat, a: Word32)
    requires prefix <= 32
    ensures Contains(TrustedNet(V4(base), prefix), V4(a)) <==>
            forall i :: 32 - prefix <= i < 32 ==> Bit(base, i) == Bit(a, i)
  {
    var k := 32 - prefix;
    WordSizes();
    ContainsDropsHostBits(TrustedNet(V4(base), prefix), V4(a));
    assert Mapped(base) == 0xffff * Pow2(32) + base && Mapped(a) == 0xffff * Pow2(32) + a;
    ShrOfMapped(0xffff, base, k, 32);
    ShrOfMapped(0xffff, a, k, 32);
    ShrIsLeadingBits(base, a, k, 32);
  }

  lemma V4BlockOnlyReachesMapped(base: Word32, prefix: nat, a: Word128)
    requires prefix <= 32 && Contains(TrustedNet(V4(base), prefix), V6(a))
    ensures a == Mapped(a % 0x1_0000_0000)
  {
    WordSizes();
    var k := 32 - prefix;
    ContainsDropsHostBits(TrustedNet(V4(base), prefix), V6(a));
    assert Shr(Mapped(base), k) == Shr(a, k);
    ShrAdds(a, k, prefix);
    ShrAdds(Mapped(base), k, prefix);
    assert Shr(Mapped(base), 32) == Shr(a, 32);
    HighOfMapped(base);
    ShrIsInterval(a, 32, 0xffff);
  }

  lemma HighOfMapped(v4: Word32)
    ensures Shr(Mapped(v4), 32) == 0xffff
  {
    WordSizes();
    ShrIsInterval(Mapped(v4), 32, 0xffff);
  }

  /** An IPv4 block reaches no IPv6 address but the mapped ones, and those exactly as the addresses they
      spell; a mapped block written in IPv6 is the IPv4 block it spells. */
  lemma MappedSpellingAgrees(base: Word32, prefix: nat, a: Word128, net: TrustedNet, v4: Word32)
    requires prefix <= 32 && ValidNet(net)
    ensures Contains(TrustedNet(V4(base), prefix), V6(a)) ==> a == Mapped(a % 0x1_0000_0000)
    ensures Contains(net, V6(Mapped(v4))) == Contains(net, V4(v4))
    ensures Contains(TrustedNet(V6(Mapped(base)), 96 + prefix), V6(a)) == Contains(TrustedNet(V4(base), prefix), V6(a))
  {
    if Contains(TrustedNet(V4(base), prefix), V6(a)) {
      V4BlockOnlyReachesMapped(base, prefix, a);
    }
  }

  lemma NestedWhenTheyMeet(m: TrustedNet, n: TrustedNet, a: Addr, b: Addr)
    requires ValidNet(m) && ValidNet(n) && HostBits(m) <= HostBits(n)
    requires Contains(m, a) && Contains(n, a) && Contains(m, b)
    ensures Contains(n, b)
  {
    var j, k := HostBits(m), HostBits(n);
    ContainsDropsHostBits(m, a);
    ContainsDropsHostBits(m, b);
    ContainsDropsHostBits(n, a);
    ContainsDropsHostBits(n, b);
    ShrAdds(AsV6(a), j, k - j);
    ShrAdds(AsV6(b), j, k - j);
  }

  /** Any two blocks are nested or disjoint. */
  lemma BlocksAreNestedOrDisjoint(m: TrustedNet, n: TrustedNet)
    requires ValidNet(m) && ValidNet(n)
    ensures || (forall b :: Contains(m, b) ==> Contains(n, b))
            || (forall b :: Contains(n, b) ==> Contains(m, b))
            || (forall b :: !(Contains(m, b) && Contains(n, b)))
  {
    if a :| Contains(m, a) && Contains(n, a) {
      if HostBits(m) <= HostBits(n) {
        forall b | Contains(m, b) ensures Contains(n, b) { NestedWhenTheyMeet(m, n, a, b); }
      } else {
        forall b | Contains(n, b) ensures Contains(m, b) { NestedWhenTheyMeet(n, m, a, b); }
      }
    }
  }

  /** A peer is trusted exactly when some block of the list covers it: adding a block adds what it covers. */
  lemma TrustedByAnyBlock(nets: seq<TrustedNet>, net: TrustedNet, more: seq<TrustedNet>, a: Addr)
    requires ValidNet(net) && forall n :: n in nets + more ==> ValidNet(n)
    ensures forall n :: n in nets + [net] + more ==> ValidNet(n)
    ensures Trusts(nets + [net] + more, a) <==> Trusts(nets + more, a) || Contains(net, a)
    ensures !Trusts([], a)
  {
    assert forall n :: n in nets + [net] + more <==> n == net || n in nets + more;
  }

  // ---------- Host patterns ----------

  datatype HostPattern = HostPattern(host: string, subdomains: bool, port: nat)

  /** `HostPattern::matches`, by stripping the suffix. */
  predicate Matches(p: HostPattern, host: string, port: nat) {
    p.port == port &&
    if !p.subdomains then p.host == host
    else
      |p.host| <= |host| && host[|host| - |p.host|..] == p.host
      && var prefix := host[..|host| - |p.host|]; |prefix| > 1 && prefix[|prefix| - 1] == '.'
  }

  /** A pattern without a wildcard covers its own host at its own port. */
  lemma PlainPatternIsItsHost(p: HostPattern, host: string, port: nat)
    requires !p.subdomains
    ensures Matches(p, host, port) <==> host == p.host && port == p.port
  {}

  /** A wildcard covers the strict subdomains of its host and not the host itself. */
  lemma WildcardIsStrictSubdomains(p: HostPattern, host: string, port: nat)
    requires p.subdomains
    ensures Matches(p, host, port) <==> p.port == port && exists sub :: sub != "" && host == sub + "." + p.host
    ensures !Matches(p, p.host, port)
  {
    if Matches(p, host, port) {
      var n := |host| - |p.host|;
      var sub := host[..n - 1];
      assert host == sub + "." + p.host;
    }
    if p.port == port {
      forall sub | sub != "" && host == sub + "." + p.host ensures Matches(p, host, port) {
        var n := |host| - |p.host|;
        assert host[n..] == p.host && host[..n] == sub + ".";
      }
    }
  }
}
