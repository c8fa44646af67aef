/** IPv4 addresses and prefixes as rest_router.py computes with them. */
module Ipv4 {
  import opened Bits

  type Ip = x: int | 0 <= x < 0x1_0000_0000

  /** A network address with its prefix length */
  type Net = (Ip, nat)

  const UINT32_MAX: nat := 0xffff_ffff

  /** mask_ntob, for lengths that do not make the shift count negative */
  function MaskNtob(len: nat): nat
    requires len <= 32
  {
    And(Shl(UINT32_MAX, 32 - len), UINT32_MAX)
  }

  /** ipv4_apply_mask */
  function ApplyMask(ip: Ip, len: nat): (r: Ip)
    requires len <= 32
  {
    And(ip, MaskNtob(len))
  }

  predicate InNet(ip: Ip, net: Net)
    requires net.1 <= 32
  {
    ApplyMask(ip, net.1) == net.0
  }

  lemma WordSize()
    ensures Pow2(32) == 0x1_0000_0000
  {
    assert Pow2(8) == 256;
    Pow2Add(8, 8);
    Pow2Add(16, 16);
  }

  /** The mask has `len` leading ones. */
  lemma MaskIs(len: nat)
    requires len <= 32
    ensures MaskNtob(len) == Pow2(32) - Pow2(32 - len)
  {
    WordSize();
    var p, q := Pow2(32 - len), Pow2(len);
    Pow2Add(32 - len, len);
    AndLowMask(UINT32_MAX * p, 32);
    AllOnesTimes(p);
    QuotientRemainder(UINT32_MAX * p, Pow2(32), p - 1, Pow2(32) - p);
  }

  lemma AllOnesTimes(p: int)
    ensures UINT32_MAX * p == (p - 1) * Pow2(32) + (Pow2(32) - p)
  {
    WordSize();
  }

  /** Applying a mask clears the host part. */
  lemma ApplyIs(ip: Ip, len: nat)
    requires len <= 32
    ensures ApplyMask(ip, len) == ip - ip % Pow2(32 - len) == ip / Pow2(32 - len) * Pow2(32 - len)
  {
    hide And, Pow2;
    WordSize();
    MaskIs(len);
    AndHighMask(ip, 32, 32 - len);
    DivMod(ip, Pow2(32 - len));
  }

  /** An address is in the network exactly when the address rounded down to the network's size is its number. */
  lemma InNetIs(ip: Ip, net: Net)
    requires net.1 <= 32
    ensures InNet(ip, net) <==> ip / Pow2(32 - net.1) * Pow2(32 - net.1) == net.0
  {
    hide ApplyMask, Pow2;
    ApplyIs(ip, net.1);
  }

  lemma DivMod(a: nat, p: nat)
    requires p > 0
    ensures a - a % p == a / p * p
  {
  }

  lemma QuotientDigits(a: nat, p: nat, k: nat) returns (q: nat, s: nat)
    requires p > 0 && k > 0 && p * k > 0
    ensures q == a / (p * k) && 0 <= s * p < p * k && a / p * p == q * (p * k) + s * p
  {
    q := a / (p * k);
    var r := a % (p * k);
    Division(a, p * k);
    s := r / p;
    Division(r, p);
    MulAssociates(q, k, p);
    assert k * p == p * k;
    MulDistributes(q * k, s, p);
    QuotientRemainder(a, p, q * k + s, r % p);
  }

  lemma NestedQuotient(a: nat, p: nat, k: nat)
    requires p > 0 && k > 0
    ensures p * k > 0 && (a / p * p) / (p * k) == a / (p * k)
  {
    MulPositive(p, k);
    var q, s := QuotientDigits(a, p, k);
    QuotientRemainder(a / p * p, p * k, q, s * p);
  }

  lemma RoundedTwice(a: nat, p: nat, k: nat, r: nat)
    requires p > 0 && k > 0 && r > 0 && r == p * k
    ensures (a / p * p) / r * r == a / r * r
  {
    NestedQuotient(a, p, k);
  }

  /** Applying a shorter mask after a longer one is applying the shorter one. */
  lemma MaskNests(ip: Ip, short: nat, long: nat)
    requires short <= long <= 32
    ensures ApplyMask(ApplyMask(ip, long), short) == ApplyMask(ip, short)
  {
    hide ApplyMask, Pow2;
    var p, q := Pow2(32 - long), Pow2(long - short);
    ApplyIs(ip, long);
    ApplyIs(ip, short);
    ApplyIs(ApplyMask(ip, long), short);
    Pow2Add(32 - long, long - short);
    RoundedTwice(ip, p, q, Pow2(32 - short));
  }

  /** Two prefixes with an address in common are nested: each address of the longer one, its network
      address included, is in the shorter one. */
  lemma Nested(a: Net, b: Net, x: Ip, y: Ip)
    requires a.1 <= b.1 <= 32 && InNet(x, a) && InNet(x, b) && InNet(y, b)
    ensures InNet(y, a) && InNet(b.0, a)
  {
    MaskNests(x, a.1, b.1);
    MaskNests(y, a.1, b.1);
  }
}
