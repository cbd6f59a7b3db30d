/** Address prefixes: what it means for an address to lie in a range, bit by bit and as an interval. */
module Prefixes {
  import opened Prelude
  import opened Gater
  import opened GaterTheorems

  // ---------------------------------------------------------------------------------------------
  // Bits

  /** Bit `k` of a number, counted from the lowest. */
  function Bit(n: nat, k: nat): nat
    decreases k
  {
    if k == 0 then n % 2 else Bit(n / 2, k - 1)
  }

  /** The number without its lowest `k` bits. */
  function Shift(n: nat, k: nat): nat
    decreases k
  {
    if k == 0 then n else Shift(n / 2, k - 1)
  }

  lemma HalfFirst(n: nat, p: nat)
    requires p > 0
    ensures n / (2 * p) == n / 2 / p
  {
    var q := n / 2 / p;
    var r := n / 2 - q * p;
    assert 0 <= r < p;
    assert n == 2 * (q * p) + 2 * r + n % 2;
    assert 2 * (q * p) == q * (2 * p);
    Quotient(n, 2 * p, q, 2 * r + n % 2);
  }

  lemma Multiples(a: nat, b: nat, d: nat)
    requires a < b
    ensures a * d + d <= b * d
  {
    assert b * d == (a + 1) * d + (b - a - 1) * d;
    assert (b - a - 1) * d >= 0;
  }

  lemma Quotient(n: nat, d: nat, q: nat, r: nat)
    requires d > 0 && n == q * d + r && r < d
    ensures n / d == q
  {
    var q' := n / d;
    assert q' * d <= n < q' * d + d;
    if q' < q {
      Multiples(q', q, d);
    } else if q < q' {
      Multiples(q, q', d);
    }
  }

  lemma {:induction false} ShiftDivides(n: nat, k: nat)
    ensures n / Pow2(k) == Shift(n, k)
    decreases k
  {
    if k > 0 {
      HalfFirst(n, Pow2(k - 1));
      ShiftDivides(n / 2, k - 1);
    }
  }

  lemma {:induction false} BitOfShift(n: nat, k: nat, j: nat)
    ensures Bit(Shift(n, k), j) == Bit(n, k + j)
    decreases k
  {
    if k > 0 {
      BitOfShift(n / 2, k - 1, j);
    }
  }

  lemma {:induction false} ShiftBounded(n: nat, k: nat, m: nat)
    requires n < Pow2(k + m)
    ensures Shift(n, k) < Pow2(m)
    decreases k
  {
    if k > 0 {
      assert Pow2(k + m) == 2 * Pow2(k - 1 + m);
      ShiftBounded(n / 2, k - 1, m);
    }
  }

  predicate SameBits(a: nat, b: nat, from: nat, to: nat) {
    forall k | from <= k < to :: Bit(a, k) == Bit(b, k)
  }

  /** Numbers of `m` bits are equal exactly when all their bits are. */
  lemma {:induction false} EqualIffBits(a: nat, b: nat, m: nat)
    requires a < Pow2(m) && b < Pow2(m)
    ensures a == b <==> SameBits(a, b, 0, m)
    decreases m
  {
    if m > 0 {
      EqualIffBits(a / 2, b / 2, m - 1);
      if SameBits(a, b, 0, m) {
        assert Bit(a, 0) == Bit(b, 0);
        forall k | 0 <= k < m - 1
          ensures Bit(a / 2, k) == Bit(b / 2, k)
        {
          assert Bit(a, k + 1) == Bit(b, k + 1);
        }
      }
    }
  }

  // ---------------------------------------------------------------------------------------------
  // Ranges

  /** A range and an address as the source's types allow them: 32 or 128 bits, and no longer prefix. */
  predicate WellSized(net: Subnet, ip: Ip) {
    && (ip.V4? ==> ip.bits < Pow2(32)) && (ip.V6? ==> ip.bits < Pow2(128))
    && (net.base.V4? ==> net.base.bits < Pow2(32) && net.prefix <= 32)
    && (net.base.V6? ==> net.base.bits < Pow2(128) && net.prefix <= 128)
  }

  /** Of one family, and equal in the first `prefix` of their 32 or 128 bits. */
  predicate SharesPrefix(net: Subnet, ip: Ip)
    requires WellSized(net, ip)
  {
    || (net.base.V4? && ip.V4? && SameBits(ip.bits, net.base.bits, 32 - net.prefix, 32))
    || (net.base.V6? && ip.V6? && SameBits(ip.bits, net.base.bits, 128 - net.prefix, 128))
  }

  lemma TopBits(a: nat, b: nat, width: nat, prefix: nat)
    requires prefix <= width && a < Pow2(width) && b < Pow2(width)
    ensures a / Pow2(width - prefix) == b / Pow2(width - prefix) <==> SameBits(a, b, width - prefix, width)
  {
    var low := width - prefix;
    ShiftDivides(a, low);
    ShiftDivides(b, low);
    ShiftBounded(a, low, prefix);
    ShiftBounded(b, low, prefix);
    EqualIffBits(Shift(a, low), Shift(b, low), prefix);
    hide Pow2, Shift, Bit;
    forall j: nat
      ensures Bit(Shift(a, low), j) == Bit(a, low + j) && Bit(Shift(b, low), j) == Bit(b, low + j)
    {
      BitOfShift(a, low, j);
      BitOfShift(b, low, j);
    }
    if SameBits(Shift(a, low), Shift(b, low), 0, prefix) {
      forall k | low <= k < width
        ensures Bit(a, k) == Bit(b, k)
      {
        assert Bit(Shift(a, low), k - low) == Bit(a, low + (k - low));
        assert Bit(Shift(b, low), k - low) == Bit(b, low + (k - low));
      }
    }
  }

  /** An address lies in a range exactly when it is of its family and shares the first bits of its base. */
  lemma ContainsIffBits(net: Subnet, ip: Ip)
    requires WellSized(net, ip)
    ensures Contains(net, ip) <==> SharesPrefix(net, ip)
  {
    if net.base.V4? && ip.V4? {
      TopBits(ip.bits, net.base.bits, 32, net.prefix);
    } else if net.base.V6? && ip.V6? {
      TopBits(ip.bits, net.base.bits, 128, net.prefix);
    }
    hide Pow2, Bit, SameBits;
  }

  /** The shortest prefix takes in the whole family, the longest only its base. */
  lemma ExtremePrefixes(base: Ip, ip: Ip)
    requires WellSized(Subnet(base, 0), ip)
    ensures Contains(Subnet(base, 0), ip) <==> base.V4? == ip.V4?
    ensures Contains(Subnet(base, if base.V4? then 32 else 128), ip) <==> ip == base
  {
    var width := if base.V4? then 32 else 128;
    ContainsIffBits(Subnet(base, 0), ip);
    assert Pow2(0) == 1;
    hide Pow2, Bit;
  }

  lemma SameQuotient(a: nat, b: nat, n: nat)
    requires n > 0
    ensures a / n == b / n <==> b / n * n <= a <= b / n * n + n - 1
  {
    var q := b / n;
    if q * n <= a <= q * n + n - 1 {
      Quotient(a, n, q, a - q * n);
    } else {
      assert a == a / n * n + a % n;
    }
  }

  /** The same as an interval: the base with its low bits cleared, and `2 ^ (width - prefix)` addresses from there. */
  lemma ContainsIffInterval(net: Subnet, ip: Ip)
    requires WellSized(net, ip)
    ensures var size := Pow2((if net.base.V4? then 32 else 128) - net.prefix);
            var first := net.base.bits / size * size;
            Contains(net, ip) <==> net.base.V4? == ip.V4? && first <= ip.bits <= first + size - 1
  {
    SameQuotient(ip.bits, net.base.bits, Pow2((if net.base.V4? then 32 else 128) - net.prefix));
    hide Pow2;
  }

  /** An address inside a range whose latest admin operation is a block is never dialed. */
  lemma BlockedRangeNeverDialed(config: Config, es: Run, j: nat, net: Subnet)
    requires Swarmed(config, es, j) && IpOf(es[j].addr).Some? && NetIsBlocked(es[..j], net)
    requires WellSized(net, IpOf(es[j].addr).value)
    ensures !SharesPrefix(net, IpOf(es[j].addr).value)
  {
    BlockedNeverDialed(config, es, j);
    ContainsIffBits(net, IpOf(es[j].addr).value);
  }
}
