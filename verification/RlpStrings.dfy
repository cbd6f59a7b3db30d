/** Byte strings are read exactly from their canonical RLP encoding, short or long. */
module RlpStrings {
  import opened Prelude
  import opened Enr

  /** Big-endian without leading zeros. */
  function Minimal(n: nat): Bytes {
    if n == 0 then [] else Minimal(n / 256) + [n % 256]
  }

  function Pow256(k: nat): (p: nat)
    ensures p > 0
  {
    if k == 0 then 1 else 256 * Pow256(k - 1)
  }

  /**
   * The canonical encoding of a byte string, per appendix B of the Ethereum Yellow Paper: a byte below 0x80 is itself,
   * up to 55 bytes follow their length, and longer strings follow the length of their length and their length.
   */
  function Canonical(p: Bytes): Bytes {
    if |p| == 1 && p[0] < 0x80 then p
    else if |p| <= 55 then [0x80 + |p|] + p
    else if |Minimal(|p|)| <= 8 then [0xB7 + |Minimal(|p|)|] + Minimal(|p|) + p
    else []
  }

  lemma {:induction false} MinimalValue(n: nat)
    ensures BigEndian(Minimal(n)) == n
    ensures n > 0 ==> Minimal(n) != [] && Minimal(n)[0] != 0
  {
    if n > 0 {
      MinimalValue(n / 256);
      var b := Minimal(n);
      assert b[..|b| - 1] == Minimal(n / 256);
    }
  }

  lemma {:induction false} MinimalOf(b: Bytes)
    requires b == [] || b[0] != 0
    ensures Minimal(BigEndian(b)) == b
    ensures b != [] ==> BigEndian(b) > 0
    decreases |b|
  {
    if b != [] {
      var front := b[..|b| - 1];
      MinimalOf(front);
      var n, l: nat := BigEndian(front), b[|b| - 1];
      assert BigEndian(b) == n * 256 + l;
      assert (n * 256 + l) / 256 == n && (n * 256 + l) % 256 == l;
      assert b == front + [b[|b| - 1]];
      if |b| == 1 {
        assert front == [];
      }
    }
  }

  lemma {:induction false} MinimalLength(n: nat, k: nat)
    ensures |Minimal(n)| <= k <==> n < Pow256(k)
    decreases k
  {
    if k > 0 && n > 0 {
      MinimalLength(n / 256, k - 1);
    }
  }

  /** Strings of up to eight bytes of length have an encoding. */
  predicate Encodable(p: Bytes) {
    |p| < 0x1_0000_0000_0000_0000
  }

  lemma LengthFits(p: Bytes)
    ensures Encodable(p) <==> |Minimal(|p|)| <= 8
  {
    assert Pow256(4) == 0x1_0000_0000;
    assert Pow256(8) == 256 * (256 * (256 * (256 * Pow256(4))));
    hide Minimal, Pow256;
    MinimalLength(|p|, 8);
  }

  lemma Slices(h: byte, len: Bytes, p: Bytes, rest: Bytes)
    ensures var b := [h] + len + p + rest;
            && b[0] == h && b[1..1 + |len|] == len && b[1 + |len|..] == p + rest
            && (len != [] ==> b[1] == len[0])
  {
  }

  lemma TakeJoined(p: Bytes, rest: Bytes)
    ensures Take(p + rest, |p|) == Ok((p, rest))
  {
    assert (p + rest)[..|p|] == p && (p + rest)[|p|..] == rest;
  }

  lemma LongDecodes(b: Bytes, len: Bytes, p: Bytes, rest: Bytes)
    requires 1 <= |len| <= 8 && len[0] != 0 && BigEndian(len) == |p| > 55
    requires |b| == 1 + |len| + |p| + |rest| && b[0] == 0xB7 + |len| && b[1] == len[0]
    requires b[1..1 + |len|] == len && b[1 + |len|..] == p + rest
    ensures DecodeLong(b) == Ok((p, rest))
  {
    TakeJoined(p, rest);
    hide BigEndian, Take;
  }

  /** A long string is read back. */
  lemma LongRead(p: Bytes, rest: Bytes)
    requires |p| > 55 && |Minimal(|p|)| <= 8
    ensures DecodeString(Canonical(p) + rest) == Ok((p, rest))
  {
    var len := Minimal(|p|);
    MinimalValue(|p|);
    hide Minimal, BigEndian, DecodeLong;
    Slices(0xB7 + |len|, len, p, rest);
    LongDecodes([0xB7 + |len|] + len + p + rest, len, p, rest);
  }

  /** What a long string was read from. */
  lemma LongOnly(b: Bytes, p: Bytes, rest: Bytes)
    requires b != [] && 0xB8 <= b[0] <= 0xBF && DecodeLong(b) == Ok((p, rest))
    ensures |p| > 55 && |Minimal(|p|)| <= 8 && b == Canonical(p) + rest
  {
    var count := b[0] - 0xB7;
    var len, body := b[1..1 + count], b[1 + count..];
    MinimalOf(len);
    hide Minimal;
    assert BigEndian(len) == |p| && body == p + rest;
    hide BigEndian, DecodeLong;
    assert b == [b[0]] + len + body;
    assert [b[0]] + len + (p + rest) == [b[0]] + len + p + rest;
  }

  /** What a short string was read from. */
  lemma ShortOnly(b: Bytes, p: Bytes, rest: Bytes)
    requires b != [] && 0x80 <= b[0] <= 0xB7 && DecodeShort(b) == Ok((p, rest))
    ensures |p| <= 55 && b == Canonical(p) + rest
  {
    var body := b[1..];
    assert |p| == b[0] - 0x80 && body == p + rest;
    assert b[0] == 0x81 ==> b[1] >= 0x80;
    hide DecodeShort, Minimal;
    assert b == [b[0]] + body;
    assert |p| >= 1 ==> p[0] == b[1];
    assert [b[0]] + (p + rest) == [b[0]] + p + rest;
  }

  /** A single byte was read from itself. */
  lemma ByteOnly(b: Bytes, p: Bytes, rest: Bytes)
    requires b != [] && b[0] < 0x80 && Take(b, 1) == Ok((p, rest))
    ensures |p| <= 55 && b == Canonical(p) + rest
  {
    hide Minimal;
    assert b == b[..1] + b[1..];
  }

  /** A byte string is read exactly from its canonical encoding, and what follows is left. */
  lemma DecodeIff(b: Bytes, p: Bytes, rest: Bytes)
    ensures DecodeString(b) == Ok((p, rest)) <==> Encodable(p) && b == Canonical(p) + rest
  {
    LengthFits(p);
    if Encodable(p) && b == Canonical(p) + rest {
      if |p| > 55 {
        LongRead(p, rest);
      } else {
        assert Canonical(p) == RlpString(p);
        RlpRoundTrip(p, rest);
      }
    }
    if DecodeString(b) == Ok((p, rest)) {
      if b[0] < 0x80 {
        ByteOnly(b, p, rest);
      } else if b[0] <= 0xB7 {
        ShortOnly(b, p, rest);
      } else {
        LongOnly(b, p, rest);
      }
    }
    hide DecodeShort, DecodeLong, Take, Minimal, Canonical;
  }
}
