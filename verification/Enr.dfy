/** The OP Stack entry of a node record: an RLP byte string holding two unsigned varints. */
module Enr {
  import opened Prelude

  datatype OpStackEnr = OpStackEnr(chainId: u64, version: u64)

  // ---------------------------------------------------------------------------------------------
  // Unsigned varints

  datatype VarintError = Insufficient | Overflow | NotMinimal

  /** Seven bits per byte, least significant first; every byte but the last has its top bit set. */
  function VarintBytes(n: nat): Bytes {
    if n < 128 then [n] else [n % 128 + 128] + VarintBytes(n / 128)
  }

  function Pow128(i: nat): (p: nat)
    ensures p > 0
  {
    if i == 0 then 1 else 128 * Pow128(i - 1)
  }

  /** The reader takes at most this many bytes after the first. */
  const LAST_INDEX: nat := 9

  /** Seven bits moved to their place in a 64-bit word; what leaves the word is lost. */
  function Shifted(k: nat, i: nat): nat {
    k * Pow128(i) % 0x1_0000_0000_0000_0000
  }

  /** The 64-bit reader from byte `i` on, with the value of the bytes before it. */
  function ReadFrom(b: Bytes, i: nat, acc: nat): Result<(nat, Bytes), VarintError>
    requires i <= |b|
    decreases |b| - i
  {
    if i == |b| then Err(Insufficient)
    else
      var k := b[i] % 128;
      var n := acc + Shifted(k, i);
      if b[i] < 128 then
        if b[i] == 0 && i > 0 then Err(NotMinimal) else Ok((n, b[i + 1..]))
      else if i == LAST_INDEX then Err(Overflow)
      else ReadFrom(b, i + 1, n)
  }

  function ReadU64(b: Bytes): Result<(nat, Bytes), VarintError> {
    ReadFrom(b, 0, 0)
  }

  method WriteVarint(value: nat) returns (out: Bytes)
    ensures out == VarintBytes(value)
  {
    var n := value;
    out := [];
    while n >= 128
      invariant out + VarintBytes(n) == VarintBytes(value)
    {
      assert out + VarintBytes(n) == (out + [n % 128 + 128]) + VarintBytes(n / 128);
      out := out + [n % 128 + 128];
      n := n / 128;
    }
    out := out + [n];
  }

  method ReadVarint(b: Bytes) returns (r: Result<(nat, Bytes), VarintError>)
    ensures r == ReadU64(b)
  {
    var n: nat, i: nat := 0, 0;
    while i < |b|
      invariant 0 <= i <= |b|
      invariant ReadU64(b) == ReadFrom(b, i, n)
    {
      var k := b[i] % 128;
      n := n + Shifted(k, i);
      if b[i] < 128 {
        if b[i] == 0 && i > 0 {
          return Err(NotMinimal);
        }
        return Ok((n, b[i + 1..]));
      }
      if i == LAST_INDEX {
        return Err(Overflow);
      }
      i := i + 1;
    }
    r := Err(Insufficient);
  }

  lemma Pow128At9()
    ensures Pow128(9) == 0x8000_0000_0000_0000
  {
    assert Pow128(3) == 0x20_0000;
    assert Pow128(6) == 0x400_0000_0000;
  }

  lemma {:induction false} Pow128Grows(i: nat, j: nat)
    requires i <= j
    ensures Pow128(i) <= Pow128(j)
    decreases j
  {
    if i < j {
      Pow128Grows(i, j - 1);
    }
  }

  /** A byte with its top bit set adds its seven bits and passes on to the next. */
  lemma ReadOn(b: Bytes, i: nat, acc: nat, k: nat)
    requires i < |b| && i < 9 && k < 128 && b[i] == k + 128 && k * Pow128(i) <= U64_MAX
    ensures ReadFrom(b, i, acc) == ReadFrom(b, i + 1, acc + k * Pow128(i))
  {
    assert b[i] % 128 == k;
    assert Shifted(k, i) == k * Pow128(i);
    hide Shifted, Pow128;
  }

  /** A byte without it ends the number. */
  lemma ReadEnd(b: Bytes, i: nat, acc: nat, k: nat)
    requires i < |b| && k < 128 && b[i] == k && (k == 0 ==> i == 0) && k * Pow128(i) <= U64_MAX
    ensures ReadFrom(b, i, acc) == Ok((acc + k * Pow128(i), b[i + 1..]))
  {
    assert b[i] % 128 == k;
    assert Shifted(k, i) == k * Pow128(i);
    hide Shifted, Pow128;
  }

  /** Reading on where a value was written returns it, and leaves the rest. */
  lemma {:induction false} ReadWritten(before: Bytes, m: nat, rest: Bytes, acc: nat)
    requires |before| <= 9 && (before != [] ==> m > 0)
    requires m * Pow128(|before|) <= U64_MAX
    ensures ReadFrom(before + VarintBytes(m) + rest, |before|, acc) == Ok((acc + m * Pow128(|before|), rest))
    decreases m
  {
    hide ReadFrom;
    var i := |before|;
    var b := before + VarintBytes(m) + rest;
    if m < 128 {
      assert b[i] == m && b[i + 1..] == rest;
      ReadEnd(b, i, acc, m);
    } else {
      var q, r := m / 128, m % 128;
      SplitPower(m, q, r, i);
      if i == 9 {
        Pow128At9();
        assert false;
      }
      hide Pow128;
      var more := before + [r + 128];
      assert b == more + VarintBytes(q) + rest;
      ReadOn(b, i, acc, r);
      ReadWritten(more, q, rest, acc + r * Pow128(i));
    }
  }

  lemma SplitPower(m: nat, q: nat, r: nat, i: nat)
    requires m == 128 * q + r && r < 128 && m * Pow128(i) <= U64_MAX
    ensures r * Pow128(i) + q * Pow128(i + 1) == m * Pow128(i)
    ensures r * Pow128(i) <= U64_MAX && q * Pow128(i + 1) <= U64_MAX
  {
    var p := Pow128(i);
    assert Pow128(i + 1) == 128 * p;
    assert q * (128 * p) == (128 * q) * p;
    assert (128 * q) * p + r * p == (128 * q + r) * p;
    assert r * p >= 0 && q * (128 * p) >= 0;
  }

  lemma VarintRoundTrip(n: u64, rest: Bytes)
    ensures ReadU64(VarintBytes(n) + rest) == Ok((n, rest))
  {
    assert [] + VarintBytes(n) + rest == VarintBytes(n) + rest;
    assert Pow128(0) == 1;
    hide ReadFrom, VarintBytes, Pow128;
    ReadWritten([], n, rest, 0);
  }

  lemma {:induction false} VarintLength(n: nat, k: nat)
    requires n < Pow128(k) && k >= 1
    ensures 1 <= |VarintBytes(n)| <= k
    decreases n
  {
    if n >= 128 {
      assert Pow128(k) == 128 * Pow128(k - 1);
      assert k - 1 >= 1;
      VarintLength(n / 128, k - 1);
    }
  }

  lemma U64Length(n: u64)
    ensures 1 <= |VarintBytes(n)| <= 10
  {
    Pow128At9();
    assert Pow128(10) == 128 * Pow128(9);
    VarintLength(n, 10);
  }

  // ---------------------------------------------------------------------------------------------
  // RLP byte strings

  datatype RlpError = InputTooShort | NonCanonicalSingleByte | LeadingZero | NonCanonicalSize | UnexpectedList

  datatype DecodeError = Rlp(cause: RlpError) | BadChainId | BadVersion

  /** A payload of fewer than 56 bytes; the two varints of an entry never make a longer one. */
  function RlpString(payload: Bytes): Bytes
    requires |payload| < 56
  {
    if |payload| == 1 && payload[0] < 0x80 then payload else [0x80 + |payload|] + payload
  }

  /** The payload of `n` bytes after the header, and the rest. */
  function Take(b: Bytes, n: nat): Result<(Bytes, Bytes), RlpError> {
    if |b| < n then Err(InputTooShort) else Ok((b[..n], b[n..]))
  }

  /** A header that holds the length. */
  function DecodeShort(b: Bytes): Result<(Bytes, Bytes), RlpError>
    requires b != [] && 0x80 <= b[0] <= 0xB7
  {
    if b[0] == 0x81 && |b| < 2 then Err(InputTooShort)
    else if b[0] == 0x81 && b[1] < 0x80 then Err(NonCanonicalSingleByte)
    else Take(b[1..], b[0] - 0x80)
  }

  /** A header that holds the length of the length; lists have one too, and are refused once it is read. */
  function DecodeLong(b: Bytes): Result<(Bytes, Bytes), RlpError>
    requires b != [] && (0xB8 <= b[0] <= 0xBF || 0xF8 <= b[0])
  {
    var count := if b[0] >= 0xF8 then b[0] - 0xF7 else b[0] - 0xB7;
    if |b| - 1 < count then Err(InputTooShort)
    else if b[1] == 0 then Err(LeadingZero)
    else
      var n := BigEndian(b[1..1 + count]);
      if n < 56 then Err(NonCanonicalSize)
      else if |b| - 1 - count < n then Err(InputTooShort)
      else if b[0] >= 0xF8 then Err(UnexpectedList)
      else Take(b[1 + count..], n)
  }

  function DecodeString(b: Bytes): Result<(Bytes, Bytes), RlpError> {
    if b == [] then Err(InputTooShort)
    else if b[0] < 0x80 then Take(b, 1)
    else if b[0] <= 0xB7 then DecodeShort(b)
    else if b[0] <= 0xBF || b[0] >= 0xF8 then DecodeLong(b)
    else if |b| - 1 < b[0] - 0xC0 then Err(InputTooShort)
    else Err(UnexpectedList)
  }

  lemma RlpRoundTrip(payload: Bytes, rest: Bytes)
    requires |payload| < 56
    ensures DecodeString(RlpString(payload) + rest) == Ok((payload, rest))
  {
    hide DecodeLong;
    var b := RlpString(payload) + rest;
    if |payload| == 1 && payload[0] < 0x80 {
      assert b[..1] == payload && b[1..] == rest;
    } else {
      assert b[0] == 0x80 + |payload|;
      assert b[1..] == payload + rest;
      assert DecodeString(b) == Take(b[1..], |payload|) by {
        if |payload| == 1 {
          assert b[1] == payload[0];
        }
      }
      hide DecodeString, DecodeShort;
      assert (payload + rest)[..|payload|] == payload && (payload + rest)[|payload|..] == rest;
    }
  }

  // ---------------------------------------------------------------------------------------------
  // The entry

  function EncodeEnr(e: OpStackEnr): (b: Bytes)
    ensures 3 <= |b| <= 21
  {
    U64Length(e.chainId);
    U64Length(e.version);
    RlpString(VarintBytes(e.chainId) + VarintBytes(e.version))
  }

  /** The entry and what follows it in the buffer; bytes after the version inside the string are ignored. */
  function DecodeEnr(b: Bytes): Result<(OpStackEnr, Bytes), DecodeError> {
    match DecodeString(b)
    case Err(e) => Err(Rlp(e))
    case Ok((payload, rest)) =>
      match ReadU64(payload)
      case Err(_) => Err(BadChainId)
      case Ok((chainId, more)) =>
        match ReadU64(more)
        case Err(_) => Err(BadVersion)
        case Ok((version, _)) => ReadFits(payload); ReadFits(more); Ok((OpStackEnr(chainId, version), rest))
  }

  lemma ReadFits(b: Bytes)
    ensures ReadU64(b).Ok? ==> ReadU64(b).value.0 <= U64_MAX
  {
    ReadFromFits(b, 0, 0);
  }

  lemma {:induction false} ReadFromFits(b: Bytes, i: nat, acc: nat)
    requires i <= |b| && i <= 9 && acc < Pow128(i)
    ensures ReadFrom(b, i, acc).Ok? ==> ReadFrom(b, i, acc).value.0 <= U64_MAX
    decreases |b| - i
  {
    if i < |b| {
      var p := Pow128(i);
      Pow128At9();
      Pow128Grows(i, 9);
      var k: nat := b[i] % 128;
      if i < 9 {
        Pow128Grows(i + 1, 9);
        assert Pow128(i + 1) == 128 * p;
        assert k * p <= 127 * p;
        assert k * p % 0x1_0000_0000_0000_0000 == k * p;
        ReadFromFits(b, i + 1, acc + k * p);
      } else {
        TopBit(k);
      }
    }
  }

  /** At the tenth byte only the lowest bit stays within 64 bits. */
  lemma TopBit(k: nat)
    requires k < 128
    ensures k * 0x8000_0000_0000_0000 % 0x1_0000_0000_0000_0000 == k % 2 * 0x8000_0000_0000_0000
  {
    var h, l := k / 2, k % 2;
    assert k * 0x8000_0000_0000_0000 == h * 0x1_0000_0000_0000_0000 + l * 0x8000_0000_0000_0000;
  }

  /** Decoding undoes encoding for every chain id and version, whatever follows in the buffer. */
  lemma EnrRoundTrip(e: OpStackEnr, rest: Bytes)
    ensures DecodeEnr(EncodeEnr(e) + rest) == Ok((e, rest))
  {
    var c, v := VarintBytes(e.chainId), VarintBytes(e.version);
    U64Length(e.chainId);
    U64Length(e.version);
    RlpRoundTrip(c + v, rest);
    VarintRoundTrip(e.chainId, v);
    VarintRoundTrip(e.version, []);
    assert v + [] == v;
    hide ReadU64, RlpString, DecodeString, VarintBytes;
  }

  /** Different entries have different encodings. */
  lemma EncodingInjective(a: OpStackEnr, b: OpStackEnr)
    requires EncodeEnr(a) == EncodeEnr(b)
    ensures a == b
  {
    EnrRoundTrip(a, []);
    EnrRoundTrip(b, []);
  }

  // ---------------------------------------------------------------------------------------------
  // Validation of a record

  datatype EnrValidation = MissingKey | DecodeFailed(cause: DecodeError) | InvalidVersion(version: u64)
                         | InvalidChainId(chainId: u64) | Valid

  /** `entry` is the raw value under the OP Stack key of the record. */
  function Validate(entry: Option<Bytes>, chainId: u64): EnrValidation {
    match entry
    case None => MissingKey
    case Some(raw) =>
      match DecodeEnr(raw)
      case Err(e) => DecodeFailed(e)
      case Ok((e, _)) =>
        if e.version != 0 then InvalidVersion(e.version)
        else if e.chainId != chainId then InvalidChainId(e.chainId)
        else Valid
  }

  /** Every verdict on every entry: missing, undecodable, of another version, of another chain, or valid. */
  lemma ValidateIff(entry: Option<Bytes>, chainId: u64)
    ensures Validate(entry, chainId).MissingKey? <==> entry.None?
    ensures forall e ::
              Validate(entry, chainId) == DecodeFailed(e) <==> entry.Some? && DecodeEnr(entry.value) == Err(e)
    ensures forall v ::
              Validate(entry, chainId) == InvalidVersion(v) <==> v != 0 && exists c, rest :: Carries(entry, c, v, rest)
    ensures forall c ::
              Validate(entry, chainId) == InvalidChainId(c)
              <==> c != chainId && exists rest :: Carries(entry, c, 0, rest)
    ensures Validate(entry, chainId).Valid? <==> exists rest :: Carries(entry, chainId, 0, rest)
  {
    hide DecodeEnr;
    if entry.Some? && DecodeEnr(entry.value).Ok? {
      var (e, rest) := DecodeEnr(entry.value).value;
      assert Carries(entry, e.chainId, e.version, rest);
    }
  }

  /** The entry decodes to this chain id and version, with `rest` behind it. */
  predicate Carries(entry: Option<Bytes>, chainId: u64, version: u64, rest: Bytes) {
    entry.Some? && DecodeEnr(entry.value) == Ok((OpStackEnr(chainId, version), rest))
  }

  /** A record built for one chain is valid for exactly that chain; one with another version is valid for none. */
  lemma BuiltRecordValid(e: OpStackEnr, chainId: u64)
    ensures Validate(Some(EncodeEnr(e)), chainId).Valid? <==> e == OpStackEnr(chainId, 0)
  {
    EnrRoundTrip(e, []);
    assert EncodeEnr(e) + [] == EncodeEnr(e);
  }

  // ---------------------------------------------------------------------------------------------
  // How far encodings are canonical

  /** The tenth byte of a ten-byte varint carries bits that leave the 64-bit result. */
  predicate Overlong(consumed: Bytes) {
    |consumed| == 10 && consumed[9] > 1
  }

  /** One varint: top bits set on every byte but the last, and no zero byte at the end of a longer one. */
  predicate Segment(s: Bytes) {
    && s != []
    && s[|s| - 1] < 128
    && (forall j | 0 <= j < |s| - 1 :: s[j] >= 128)
    && (s[|s| - 1] == 0 ==> |s| == 1)
  }

  /** The value of all its bits, also those beyond 64. */
  function SegmentValue(s: Bytes): nat {
    if s == [] then 0 else s[0] % 128 + 128 * SegmentValue(s[1..])
  }

  lemma SegmentTail(s: Bytes)
    requires Segment(s) && |s| > 1
    ensures Segment(s[1..]) && s[0] >= 128
  {
  }

  /** Writing the value of a varint gives back its bytes. */
  lemma {:induction false} SegmentCanonical(s: Bytes)
    requires Segment(s)
    ensures VarintBytes(SegmentValue(s)) == s
    ensures SegmentValue(s) == 0 ==> s == [0]
    decreases |s|
  {
    if |s| == 1 {
      assert s == [s[0]] && s[1..] == [];
    } else {
      SegmentTail(s);
      SegmentCanonical(s[1..]);
      var k: nat, w := s[0] % 128, SegmentValue(s[1..]);
      assert SegmentValue(s) == k + 128 * w;
      assert w > 0;
      assert (k + 128 * w) % 128 == k && (k + 128 * w) / 128 == w;
      assert s == [s[0]] + s[1..];
    }
  }

  /** What a successful read consumed was one varint of at most ten bytes. */
  lemma {:induction false} ReadConsumes(b: Bytes, i: nat, acc: nat) returns (e: nat)
    requires i <= |b| && i <= 9 && ReadFrom(b, i, acc).Ok?
    ensures i < e <= |b| && e <= 10
    ensures ReadFrom(b, i, acc).value.1 == b[e..]
    ensures b[e - 1] < 128 && (b[e - 1] == 0 ==> e == 1)
    ensures forall j | i <= j < e - 1 :: b[j] >= 128
    decreases |b| - i
  {
    hide Pow128;
    if b[i] < 128 {
      e := i + 1;
    } else {
      e := ReadConsumes(b, i + 1, acc + b[i] % 128 * Pow128(i) % 0x1_0000_0000_0000_0000);
    }
  }

  /** Reading a varint whose bits all fit gives its value. */
  lemma {:induction false} ReadSegment(b: Bytes, i: nat, e: nat, acc: nat)
    requires i < e <= |b| && e <= 10 && Segment(b[i..e]) && (b[e - 1] == 0 ==> e == 1)
    requires e == 10 ==> b[9] <= 1
    ensures ReadFrom(b, i, acc) == Ok((acc + SegmentValue(b[i..e]) * Pow128(i), b[e..]))
    decreases e - i
  {
    hide ReadFrom;
    var s := b[i..e];
    var k: nat, p := b[i] % 128, Pow128(i);
    assert s[0] == b[i] && s[1..] == b[i + 1..e];
    if i == e - 1 {
      assert s[1..] == [];
      assert SegmentValue(s) == k;
      if i == 9 {
        Pow128At9();
      } else {
        KeepsBits(k, p, i);
        FitsPower(k, p, i);
      }
      ReadEnd(b, i, acc, k);
    } else {
      SegmentTail(s);
      FitsPower(k, p, i);
      var w := SegmentValue(s[1..]);
      assert SegmentValue(s) == k + 128 * w;
      ShiftedValue(k, w, i);
      hide Pow128, SegmentValue, Segment;
      ReadOn(b, i, acc, k);
      ReadSegment(b, i + 1, e, acc + k * p);
    }
  }

  lemma ShiftedValue(k: nat, w: nat, i: nat)
    ensures (k + 128 * w) * Pow128(i) == k * Pow128(i) + w * Pow128(i + 1)
  {
    var p := Pow128(i);
    assert Pow128(i + 1) == 128 * p;
    assert (k + 128 * w) * p == k * p + w * (128 * p);
  }

  lemma FitsPower(k: nat, p: nat, i: nat)
    requires k < 128 && i < 9 && p == Pow128(i)
    ensures k * p <= U64_MAX
  {
    Pow128At9();
    Pow128Grows(i + 1, 9);
    assert Pow128(i + 1) == 128 * p;
    assert k * p <= 127 * p;
  }

  lemma KeepsBits(k: nat, p: nat, i: nat)
    requires k < 128 && i < 9 && p == Pow128(i)
    ensures k * p % 0x1_0000_0000_0000_0000 == k * p
  {
    FitsPower(k, p, i);
  }

  lemma NextPower(n: nat, q: nat, l: nat, i: nat)
    requires n >= 128 * q && q >= l * Pow128(i)
    ensures n >= l * Pow128(i + 1)
  {
    var p := Pow128(i);
    assert Pow128(i + 1) == 128 * p;
    assert l * (128 * p) == 128 * (l * p);
  }

  /** A number is at least what its last byte stands for. */
  lemma {:induction false} LastByteBound(n: nat)
    ensures VarintBytes(n) != []
    ensures n >= Last(VarintBytes(n)) * Pow128(|VarintBytes(n)| - 1)
    decreases n
  {
    if n >= 128 {
      LastByteBound(n / 128);
      var v := VarintBytes(n / 128);
      assert VarintBytes(n) == [n % 128 + 128] + v;
      assert Last(VarintBytes(n)) == Last(v);
      hide VarintBytes;
      NextPower(n, n / 128, Last(v), |v| - 1);
    }
  }

  /**
   * The bytes a successful read consumed are the encoding of its result, except exactly when a tenth byte holds bits
   * beyond the 64th, which the reader drops.
   */
  lemma VarintCanonicalIff(b: Bytes)
    requires ReadU64(b).Ok?
    ensures var (n, rest) := ReadU64(b).value;
            && |rest| < |b|
            && (b[..|b| - |rest|] == VarintBytes(n) <==> !Overlong(b[..|b| - |rest|]))
  {
    var e := ReadConsumes(b, 0, 0);
    var (n, rest) := ReadU64(b).value;
    ReadFits(b);
    assert b[..|b| - |rest|] == b[..e];
    var s := b[0..e];
    assert s == b[..e];
    if Overlong(s) {
      LastByteBound(n);
      Pow128At9();
    } else {
      assert Segment(s);
      ReadSegment(b, 0, e, 0);
      SegmentCanonical(s);
      assert SegmentValue(s) * Pow128(0) == SegmentValue(s);
    }
  }
}
