/** Decimal and hexadecimal text as the standard formatters print and read it. */
module Text {
  import opened Prelude

  function Digit(d: nat): char
    requires d < 10
  {
    '0' + d as char
  }

  predicate IsDigit(c: char) {
    '0' <= c <= '9'
  }

  function Decimal(n: nat): string {
    if n < 10 then [Digit(n)] else Decimal(n / 10) + [Digit(n % 10)]
  }

  predicate AllDigits(s: string) {
    forall i :: 0 <= i < |s| ==> IsDigit(s[i])
  }

  function DecimalValue(s: string): nat
    requires AllDigits(s)
  {
    if s == [] then 0 else DecimalValue(DropLast(s)) * 10 + (Last(s) - '0') as nat
  }

  /** Digits only, at least one, and no more than the type holds. */
  function ParseDecimal(s: string, max: nat): Option<nat> {
    if s != [] && AllDigits(s) && DecimalValue(s) <= max then Some(DecimalValue(s)) else None
  }

  lemma {:induction false} DecimalRoundTrip(n: nat)
    ensures Decimal(n) != [] && AllDigits(Decimal(n)) && DecimalValue(Decimal(n)) == n
  {
    if n >= 10 {
      DecimalRoundTrip(n / 10);
      assert DropLast(Decimal(n)) == Decimal(n / 10);
    }
  }

  lemma ParseDecimalRoundTrip(n: nat, max: nat)
    requires n <= max
    ensures Decimal(n) != "" && ParseDecimal(Decimal(n), max) == Some(n)
  {
    DecimalRoundTrip(n);
  }

  /** No leading zero, and three digits hold every byte. */
  lemma {:induction false} DecimalShape(n: nat)
    ensures n > 0 ==> Decimal(n)[0] != '0'
    ensures n < 1000 ==> |Decimal(n)| <= 3
  {
    if n >= 10 {
      DecimalShape(n / 10);
      if 100 <= n < 1000 {
        assert |Decimal(n / 10 / 10)| == 1;
      }
    }
  }

  function HexDigit(d: nat): char
    requires d < 16
  {
    if d < 10 then '0' + d as char else 'a' + (d - 10) as char
  }

  /** Either case is read. */
  function HexValue(c: char): Option<nat> {
    if '0' <= c <= '9' then Some((c - '0') as nat)
    else if 'a' <= c <= 'f' then Some((c - 'a') as nat + 10)
    else if 'A' <= c <= 'F' then Some((c - 'A') as nat + 10)
    else None
  }

  function Hex(b: Bytes): string {
    if b == [] then [] else [HexDigit(b[0] / 16), HexDigit(b[0] % 16)] + Hex(b[1..])
  }

  function ReadHexDigits(s: string): Option<Bytes> {
    if s == [] then Some([])
    else if |s| == 1 then None
    else
      match (HexValue(s[0]), HexValue(s[1]), ReadHexDigits(s[2..]))
      case (Some(h), Some(l), Some(rest)) => if h < 16 && l < 16 then Some([16 * h + l] + rest) else None
      case _ => None
  }

  predicate HasPrefix(s: string) {
    |s| >= 2 && s[0] == '0' && s[1] == 'x'
  }

  /** An optional prefix, then two digits for each of `n` bytes. */
  function ParseHex(s: string, n: nat): Option<Bytes> {
    var digits := if HasPrefix(s) then s[2..] else s;
    if |digits| != 2 * n then None else ReadHexDigits(digits)
  }

  predicate IsHex(c: char) {
    HexValue(c).Some?
  }

  lemma {:induction false} HexRoundTrip(b: Bytes)
    ensures |Hex(b)| == 2 * |b| && ReadHexDigits(Hex(b)) == Some(b)
    ensures forall i :: 0 <= i < |Hex(b)| ==> IsHex(Hex(b)[i])
  {
    if b != [] {
      HexRoundTrip(b[1..]);
      var h, l := b[0] / 16, b[0] % 16;
      assert HexValue(HexDigit(h)) == Some(h) && HexValue(HexDigit(l)) == Some(l);
      assert Hex(b)[2..] == Hex(b[1..]);
      assert b == [16 * h + l] + b[1..];
    }
  }

  lemma ParseHexRoundTrip(b: Bytes)
    ensures ParseHex(Hex(b), |b|) == Some(b)
  {
    HexRoundTrip(b);
    hide Hex, ReadHexDigits;
    assert !HasPrefix(Hex(b));
  }

  /** What is read as a number of at most `max`. */
  lemma ParseDecimalIff(s: string, max: nat, n: nat)
    ensures ParseDecimal(s, max) == Some(n) <==> s != "" && AllDigits(s) && DecimalValue(s) == n && n <= max
  {
    hide DecimalValue;
  }

  /** The sixteen digits are read in either case, and nothing else is. */
  lemma HexValueIff(c: char, d: nat)
    requires d < 16
    ensures HexValue(c) == Some(d) <==> c == "0123456789abcdef"[d] || c == "0123456789ABCDEF"[d]
  {
    if HexValue(c) == Some(d) {
      assert c as int == if d < 10 then 48 + d else if c <= 'F' then 55 + d else 87 + d;
    }
  }

  /** The prefix may be there or not. */
  lemma PrefixedHex(b: Bytes)
    ensures ParseHex("0x" + Hex(b), |b|) == Some(b)
  {
    HexRoundTrip(b);
    hide Hex, ReadHexDigits;
    var s := "0x" + Hex(b);
    assert HasPrefix(s) && s[2..] == Hex(b);
  }

  /** Only exactly as many digits as the bytes need are read. */
  lemma {:induction false} ReadHexLength(s: string)
    ensures ReadHexDigits(s).Some? ==> |s| == 2 * |ReadHexDigits(s).value|
    decreases |s|
  {
    if |s| >= 2 {
      ReadHexLength(s[2..]);
    }
  }

  lemma ParseHexLength(s: string, n: nat)
    ensures ParseHex(s, n).Some? ==> |ParseHex(s, n).value| == n
  {
    ReadHexLength(if HasPrefix(s) then s[2..] else s);
    hide ReadHexDigits;
  }

  /** Bytes are printed high digit first, in lower case. */
  lemma {:induction false} HexText(b: Bytes, k: nat)
    requires k < |b|
    ensures |Hex(b)| == 2 * |b|
    ensures Hex(b)[2 * k] == "0123456789abcdef"[b[k] / 16] && Hex(b)[2 * k + 1] == "0123456789abcdef"[b[k] % 16]
    decreases |b|
  {
    HexRoundTrip(b);
    if k == 0 {
      HexDigitText(b[0] / 16);
      HexDigitText(b[0] % 16);
    } else {
      HexText(b[1..], k - 1);
    }
  }

  lemma HexDigitText(d: nat)
    requires d < 16
    ensures HexDigit(d) == "0123456789abcdef"[d]
  {
  }
}
