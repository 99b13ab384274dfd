/**
 * UUIDv7 ids (section 5.7 of RFC 9562): a 48-bit big-endian millisecond clock, then version, variant
 * and random bits. The clock and the random bytes are parameters.
 */
module Uuid {
  import opened Common

  type Byte = x: int | 0 <= x < 256

  // ── Bitwise operators ──────────────────────────────────────────────────────

  /** `a & b` */
  function BitAnd(a: nat, b: nat): nat {
    if a == 0 || b == 0 then 0 else (if a % 2 == 1 && b % 2 == 1 then 1 else 0) + 2 * BitAnd(a / 2, b / 2)
  }

  /** `a | b` */
  function BitOr(a: nat, b: nat): nat {
    if a == 0 then b else if b == 0 then a else (if a % 2 == 1 || b % 2 == 1 then 1 else 0) + 2 * BitOr(a / 2, b / 2)
  }

  /** `high << bits` */
  function Shifted(high: nat, bits: nat): (r: nat)
    ensures high > 0 ==> r > 0
  {
    if bits == 0 then high else 2 * Shifted(high, bits - 1)
  }

  function Power(bits: nat): (p: nat)
    ensures p > 0
  {
    Shifted(1, bits)
  }

  lemma DivModUnique(n: nat, d: nat, q: nat, r: nat)
    requires n == q * d + r && r < d
    ensures n % d == r
  {
    assert n == n / d * d + n % d;
    Multiples(n / d - q, d);
  }

  lemma Multiples(e: int, d: int)
    requires d > 0
    ensures e > 0 ==> e * d >= d
    ensures e < 0 ==> e * d <= -d
    ensures e == 0 ==> e * d == 0
  {
  }

  lemma ModByDouble(a: nat, p: nat)
    requires p > 0
    ensures a % (2 * p) == a % 2 + 2 * (a / 2 % p)
  {
    var q, r := a / 2 / p, a / 2 % p;
    assert a / 2 == q * p + r;
    assert a == q * (2 * p) + (a % 2 + 2 * r);
    DivModUnique(a, 2 * p, q, a % 2 + 2 * r);
  }

  /** Masking with ones keeps the low bits. */
  lemma {:induction false} AndLowBits(a: nat, bits: nat)
    ensures BitAnd(a, Power(bits) - 1) == a % Power(bits)
  {
    if bits > 0 {
      AndLowBits(a / 2, bits - 1);
      ModByDouble(a, Power(bits - 1));
      assert (Power(bits) - 1) / 2 == Power(bits - 1) - 1 && (Power(bits) - 1) % 2 == 1;
    }
  }

  lemma OrAnEvenNumber(a: nat, half: nat)
    ensures BitOr(a, 2 * half) == a % 2 + 2 * BitOr(a / 2, half)
  {
  }

  /** Or-ing bits above the low ones puts them there. */
  lemma {:induction false} OrHighBits(low: nat, high: nat, bits: nat)
    requires low < Power(bits)
    ensures BitOr(low, Shifted(high, bits)) == low + Shifted(high, bits)
  {
    if bits > 0 {
      OrHighBits(low / 2, high, bits - 1);
      OrAnEvenNumber(low, Shifted(high, bits - 1));
    }
  }

  // ── Layout ─────────────────────────────────────────────────────────────────

  function ByteAt(millis: nat, divisor: nat): Byte
    requires divisor > 0
  {
    millis / divisor % 256
  }

  function Timestamp(millis: nat): seq<Byte> {
    [ByteAt(millis, 0x100_0000_0000), ByteAt(millis, 0x1_0000_0000), ByteAt(millis, 0x100_0000),
     ByteAt(millis, 0x1_0000), ByteAt(millis, 0x100), ByteAt(millis, 1)]
  }

  function HexByte(b: Byte): string {
    [HEX_DIGITS[b / 16], HEX_DIGITS[b % 16]]
  }

  function Hex(bytes: seq<Byte>): (s: string)
    ensures |s| == 2 * |bytes|
  {
    if bytes == [] then "" else Hex(bytes[..|bytes| - 1]) + HexByte(bytes[|bytes| - 1])
  }

  function Render(bytes: seq<Byte>): (s: string)
    requires |bytes| == 16
    ensures |s| == 36
  {
    Hex(bytes[..4]) + "-" + Hex(bytes[4..6]) + "-" + Hex(bytes[6..8]) + "-" + Hex(bytes[8..10]) + "-" + Hex(bytes[10..])
  }

  /** Version 7 in the high nibble of byte 6, variant 10 in the high bits of byte 8, the rest as drawn. */
  ghost predicate IsLayout(bytes: seq<Byte>, millis: nat, random: seq<Byte>)
    requires |random| == 10
  {
    && |bytes| == 16
    && bytes[..6] == Timestamp(millis)
    && bytes[6] / 16 == 7 && bytes[6] % 16 == random[0] % 16
    && bytes[8] / 64 == 2 && bytes[8] % 64 == random[2] % 64
    && bytes[7] == random[1] && bytes[9..] == random[3..]
  }

  lemma LowByte(n: nat)
    ensures BitAnd(n, 0xff) == n % 256
  {
    AndLowBits(n, 8);
  }

  lemma VersionByte(b: Byte)
    ensures BitOr(BitAnd(b, 0x0f), 0x70) == 0x70 + b % 16
  {
    AndLowBits(b, 4);
    OrHighBits(b % 16, 7, 4);
  }

  lemma VariantByte(b: Byte)
    ensures BitOr(BitAnd(b, 0x3f), 0x80) == 0x80 + b % 64
  {
    AndLowBits(b, 6);
    OrHighBits(b % 64, 2, 6);
  }

  /** The low eight bits. */
  function Low(n: nat): (b: Byte)
    ensures b == n % 256
  {
    LowByte(n);
    BitAnd(n, 0xff)
  }

  lemma MaskedIsLayout(filled: seq<Byte>, millis: nat, random: seq<Byte>)
    requires |random| == 10 && |filled| == 16 && filled[..6] == Timestamp(millis)
    requires forall k :: 0 <= k < 10 ==> filled[6 + k] == random[k]
    ensures IsLayout(filled[6 := 0x70 + filled[6] % 16][8 := 0x80 + filled[8] % 64], millis, random)
  {
    var masked := filled[6 := 0x70 + filled[6] % 16][8 := 0x80 + filled[8] % 64];
    assert masked[..6] == filled[..6];
    assert filled[6] == filled[6 + 0] == random[0] && filled[7] == filled[6 + 1] && filled[8] == filled[6 + 2];
    forall k | 0 <= k < 7 ensures masked[9..][k] == random[3..][k] {
      assert filled[9 + k] == filled[6 + (3 + k)];
    }
  }

  method Uuidv7(millis: nat, random: seq<Byte>) returns (id: string)
    requires |random| == 10
    ensures exists layout :: IsLayout(layout, millis, random) && id == Render(layout)
  {
    var bytes := new Byte[16];
    bytes[0] := Low(millis / 0x100_0000_0000);
    bytes[1] := Low(millis / 0x1_0000_0000);
    bytes[2] := Low(millis / 0x100_0000);
    bytes[3] := Low(millis / 0x1_0000);
    bytes[4] := Low(millis / 0x100);
    bytes[5] := Low(millis);
    ghost var stamp := bytes[..6];
    assert stamp == Timestamp(millis);
    for i := 0 to 10
      invariant bytes[..6] == stamp
      invariant forall k :: 0 <= k < i ==> bytes[6 + k] == random[k]
    {
      bytes[6 + i] := random[i];
    }
    ghost var filled := bytes[..];
    VersionByte(bytes[6]);
    VariantByte(bytes[8]);
    bytes[6] := BitOr(BitAnd(bytes[6], 0x0f), 0x70);
    bytes[8] := BitOr(BitAnd(bytes[8], 0x3f), 0x80);
    MaskedIsLayout(filled, millis, random);
    assert bytes[..] == filled[6 := 0x70 + filled[6] % 16][8 := 0x80 + filled[8] % 64];
    id := Render(bytes[..]);
  }

  // ── Reading an id ──────────────────────────────────────────────────────────

  predicate IsHexDigit(c: char) { c in HEX_DIGITS }

  function DigitValue(c: char): (v: nat)
    ensures v < 16
  {
    if '0' <= c <= '9' then c as int - '0' as int
    else if 'a' <= c <= 'f' then 10 + c as int - 'a' as int
    else 0
  }

  function ParseHex(s: string): nat {
    if s == "" then 0 else 16 * ParseHex(s[..|s| - 1]) + DigitValue(s[|s| - 1])
  }

  /** The first twelve hex digits, skipping the dash. */
  function ClockDigits(id: string): string
    requires |id| == 36
  {
    id[..8] + id[9..13]
  }

  lemma DigitReadsBack(n: nat)
    requires n < 16
    ensures DigitValue(HEX_DIGITS[n]) == n
  {
  }

  lemma ByteReadsBack(b: Byte)
    ensures 16 * DigitValue(HexByte(b)[0]) + DigitValue(HexByte(b)[1]) == b
  {
    DigitReadsBack(b / 16);
    DigitReadsBack(b % 16);
  }

  function Value(bytes: seq<Byte>): nat {
    if bytes == [] then 0 else 256 * Value(bytes[..|bytes| - 1]) + bytes[|bytes| - 1]
  }

  lemma {:induction false} HexReadsBack(bytes: seq<Byte>)
    ensures ParseHex(Hex(bytes)) == Value(bytes)
  {
    if bytes != [] {
      var init, last := bytes[..|bytes| - 1], bytes[|bytes| - 1];
      HexReadsBack(init);
      ByteReadsBack(last);
      var s := Hex(bytes);
      assert s[..|s| - 1] == Hex(init) + [HexByte(last)[0]];
      assert s[..|s| - 1][..|s| - 2] == Hex(init);
    }
  }

  lemma {:induction false} HexConcat(a: seq<Byte>, b: seq<Byte>)
    ensures Hex(a + b) == Hex(a) + Hex(b)
  {
    if b == [] {
      assert a + b == a;
    } else {
      HexConcat(a, b[..|b| - 1]);
      assert (a + b)[..|a + b| - 1] == a + b[..|b| - 1];
    }
  }

  lemma ClockDigitsAreTheTimestamp(bytes: seq<Byte>)
    requires |bytes| == 16
    ensures ClockDigits(Render(bytes)) == Hex(bytes[..6])
  {
    var id := Render(bytes);
    assert id[..8] == Hex(bytes[..4]) && id[9..13] == Hex(bytes[4..6]);
    HexConcat(bytes[..4], bytes[4..6]);
    assert bytes[..4] + bytes[4..6] == bytes[..6];
  }

  /** `millis` with its last `6 - n` bytes dropped. */
  function WithoutLast(millis: nat, n: nat): nat
    requires n <= 6
  {
    millis / [0x1_0000_0000_0000, 0x100_0000_0000, 0x1_0000_0000, 0x100_0000, 0x1_0000, 0x100, 1][n]
  }

  lemma DroppingOneMoreByte(m: nat)
    ensures m / 0x100 == m / 1 / 256
    ensures m / 0x1_0000 == m / 0x100 / 256
    ensures m / 0x100_0000 == m / 0x1_0000 / 256
  {
  }

  lemma DroppingAnotherByte(m: nat)
    ensures m / 0x1_0000_0000 == m / 0x100_0000 / 256
    ensures m / 0x100_0000_0000 == m / 0x1_0000_0000 / 256
    ensures m / 0x1_0000_0000_0000 == m / 0x100_0000_0000 / 256
  {
  }

  lemma WithoutLastStep(millis: nat, n: nat)
    requires 0 < n <= 6
    ensures WithoutLast(millis, n) / 256 == WithoutLast(millis, n - 1)
    ensures Timestamp(millis)[n - 1] == WithoutLast(millis, n) % 256
  {
    var d := [0x100_0000_0000, 0x1_0000_0000, 0x100_0000, 0x1_0000, 0x100, 1][n - 1];
    DroppingOneMoreByte(millis);
    DroppingAnotherByte(millis);
    assert Timestamp(millis)[n - 1] == ByteAt(millis, d);
    assert WithoutLast(millis, n) == millis / d && WithoutLast(millis, n - 1) == millis / d / 256;
  }

  lemma {:induction false} TimestampPrefix(millis: nat, n: nat)
    requires millis < 0x1_0000_0000_0000 && n <= 6
    ensures Value(Timestamp(millis)[..n]) == WithoutLast(millis, n)
  {
    if n > 0 {
      TimestampPrefix(millis, n - 1);
      WithoutLastStep(millis, n);
      assert Timestamp(millis)[..n][..n - 1] == Timestamp(millis)[..n - 1];
    }
  }

  lemma TimestampValue(millis: nat)
    requires millis < 0x1_0000_0000_0000
    ensures Value(Timestamp(millis)) == millis
  {
    TimestampPrefix(millis, 6);
    assert Timestamp(millis)[..6] == Timestamp(millis);
  }

  /** The clock reads back out of the id, for every time before the year 10889 and all random bytes. */
  lemma ClockReadsBack(bytes: seq<Byte>, millis: nat, random: seq<Byte>)
    requires millis < 0x1_0000_0000_0000 && |random| == 10 && IsLayout(bytes, millis, random)
    ensures ParseHex(ClockDigits(Render(bytes))) == millis
  {
    ClockDigitsAreTheTimestamp(bytes);
    HexReadsBack(bytes[..6]);
    TimestampValue(millis);
  }

  /** Dashes, the version digit and the variant digit stand where readers of UUIDs look for them. */
  lemma TextLayout(bytes: seq<Byte>, millis: nat, random: seq<Byte>)
    requires |random| == 10 && IsLayout(bytes, millis, random)
    ensures var id := Render(bytes);
            && id[8] == id[13] == id[18] == id[23] == '-'
            && id[14] == '7' && id[19] in "89ab"
  {
    var id := Render(bytes);
    assert id[14..18] == Hex(bytes[6..8]) && id[19..23] == Hex(bytes[8..10]);
    HexHead(bytes[6..8]);
    HexHead(bytes[8..10]);
    assert id[14] == id[14..18][0] && id[19] == id[19..23][0];
    assert 8 <= bytes[8] / 16 < 12;
  }

  function Undashed(id: string): string
    requires |id| == 36
  {
    id[..8] + id[9..13] + id[14..18] + id[19..23] + id[24..]
  }

  lemma DashesFallOut(a: string, b: string, c: string, d: string, e: string)
    requires |a| == 8 && |b| == |c| == |d| == 4 && |e| == 12
    ensures Undashed(a + "-" + b + "-" + c + "-" + d + "-" + e) == a + b + c + d + e
  {
    var id := a + "-" + b + "-" + c + "-" + d + "-" + e;
    assert id[..8] == a && id[9..13] == b && id[14..18] == c && id[19..23] == d && id[24..] == e;
  }

  lemma UndashedIsHex(bytes: seq<Byte>)
    requires |bytes| == 16
    ensures Undashed(Render(bytes)) == Hex(bytes)
  {
    var a, b, c, d, e := bytes[..4], bytes[4..6], bytes[6..8], bytes[8..10], bytes[10..];
    DashesFallOut(Hex(a), Hex(b), Hex(c), Hex(d), Hex(e));
    HexConcat(a, b);
    HexConcat(a + b, c);
    HexConcat(a + b + c, d);
    HexConcat(a + b + c + d, e);
    assert a + b + c + d + e == bytes;
  }

  lemma {:induction false} HexAt(bytes: seq<Byte>, k: nat)
    requires k < |bytes|
    ensures Hex(bytes)[2 * k] == HexByte(bytes[k])[0] && Hex(bytes)[2 * k + 1] == HexByte(bytes[k])[1]
  {
    if k < |bytes| - 1 {
      HexAt(bytes[..|bytes| - 1], k);
    }
  }

  /** Every byte, each random one included, reads back from its two hex digits. */
  lemma TextReadsBack(bytes: seq<Byte>, k: nat)
    requires |bytes| == 16 && k < 16
    ensures |Undashed(Render(bytes))| == 32
    ensures ParseHex(Undashed(Render(bytes))[2 * k..2 * k + 2]) == bytes[k]
  {
    UndashedIsHex(bytes);
    HexAt(bytes, k);
    ByteReadsBack(bytes[k]);
    TwoDigits(Undashed(Render(bytes))[2 * k..2 * k + 2]);
  }

  lemma TwoDigits(s: string)
    requires |s| == 2
    ensures ParseHex(s) == 16 * DigitValue(s[0]) + DigitValue(s[1])
  {
    assert s[..1][..0] == "" && s[..1][0] == s[0];
    assert ParseHex(s[..1]) == DigitValue(s[0]);
  }

  lemma HexHead(bytes: seq<Byte>)
    requires |bytes| == 2
    ensures Hex(bytes)[0] == HexByte(bytes[0])[0]
  {
    assert bytes[..1] == [bytes[0]] && bytes[..1][..0] == [];
    assert Hex(bytes[..1]) == HexByte(bytes[0]);
  }

  // ── Order ──────────────────────────────────────────────────────────────────

  /** Plain text comparison at the first difference. */
  ghost predicate TextBefore(a: string, b: string) {
    exists i :: 0 <= i < |a| && i < |b| && a[..i] == b[..i] && a[i] < b[i]
  }

  ghost predicate AllHex(s: string) {
    forall c :: c in s ==> IsHexDigit(c)
  }

  lemma DigitOrder(c: char, d: char)
    requires IsHexDigit(c) && IsHexDigit(d)
    ensures DigitValue(c) < DigitValue(d) <==> c < d
    ensures DigitValue(c) == DigitValue(d) <==> c == d
  {
    var i :| 0 <= i < 16 && HEX_DIGITS[i] == c;
    var j :| 0 <= j < 16 && HEX_DIGITS[j] == d;
    DigitReadsBack(i);
    DigitReadsBack(j);
  }

  lemma EarlierStaysEarlier(p: string, q: string, c: char, d: char)
    requires TextBefore(p, q)
    ensures TextBefore(p + [c], q + [d])
  {
    var i :| 0 <= i < |p| && i < |q| && p[..i] == q[..i] && p[i] < q[i];
    assert (p + [c])[..i] == p[..i] && (q + [d])[..i] == q[..i];
  }

  lemma LastCharDecides(p: string, c: char, d: char)
    requires c < d
    ensures TextBefore(p + [c], p + [d])
  {
    assert (p + [c])[..|p|] == p && (p + [d])[..|p|] == p;
  }

  /** Equally long hex texts compare as their numbers do. */
  lemma {:induction false} HexOrder(a: string, b: string)
    requires |a| == |b| && AllHex(a) && AllHex(b)
    ensures ParseHex(a) < ParseHex(b) ==> TextBefore(a, b)
    ensures ParseHex(a) == ParseHex(b) ==> a == b
    decreases |a|
  {
    if a != "" {
      var n := |a| - 1;
      var p, q := a[..n], b[..n];
      assert a == p + [a[n]] && b == q + [b[n]];
      HexOrder(p, q);
      DigitOrder(a[n], b[n]);
      if ParseHex(p) < ParseHex(q) {
        EarlierStaysEarlier(p, q, a[n], b[n]);
      } else if ParseHex(p) == ParseHex(q) && a[n] < b[n] {
        LastCharDecides(p, a[n], b[n]);
      }
    }
  }

  lemma {:induction false} HexIsHex(bytes: seq<Byte>)
    ensures AllHex(Hex(bytes))
  {
    if bytes != [] {
      HexIsHex(bytes[..|bytes| - 1]);
    }
  }

  /** An id made earlier, to the millisecond, sorts before one made later, whatever their random bytes. */
  lemma IdsSortByTime(x: seq<Byte>, y: seq<Byte>, earlier: nat, later: nat, r: seq<Byte>, s: seq<Byte>)
    requires earlier < later < 0x1_0000_0000_0000 && |r| == 10 && |s| == 10
    requires IsLayout(x, earlier, r) && IsLayout(y, later, s)
    ensures TextBefore(Render(x), Render(y))
  {
    var a, b := Render(x), Render(y);
    ClockReadsBack(x, earlier, r);
    ClockReadsBack(y, later, s);
    ClockDigitsAreTheTimestamp(x);
    ClockDigitsAreTheTimestamp(y);
    HexIsHex(x[..6]);
    HexIsHex(y[..6]);
    HexOrder(ClockDigits(a), ClockDigits(b));
    TextLayout(x, earlier, r);
    TextLayout(y, later, s);
    var i :| 0 <= i < 12 && ClockDigits(a)[..i] == ClockDigits(b)[..i] && ClockDigits(a)[i] < ClockDigits(b)[i];
    DashedPrefix(a, b, i);
  }

  lemma DashedPrefix(a: string, b: string, i: nat)
    requires |a| == |b| == 36 && a[8] == b[8] && i < 12
    requires ClockDigits(a)[..i] == ClockDigits(b)[..i] && ClockDigits(a)[i] < ClockDigits(b)[i]
    ensures TextBefore(a, b)
  {
    var at := if i < 8 then i else i + 1;
    forall k | 0 <= k < at ensures a[k] == b[k] {
      if k != 8 {
        var d := if k < 8 then k else k - 1;
        assert ClockDigits(a)[..i][d] == ClockDigits(b)[..i][d];
      }
    }
    assert a[..at] == b[..at] && a[at] < b[at];
  }
}
