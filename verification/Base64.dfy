/**
 * `btoa` and `atob` over characters below 256, and the URL-safe, unpadded spelling of section 5 of
 * RFC 4648.
 */
module Base64 {
  import opened Common

  predicate IsLatin1(s: string) {
    forall i :: 0 <= i < |s| ==> s[i] as int < 256
  }

  predicate IsDigit(c: char) {
    'A' <= c <= 'Z' || 'a' <= c <= 'z' || '0' <= c <= '9' || c == '+' || c == '/'
  }

  predicate AllDigits(s: string) {
    forall i :: 0 <= i < |s| ==> IsDigit(s[i])
  }

  function Digit(n: nat): (c: char)
    requires n < 64
    ensures IsDigit(c)
  {
    if n < 26 then 'A' + n as char
    else if n < 52 then 'a' + (n - 26) as char
    else if n < 62 then '0' + (n - 52) as char
    else if n == 62 then '+' else '/'
  }

  function Sextet(c: char): (n: nat)
    requires IsDigit(c)
    ensures n < 64
  {
    if 'A' <= c <= 'Z' then c as int - 'A' as int
    else if 'a' <= c <= 'z' then 26 + (c as int - 'a' as int)
    else if '0' <= c <= '9' then 52 + (c as int - '0' as int)
    else if c == '+' then 62 else 63
  }

  /** The digits of one, two or three bytes. */
  function Digits(group: string): (r: string)
    requires 0 < |group| <= 3 && IsLatin1(group)
    ensures |r| == |group| + 1 && AllDigits(r)
  {
    var a := group[0] as int;
    if |group| == 1 then [Digit(a / 4), Digit(a % 4 * 16)]
    else
      var b := group[1] as int;
      if |group| == 2 then [Digit(a / 4), Digit(a % 4 * 16 + b / 16), Digit(b % 16 * 4)]
      else
        var c := group[2] as int;
        [Digit(a / 4), Digit(a % 4 * 16 + b / 16), Digit(b % 16 * 4 + c / 64), Digit(c % 64)]
  }

  function Padding(group: string): string
    requires 0 < |group| <= 3
  {
    if |group| == 1 then "==" else if |group| == 2 then "=" else ""
  }

  function Encode(s: string): string
    requires IsLatin1(s)
  {
    if s == "" then ""
    else if |s| <= 3 then Digits(s) + Padding(s)
    else Digits(s[..3]) + Encode(s[3..])
  }

  /** Throws on a character that is not one byte. */
  function Btoa(s: string): Option<string> {
    if IsLatin1(s) then Some(Encode(s)) else None
  }

  /** The bytes of two, three or four digits; bits left over are dropped. */
  function Bytes(group: string): string
    requires 2 <= |group| <= 4 && AllDigits(group)
  {
    var p, q := Sextet(group[0]), Sextet(group[1]);
    var first := [(p * 4 + q / 16) as char];
    if |group| == 2 then first
    else
      var r := Sextet(group[2]);
      var second := first + [(q % 16 * 16 + r / 4) as char];
      if |group| == 3 then second else second + [(r % 4 * 64 + Sextet(group[3])) as char]
  }

  function Decode(s: string): string
    requires |s| % 4 != 1 && AllDigits(s)
  {
    if s == "" then ""
    else if |s| <= 4 then Bytes(s)
    else Bytes(s[..4]) + Decode(s[4..])
  }

  function DropPadding(s: string): string {
    if |s| % 4 == 0 && EndsWith(s, "==") then s[..|s| - 2]
    else if |s| % 4 == 0 && EndsWith(s, "=") then s[..|s| - 1]
    else s
  }

  /** Throws on a foreign character or an impossible length; padding is optional. */
  function Atob(s: string): Option<string> {
    var digits := DropPadding(s);
    if |digits| % 4 == 1 || !AllDigits(digits) then None else Some(Decode(digits))
  }

  // ── URL spelling ───────────────────────────────────────────────────────────

  function UrlChar(c: char): string {
    if c == '+' then "-" else if c == '/' then "_" else if c == '=' then "" else [c]
  }

  function ToUrl(s: string): string {
    if s == "" then "" else UrlChar(s[0]) + ToUrl(s[1..])
  }

  function PlainChar(c: char): char {
    if c == '-' then '+' else if c == '_' then '/' else c
  }

  function FromUrl(s: string): string {
    seq(|s|, i requires 0 <= i < |s| => PlainChar(s[i]))
  }

  // ── Round trip ─────────────────────────────────────────────────────────────

  lemma DigitReadsBack(n: nat)
    requires n < 64
    ensures Sextet(Digit(n)) == n
  {
  }

  lemma FirstByte(a: nat, low: nat)
    requires a < 256 && low < 16
    ensures a / 4 < 64 && a % 4 * 16 + low < 64
    ensures a / 4 * 4 + (a % 4 * 16 + low) / 16 == a
  {
  }

  lemma SecondByte(b: nat, high: nat, low: nat)
    requires b < 256 && high < 4 && low < 4
    ensures high * 16 + b / 16 < 64 && b % 16 * 4 + low < 64
    ensures (high * 16 + b / 16) % 16 * 16 + (b % 16 * 4 + low) / 4 == b
  {
  }

  lemma ThirdByte(c: nat, high: nat)
    requires c < 256 && high < 16
    ensures high * 4 + c / 64 < 64
    ensures (high * 4 + c / 64) % 4 * 64 + c % 64 == c
  {
  }

  lemma OneByteReadsBack(group: string)
    requires |group| == 1 && IsLatin1(group)
    ensures Bytes(Digits(group)) == group
  {
    var a := group[0] as int;
    FirstByte(a, 0);
    DigitReadsBack(a / 4);
    DigitReadsBack(a % 4 * 16);
  }

  lemma TwoBytesReadBack(group: string)
    requires |group| == 2 && IsLatin1(group)
    ensures Bytes(Digits(group)) == group
  {
    var a, b := group[0] as int, group[1] as int;
    FirstByte(a, b / 16);
    SecondByte(b, a % 4, 0);
    DigitReadsBack(a / 4);
    DigitReadsBack(a % 4 * 16 + b / 16);
    DigitReadsBack(b % 16 * 4);
  }

  lemma ThreeBytesReadBack(group: string)
    requires |group| == 3 && IsLatin1(group)
    ensures Bytes(Digits(group)) == group
  {
    var a, b, c := group[0] as int, group[1] as int, group[2] as int;
    FirstByte(a, b / 16);
    SecondByte(b, a % 4, c / 64);
    ThirdByte(c, b % 16);
    DigitReadsBack(a / 4);
    DigitReadsBack(a % 4 * 16 + b / 16);
    DigitReadsBack(b % 16 * 4 + c / 64);
    DigitReadsBack(c % 64);
  }

  /** The digits of the standard, in its order (table 1 of section 4 of RFC 4648). */
  lemma AlphabetIsTheStandardOne()
    ensures seq(26, i requires 0 <= i < 26 => Digit(i)) == "ABCDEFGHIJKLMNOPQRSTUVWXYZ"
    ensures seq(26, i requires 0 <= i < 26 => Digit(26 + i)) == "abcdefghijklmnopqrstuvwxyz"
    ensures seq(12, i requires 0 <= i < 12 => Digit(52 + i)) == "0123456789+/"
  {
  }

  lemma GroupReadsBack(group: string)
    requires 0 < |group| <= 3 && IsLatin1(group)
    ensures Bytes(Digits(group)) == group
  {
    match |group| {
      case 1 => OneByteReadsBack(group);
      case 2 => TwoBytesReadBack(group);
      case _ => ThreeBytesReadBack(group);
    }
  }

  lemma DigitsConcat(head: string, tail: string)
    requires |head| == 4 && |tail| % 4 != 1 && AllDigits(head) && AllDigits(tail)
    ensures |head + tail| % 4 != 1 && AllDigits(head + tail)
  {
  }

  /** The encoding without its padding. */
  function Unpadded(s: string): (r: string)
    requires IsLatin1(s)
    ensures |r| % 4 != 1 && AllDigits(r)
  {
    if s == "" then ""
    else if |s| <= 3 then Digits(s)
    else
      var rest := Unpadded(s[3..]);
      DigitsConcat(Digits(s[..3]), rest);
      Digits(s[..3]) + rest
  }

  lemma DecodeGroup(group: string)
    requires 2 <= |group| <= 4 && AllDigits(group)
    ensures Decode(group) == Bytes(group)
  {
  }

  lemma DecodeGroupFirst(head: string, tail: string)
    requires |head| == 4 && |tail| % 4 != 1 && AllDigits(head) && AllDigits(tail)
    ensures Decode(head + tail) == Bytes(head) + Decode(tail)
  {
    if tail == "" {
      assert head + tail == head;
    } else {
      assert (head + tail)[..4] == head && (head + tail)[4..] == tail;
    }
  }

  lemma {:induction false} UnpaddedReadsBack(s: string)
    requires IsLatin1(s)
    ensures Decode(Unpadded(s)) == s
  {
    if 0 < |s| <= 3 {
      GroupReadsBack(s);
      DecodeGroup(Digits(s));
    } else if |s| > 3 {
      var group, rest := s[..3], s[3..];
      GroupReadsBack(group);
      UnpaddedReadsBack(rest);
      DecodeGroupFirst(Digits(group), Unpadded(rest));
      assert s == group + rest;
    }
  }

  function Respelled(s: string): string {
    FromUrl(ToUrl(s))
  }

  lemma FromUrlConcat(a: string, b: string)
    ensures FromUrl(a + b) == FromUrl(a) + FromUrl(b)
  {
  }

  lemma {:induction false} RespelledConcat(a: string, b: string)
    ensures Respelled(a + b) == Respelled(a) + Respelled(b)
  {
    if a == "" {
      assert a + b == b;
    } else {
      RespelledConcat(a[1..], b);
      assert (a + b)[1..] == a[1..] + b;
      FromUrlConcat(UrlChar(a[0]), ToUrl(a[1..] + b));
      FromUrlConcat(UrlChar(a[0]), ToUrl(a[1..]));
      Associative(FromUrl(UrlChar(a[0])), Respelled(a[1..]), Respelled(b));
    }
  }

  lemma RespelledDigit(c: char)
    requires IsDigit(c)
    ensures Respelled([c]) == [c]
  {
    assert ToUrl([c]) == UrlChar(c) + ToUrl([c][1..]) == UrlChar(c);
  }

  lemma {:induction false} RespelledDigits(s: string)
    requires AllDigits(s)
    ensures Respelled(s) == s
  {
    if s != "" {
      RespelledDigits(s[1..]);
      RespelledDigit(s[0]);
      RespelledConcat([s[0]], s[1..]);
      assert s == [s[0]] + s[1..];
    }
  }

  lemma RespelledPadding(group: string)
    requires 0 < |group| <= 3
    ensures Respelled(Padding(group)) == ""
  {
    assert "=="[1..] == "=" && "="[1..] == "";
  }

  /** Going to the URL spelling and back drops exactly the padding. */
  lemma {:induction false} RespellingDropsPadding(s: string)
    requires IsLatin1(s)
    ensures Respelled(Encode(s)) == Unpadded(s)
  {
    if 0 < |s| <= 3 {
      RespelledConcat(Digits(s), Padding(s));
      RespelledDigits(Digits(s));
      RespelledPadding(s);
    } else if |s| > 3 {
      RespellingDropsPadding(s[3..]);
      RespelledConcat(Digits(s[..3]), Encode(s[3..]));
      RespelledDigits(Digits(s[..3]));
    }
  }

  lemma NothingToDrop(s: string)
    requires AllDigits(s)
    ensures DropPadding(s) == s
  {
    if s != "" {
      assert s[|s| - 1..] == [s[|s| - 1]];
      assert |s| >= 2 ==> s[|s| - 2..][1] == s[|s| - 1];
    }
  }

  /** Every byte string survives the URL-safe, unpadded encoding, whatever its length. */
  lemma UrlRoundTrip(s: string)
    requires IsLatin1(s)
    ensures Atob(FromUrl(ToUrl(Encode(s)))) == Some(s)
  {
    RespellingDropsPadding(s);
    UnpaddedReadsBack(s);
    NothingToDrop(Unpadded(s));
  }

  lemma {:induction false} UrlSpellingIsSafe(s: string)
    ensures forall c :: c in ToUrl(s) ==> c != '+' && c != '/' && c != '='
  {
    if s != "" {
      UrlSpellingIsSafe(s[1..]);
    }
  }
}
