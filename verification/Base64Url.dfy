/** Unpadded base64url (section 5 of RFC 4648), as the token service encodes and decodes it. */
module Base64Url {
  import opened Prelude

  type Sextet = v: int | 0 <= v < 64

  /** Letters, digits, '-' and '_'. */
  function Digit(v: Sextet): char {
    if v < 26 then ('A' as int + v) as char
    else if v < 52 then ('a' as int + v - 26) as char
    else if v < 62 then ('0' as int + v - 52) as char
    else if v == 62 then '-'
    else '_'
  }

  /** The decoder accepts the standard alphabet's last two characters as well. */
  function DigitValue(c: char): Option<Sextet> {
    if 'A' <= c <= 'Z' then Some(c as int - 'A' as int)
    else if 'a' <= c <= 'z' then Some(c as int - 'a' as int + 26)
    else if '0' <= c <= '9' then Some(c as int - '0' as int + 52)
    else if c == '-' || c == '+' then Some(62)
    else if c == '_' || c == '/' then Some(63)
    else None
  }

  // ---------- Encoding ----------

  /** With padding, as the library encodes. */
  function EncodePadded(bs: seq<Byte>): string {
    if bs == [] then ""
    else if |bs| == 1 then [Digit(bs[0] / 4), Digit(bs[0] % 4 * 16), '=', '=']
    else if |bs| == 2 then
      [Digit(bs[0] / 4), Digit(bs[0] % 4 * 16 + bs[1] / 16), Digit(bs[1] % 16 * 4), '=']
    else Group(bs[0], bs[1], bs[2]) + EncodePadded(bs[3..])
  }

  /** Three bytes in four digits. */
  function Group(a: Byte, b: Byte, c: Byte): string {
    [Digit(a / 4), Digit(a % 4 * 16 + b / 16), Digit(b % 16 * 4 + c / 64), Digit(c % 64)]
  }

  /** Python's str.rstrip("="). */
  function StripPadding(s: string): string {
    if s != "" && s[|s| - 1] == '=' then StripPadding(s[..|s| - 1]) else s
  }

  function Encode(bs: seq<Byte>): string {
    StripPadding(EncodePadded(bs))
  }

  // ---------- Decoding ----------

  /** The library's lenient decoder: skips foreign characters, and stops at complete padding. It holds the
      position in the group of four, the bits left over from the last digit, and the padding seen. None is
      the error for an incomplete group. */
  function DecodeFrom(s: string, quad: nat, left: nat, pads: nat): Option<seq<Byte>>
    requires quad < 4 && left < 64 && (quad == 2 ==> left < 16) && (quad == 3 ==> left < 4)
  {
    if s == "" then if quad == 0 then Some([]) else None
    else if s[0] == '=' then
      if quad >= 2 && quad + pads + 1 >= 4 then Some([])
      else DecodeFrom(s[1..], quad, left, if quad >= 2 then pads + 1 else pads)
    else
      match DigitValue(s[0])
      case None => DecodeFrom(s[1..], quad, left, pads)
      case Some(v) =>
        if quad == 0 then DecodeFrom(s[1..], 1, v, 0)
        else if quad == 1 then Prepend(left * 4 + v / 16, DecodeFrom(s[1..], 2, v % 16, 0))
        else if quad == 2 then Prepend(left * 16 + v / 4, DecodeFrom(s[1..], 3, v % 4, 0))
        else Prepend(left * 64 + v, DecodeFrom(s[1..], 0, 0, 0))
  }

  lemma PrependNothing(b: Byte)
    ensures Prepend(b, Some([])) == Some([b])
  {
    assert [b] + [] == [b];
  }

  function Prepend(b: Byte, rest: Option<seq<Byte>>): Option<seq<Byte>> {
    match rest
    case None => None
    case Some(bs) => Some([b] + bs)
  }

  /** "=" times -n % 4, where Python's remainder is never negative. */
  function Padding(n: nat): string {
    match n % 4
    case 0 => ""
    case 1 => "==="
    case 2 => "=="
    case _ => "="
  }

  predicate Ascii(s: string) {
    forall c | c in s :: c as int < 128
  }

  function Decode(s: string): Option<seq<Byte>> {
    if !Ascii(s) then None else DecodeFrom(s + Padding(|s|), 0, 0, 0)
  }

  // ---------- Round trip ----------

  /** The characters that encoding can produce. */
  predicate Encoded(s: string) {
    forall i :: 0 <= i < |s| ==> DigitValue(s[i]).Some? && s[i] != '+' && s[i] != '/' && s[i] != '=' && s[i] != '.'
                                 && s[i] as int < 128
  }

  lemma DigitRoundTrip(v: Sextet)
    ensures DigitValue(Digit(v)) == Some(v)
    ensures Encoded([Digit(v)])
  {
  }

  lemma StripTwo(a: char, b: char)
    requires a != '=' && b != '='
    ensures StripPadding([a, b, '=', '=']) == [a, b]
  {
    assert [a, b, '=', '='][..3] == [a, b, '='] && [a, b, '='][..2] == [a, b];
    assert StripPadding([a, b, '=']) == StripPadding([a, b]);
  }

  lemma StripOne(a: char, b: char, c: char)
    requires c != '='
    ensures StripPadding([a, b, c, '=']) == [a, b, c]
  {
    assert [a, b, c, '='][..3] == [a, b, c];
    assert StripPadding([a, b, c]) == [a, b, c];
  }

  /** Stripping removes exactly the padding, and padding to a multiple of four restores exactly it. */
  lemma {:induction false} StripIsUndone(bs: seq<Byte>)
    ensures Encoded(Encode(bs))
    ensures EncodePadded(bs) == Encode(bs) + Padding(|Encode(bs)|)
    ensures Encode(bs) == "" <==> bs == []
  {
    if |bs| == 1 {
      DigitRoundTrip(bs[0] / 4);
      DigitRoundTrip(bs[0] % 4 * 16);
      StripTwo(Digit(bs[0] / 4), Digit(bs[0] % 4 * 16));
    } else if |bs| == 2 {
      DigitRoundTrip(bs[0] / 4);
      DigitRoundTrip(bs[0] % 4 * 16 + bs[1] / 16);
      DigitRoundTrip(bs[1] % 16 * 4);
      StripOne(Digit(bs[0] / 4), Digit(bs[0] % 4 * 16 + bs[1] / 16), Digit(bs[1] % 16 * 4));
    } else if |bs| > 2 {
      StripIsUndone(bs[3..]);
      GroupEncoded(bs[0], bs[1], bs[2]);
      StripGroup(Group(bs[0], bs[1], bs[2]), EncodePadded(bs[3..]), Encode(bs[3..]));
    }
  }

  lemma GroupEncoded(a: Byte, b: Byte, c: Byte)
    ensures Encoded(Group(a, b, c))
  {
    DigitRoundTrip(a / 4);
    DigitRoundTrip(a % 4 * 16 + b / 16);
    DigitRoundTrip(b % 16 * 4 + c / 64);
    DigitRoundTrip(c % 64);
  }

  lemma StripGroup(group: string, padded: string, stripped: string)
    requires |group| == 4 && Encoded(group) && Encoded(stripped)
    requires stripped == StripPadding(padded) && padded == stripped + Padding(|stripped|)
    ensures StripPadding(group + padded) == group + stripped
    ensures Encoded(group + stripped)
    ensures group + padded == group + stripped + Padding(|group + stripped|)
  {
    StripAfter(group, padded);
    assert |group + stripped| % 4 == |stripped| % 4;
  }

  lemma {:induction false} StripAfter(group: string, rest: string)
    requires group != "" && group[|group| - 1] != '='
    ensures StripPadding(group + rest) == group + StripPadding(rest)
  {
    if rest == "" {
      assert group + rest == group;
    } else {
      assert (group + rest)[..|group + rest| - 1] == group + rest[..|rest| - 1];
      StripAfter(group, rest[..|rest| - 1]);
    }
  }

  /** Decoding one encoded digit. */
  lemma DecodeDigit(v: Sextet, rest: string, quad: nat, left: nat)
    requires quad < 4 && left < 64 && (quad == 2 ==> left < 16) && (quad == 3 ==> left < 4)
    ensures DecodeFrom([Digit(v)] + rest, quad, left, 0) ==
            if quad == 0 then DecodeFrom(rest, 1, v, 0)
            else if quad == 1 then Prepend(left * 4 + v / 16, DecodeFrom(rest, 2, v % 16, 0))
            else if quad == 2 then Prepend(left * 16 + v / 4, DecodeFrom(rest, 3, v % 4, 0))
            else Prepend(left * 64 + v, DecodeFrom(rest, 0, 0, 0))
  {
    DigitRoundTrip(v);
    var s := [Digit(v)] + rest;
    assert s[0] == Digit(v) && s[1..] == rest;
  }

  /** The digits of three bytes put together again. */
  lemma Regroup(a: Byte, b: Byte, c: Byte)
    ensures a / 4 * 4 + (a % 4 * 16 + b / 16) / 16 == a
    ensures (a % 4 * 16 + b / 16) % 16 * 16 + (b % 16 * 4 + c / 64) / 4 == b
    ensures (b % 16 * 4 + c / 64) % 4 * 64 + c % 64 == c
  {
    assert (a % 4 * 16 + b / 16) / 16 == a % 4 && (a % 4 * 16 + b / 16) % 16 == b / 16;
    assert (b % 16 * 4 + c / 64) / 4 == b % 16 && (b % 16 * 4 + c / 64) % 4 == c / 64;
  }

  lemma OneByte(a: Byte)
    ensures DecodeFrom([Digit(a / 4), Digit(a % 4 * 16), '=', '='], 0, 0, 0) == Some([a])
  {
    var v0, v1 := a / 4, a % 4 * 16;
    Regroup(a, 0, 0);
    PrependNothing(a);
    assert v0 * 4 + v1 / 16 == a;
    assert "=="[1..] == "=";
    assert DecodeFrom("==", 2, v1 % 16, 0) == Some([]);
    DecodeDigit(v1, "==", 1, v0);
    DecodeDigit(v0, [Digit(v1)] + "==", 0, 0);
    assert [Digit(v0)] + ([Digit(v1)] + "==") == [Digit(v0), Digit(v1), '=', '='];
  }

  lemma TwoBytes(a: Byte, b: Byte)
    ensures DecodeFrom([Digit(a / 4), Digit(a % 4 * 16 + b / 16), Digit(b % 16 * 4), '='], 0, 0, 0) == Some([a, b])
  {
    var v0, v1, v2 := a / 4, a % 4 * 16 + b / 16, b % 16 * 4;
    Regroup(a, b, 0);
    PrependNothing(b);
    assert v0 * 4 + v1 / 16 == a && v1 % 16 * 16 + v2 / 4 == b;
    assert DecodeFrom("=", 3, v2 % 4, 0) == Some([]);
    DecodeDigit(v2, "=", 2, v1 % 16);
    DecodeDigit(v1, [Digit(v2)] + "=", 1, v0);
    DecodeDigit(v0, [Digit(v1)] + ([Digit(v2)] + "="), 0, 0);
    assert [Digit(v0)] + ([Digit(v1)] + ([Digit(v2)] + "=")) == [Digit(v0), Digit(v1), Digit(v2), '='];
    assert [a] + [b] == [a, b];
  }

  lemma ThreeBytes(a: Byte, b: Byte, c: Byte, rest: string, bs: seq<Byte>)
    requires DecodeFrom(rest, 0, 0, 0) == Some(bs)
    ensures DecodeFrom(Group(a, b, c) + rest, 0, 0, 0) == Some([a, b, c] + bs)
  {
    var v0, v1, v2, v3 := a / 4, a % 4 * 16 + b / 16, b % 16 * 4 + c / 64, c % 64;
    Regroup(a, b, c);
    DecodeDigit(v3, rest, 3, v2 % 4);
    DecodeDigit(v2, [Digit(v3)] + rest, 2, v1 % 16);
    DecodeDigit(v1, [Digit(v2)] + ([Digit(v3)] + rest), 1, v0);
    DecodeDigit(v0, [Digit(v1)] + ([Digit(v2)] + ([Digit(v3)] + rest)), 0, 0);
    Regrouped([Digit(v0)], [Digit(v1)], [Digit(v2)], [Digit(v3)], rest);
    Regrouped([a], [b], [c], bs, []);
    assert [a, b, c] == [a] + [b] + [c];
    assert Group(a, b, c) == [Digit(v0)] + [Digit(v1)] + [Digit(v2)] + [Digit(v3)];
    assert v0 * 4 + v1 / 16 == a && v1 % 16 * 16 + v2 / 4 == b && v2 % 4 * 64 + v3 == c;
  }

  lemma Regrouped<T>(a: seq<T>, b: seq<T>, c: seq<T>, d: seq<T>, e: seq<T>)
    ensures a + (b + (c + (d + e))) == a + b + c + d + e
    ensures a + (b + (c + d)) == a + b + c + d
  {
  }

  lemma {:induction false} PaddedRoundTrip(bs: seq<Byte>)
    ensures DecodeFrom(EncodePadded(bs), 0, 0, 0) == Some(bs)
  {
    if |bs| == 1 {
      assert bs == [bs[0]];
      OneByte(bs[0]);
    } else if |bs| == 2 {
      assert bs == [bs[0], bs[1]];
      TwoBytes(bs[0], bs[1]);
    } else if |bs| > 2 {
      PaddedRoundTrip(bs[3..]);
      ThreeBytes(bs[0], bs[1], bs[2], EncodePadded(bs[3..]), bs[3..]);
      assert bs == [bs[0], bs[1], bs[2]] + bs[3..];
    }
  }

  /** Every byte string survives. */
  lemma RoundTrip(bs: seq<Byte>)
    ensures Decode(Encode(bs)) == Some(bs)
  {
    StripIsUndone(bs);
    PaddedRoundTrip(bs);
  }

  // ---------- The alphabet and the bits ----------

  lemma UpperCase(v: Sextet)
    requires v < 26
    ensures Digit(v) == "ABCDEFGHIJKLMNOPQRSTUVWXYZ"[v]
  {
  }

  lemma LowerCase(v: Sextet)
    requires 26 <= v < 52
    ensures Digit(v) == "abcdefghijklmnopqrstuvwxyz"[v - 26]
  {
  }

  lemma Numerals(v: Sextet)
    requires 52 <= v
    ensures Digit(v) == "0123456789-_"[v - 52]
  {
  }

  /** The digits' values from the first on, as one number. */
  function NumberOf(text: string): nat {
    if text == "" then 0
    else NumberOf(text[..|text| - 1]) * 64 + match DigitValue(text[|text| - 1]) case None => 0 case Some(v) => v
  }

  lemma OneMoreDigit(text: string, v: Sextet)
    ensures NumberOf(text + [Digit(v)]) == NumberOf(text) * 64 + v
  {
    DigitRoundTrip(v);
    assert (text + [Digit(v)])[..|text|] == text;
  }

  lemma FourDigits(a: Sextet, b: Sextet, c: Sextet, d: Sextet)
    ensures NumberOf([Digit(a), Digit(b)]) == a * 64 + b
    ensures NumberOf([Digit(a), Digit(b), Digit(c)]) == (a * 64 + b) * 64 + c
    ensures NumberOf([Digit(a), Digit(b), Digit(c), Digit(d)]) == ((a * 64 + b) * 64 + c) * 64 + d
  {
    var one := [Digit(a)];
    var two := one + [Digit(b)];
    var three := two + [Digit(c)];
    OneMoreDigit("", a);
    assert "" + one == one;
    OneMoreDigit(one, b);
    OneMoreDigit(two, c);
    OneMoreDigit(three, d);
    assert two == [Digit(a), Digit(b)] && three == [Digit(a), Digit(b), Digit(c)];
    assert three + [Digit(d)] == [Digit(a), Digit(b), Digit(c), Digit(d)];
  }

  /** The same 24 bits, as three bytes and as four digits. */
  lemma ThreeBytesBits(a: int, b: int, c: int)
    requires 0 <= a < 256 && 0 <= b < 256 && 0 <= c < 256
    ensures ((a / 4 * 64 + (a % 4 * 16 + b / 16)) * 64 + (b % 16 * 4 + c / 64)) * 64 + c % 64 == (a * 256 + b) * 256 + c
  {
    assert a == a / 4 * 4 + a % 4 && b == b / 16 * 16 + b % 16 && c == c / 64 * 64 + c % 64;
  }

  /** Three bytes and their four digits are the same 24 bits; what is left over at the end is filled up with zeros to
      whole digits. Any further bytes follow. */
  lemma SameBits(a: Byte, b: Byte, c: Byte, bs: seq<Byte>)
    ensures var text := EncodePadded([a, b, c] + bs);
            |text| >= 4 && NumberOf(text[..4]) == (a as int * 256 + b) * 256 + c && text[4..] == EncodePadded(bs)
    ensures var text := EncodePadded([a, b]);
            |text| == 4 && NumberOf(text[..3]) == (a as int * 256 + b) * 4 && text[3] == '='
    ensures var text := EncodePadded([a]); |text| == 4 && NumberOf(text[..2]) == a as int * 16 && text[2..] == "=="
  {
    FourDigits(a / 4, a % 4 * 16 + b / 16, b % 16 * 4 + c / 64, c % 64);
    ThreeBytesBits(a, b, c);
    assert ([a, b, c] + bs)[3..] == bs;
    assert EncodePadded([a, b, c] + bs)[..4] == Group(a, b, c);
    TwoBytesBits(a, b);
    FourDigits(a / 4, a % 4 * 16, 0, 0);
    assert EncodePadded([a])[..2] == [Digit(a / 4), Digit(a % 4 * 16)];
  }

  lemma TwoBytesBits(a: Byte, b: Byte)
    ensures var text := EncodePadded([a, b]);
            |text| == 4 && NumberOf(text[..3]) == (a as int * 256 + b) * 4 && text[3] == '='
  {
    FourDigits(a / 4, a % 4 * 16 + b / 16, b % 16 * 4, 0);
    ThreeBytesBits(a, b, 0);
    assert EncodePadded([a, b])[..3] == [Digit(a / 4), Digit(a % 4 * 16 + b / 16), Digit(b % 16 * 4)];
  }
}
