// Two-digit hexadecimal printing (packages/nouns-sdk/src/image/utils.ts) and the reading that undoes it.
module Hex {
  import opened Wrappers

  const DIGITS: string := "0123456789abcdef"

  type Byte = n: nat | n < 256

  function Digit(n: nat): char
    requires n < 16
  {
    DIGITS[n]
  }

  // The value of one hexadecimal digit, in either letter case.
  function DigitValue(c: char): Option<nat> {
    if '0' <= c <= '9' then Some(c as int - '0' as int)
    else if 'a' <= c <= 'f' then Some(c as int - 'a' as int + 10)
    else if 'A' <= c <= 'F' then Some(c as int - 'A' as int + 10)
    else None
  }

  // Number.prototype.toString(16): no leading zeros, lower case.
  function ToHex(n: nat): string {
    if n < 16 then [Digit(n)] else ToHex(n / 16) + [Digit(n % 16)]
  }

  // String.prototype.padStart(width, '0').
  function PadStart(s: string, width: nat): string
    decreases width - |s|
  {
    if |s| < width then PadStart(['0'] + s, width) else s
  }

  function ToPaddedHex(c: nat, pad: nat): string {
    PadStart(ToHex(c), pad)
  }

  function RgbToHex(r: Byte, g: Byte, b: Byte): string {
    ToPaddedHex(r, 2) + ToPaddedHex(g, 2) + ToPaddedHex(b, 2)
  }

  // Reads a non-empty string of hexadecimal digits; None is JavaScript's NaN.
  function ParseHex(s: string): Option<nat> {
    if s == [] then None
    else if |s| == 1 then DigitValue(s[0])
    else
      match (ParseHex(s[..|s| - 1]), DigitValue(s[|s| - 1]))
      case (Some(hi), Some(lo)) => Some(16 * hi + lo)
      case _ => None
  }

  lemma DigitRoundTrip(n: nat)
    requires n < 16
    ensures DigitValue(Digit(n)) == Some(n)
  {
  }

  lemma {:induction false} ParseToHex(n: nat)
    ensures ParseHex(ToHex(n)) == Some(n)
    ensures ToHex(n) != []
  {
    if n < 16 {
      DigitRoundTrip(n);
    } else {
      ParseToHex(n / 16);
      DigitRoundTrip(n % 16);
      var s := ToHex(n);
      assert s[..|s| - 1] == ToHex(n / 16);
    }
  }

  lemma {:induction false} ParseLeadingZero(s: string)
    requires s != []
    ensures ParseHex(['0'] + s) == ParseHex(s)
  {
    var z := ['0'] + s;
    assert z[..|z| - 1] == ['0'] + s[..|s| - 1];
    if |s| == 1 {
      assert z[..1] == ['0'];
    } else {
      ParseLeadingZero(s[..|s| - 1]);
    }
  }

  // Padding never changes the number read back.
  lemma {:induction false} ParsePadded(s: string, width: nat)
    requires s != []
    ensures ParseHex(PadStart(s, width)) == ParseHex(s)
    ensures |PadStart(s, width)| == if |s| < width then width else |s|
    decreases width - |s|
  {
    if |s| < width {
      ParseLeadingZero(s);
      ParsePadded(['0'] + s, width);
    }
  }

  lemma PaddedRoundTrip(n: nat, width: nat)
    ensures ParseHex(ToPaddedHex(n, width)) == Some(n)
  {
    ParseToHex(n);
    ParsePadded(ToHex(n), width);
  }

  // A byte prints as exactly two digits and reads back as itself.
  lemma ByteRoundTrip(n: nat)
    requires n < 256
    ensures |ToPaddedHex(n, 2)| == 2
    ensures ParseHex(ToPaddedHex(n, 2)) == Some(n)
  {
    PaddedRoundTrip(n, 2);
    ParseToHex(n);
    ParsePadded(ToHex(n), 2);
    if n >= 16 {
      assert ToHex(n) == [Digit(n / 16)] + [Digit(n % 16)];
    }
  }

  // Different colours have different hex names.
  lemma RgbToHexInjective(r: Byte, g: Byte, b: Byte, r': Byte, g': Byte, b': Byte)
    ensures |RgbToHex(r, g, b)| == 6
    ensures RgbToHex(r, g, b) == RgbToHex(r', g', b') ==> r == r' && g == g' && b == b'
  {
    ByteRoundTrip(r); ByteRoundTrip(g); ByteRoundTrip(b);
    ByteRoundTrip(r'); ByteRoundTrip(g'); ByteRoundTrip(b');
    var x, y := RgbToHex(r, g, b), RgbToHex(r', g', b');
    if x == y {
      assert x[0..2] == ToPaddedHex(r, 2) && y[0..2] == ToPaddedHex(r', 2);
      assert x[2..4] == ToPaddedHex(g, 2) && y[2..4] == ToPaddedHex(g', 2);
      assert x[4..6] == ToPaddedHex(b, 2) && y[4..6] == ToPaddedHex(b', 2);
    }
  }

  lemma ParseSnoc(s: string, c: char)
    requires ParseHex(s).Some? && DigitValue(c).Some?
    ensures ParseHex(s + [c]) == Some(16 * ParseHex(s).value + DigitValue(c).value)
  {
    assert (s + [c])[..|s|] == s;
  }

  lemma PairValue(pair: string)
    requires |pair| == 2 && ParseHex(pair).Some?
    ensures DigitValue(pair[0]).Some? && DigitValue(pair[1]).Some?
    ensures ParseHex(pair).value == 16 * DigitValue(pair[0]).value + DigitValue(pair[1]).value
  {
    assert pair[..1] == [pair[0]];
    hide DigitValue;
  }

  lemma ParsePair(s: string, pair: string)
    requires |pair| == 2 && ParseHex(s).Some? && ParseHex(pair).Some?
    ensures ParseHex(s + pair) == Some(256 * ParseHex(s).value + ParseHex(pair).value)
  {
    hide ParseHex, DigitValue;
    PairValue(pair);
    ParseSnoc(s, pair[0]);
    ParseSnoc(s + [pair[0]], pair[1]);
    assert s + [pair[0]] + [pair[1]] == s + pair;
  }

  // A colour name is the number with red as its highest byte, green in the middle and blue lowest.
  lemma RgbToHexExact(r: Byte, g: Byte, b: Byte)
    ensures |RgbToHex(r, g, b)| == 6
    ensures ParseHex(RgbToHex(r, g, b)) == Some(65536 * r + 256 * g + b)
  {
    hide ToPaddedHex, ParseHex;
    ByteRoundTrip(r);
    ByteRoundTrip(g);
    ByteRoundTrip(b);
    ParsePair(ToPaddedHex(r, 2), ToPaddedHex(g, 2));
    ParsePair(ToPaddedHex(r, 2) + ToPaddedHex(g, 2), ToPaddedHex(b, 2));
  }

  // Bytes written one after another, two digits each (Buffer.toString('hex')).
  function HexBytes(bytes: seq<Byte>): string {
    if bytes == [] then [] else ToPaddedHex(bytes[0], 2) + HexBytes(bytes[1..])
  }
}
