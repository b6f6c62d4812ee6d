/** The integer part of `UIColor.init(hexString:)`
    (Sources/UNILibCore/Extensions/UIColor+Ext.swift): trim, scan a
    hexadecimal number, and split it into alpha, red, green and blue
    components in `0 ... 255` according to the number of characters. The
    division of each component by 255 into a `CGFloat` is left out. */
module Colors {
  import opened Arithmetic

  /** A letter or a digit (ASCII). */
  predicate IsAlnum(c: char) {
    ('0' <= c <= '9') || ('a' <= c <= 'z') || ('A' <= c <= 'Z')
  }

  /** The number of non-alphanumeric characters at the front. */
  function LeadingJunk(s: seq<char>): (n: nat)
    ensures n <= |s|
    ensures forall k :: 0 <= k < n ==> !IsAlnum(s[k])
    ensures n < |s| ==> IsAlnum(s[n])
    decreases |s|
  {
    if s != [] && !IsAlnum(s[0]) then 1 + LeadingJunk(s[1..]) else 0
  }

  /** The number of non-alphanumeric characters at the back. */
  function TrailingJunk(s: seq<char>): (n: nat)
    ensures n <= |s|
    ensures forall k :: |s| - n <= k < |s| ==> !IsAlnum(s[k])
    ensures n < |s| ==> IsAlnum(s[|s| - n - 1])
    decreases |s|
  {
    if s != [] && !IsAlnum(s[|s| - 1]) then 1 + TrailingJunk(s[..|s| - 1]) else 0
  }

  /** `trimmingCharacters(in: CharacterSet.alphanumerics.inverted)`: drops
      the non-alphanumeric characters at both ends, keeps the rest. */
  function Trim(s: seq<char>): (r: seq<char>)
    ensures r == [] || (IsAlnum(r[0]) && IsAlnum(r[|r| - 1]))
    ensures r == [] <==> forall k :: 0 <= k < |s| ==> !IsAlnum(s[k])
    ensures r != [] ==> LeadingJunk(s) < |s| - TrailingJunk(s) && r == s[LeadingJunk(s)..|s| - TrailingJunk(s)]
  {
    var t := s[LeadingJunk(s)..];
    TrailingJunkAfterLeading(s);
    t[..|t| - TrailingJunk(t)]
  }

  /** Once the leading junk is dropped, the trailing junk is the same as in
      the whole string, unless nothing is left. */
  lemma TrailingJunkAfterLeading(s: seq<char>)
    ensures var t := s[LeadingJunk(s)..];
      && (t == [] <==> forall k :: 0 <= k < |s| ==> !IsAlnum(s[k]))
      && (t != [] ==> TrailingJunk(t) == TrailingJunk(s) < |t|)
      && (t != [] ==> t[..|t| - TrailingJunk(t)] == s[LeadingJunk(s)..|s| - TrailingJunk(s)])
  {
    var n := LeadingJunk(s);
    var t := s[n..];
    if t == [] {
      assert n == |s|;
    } else {
      assert IsAlnum(s[n]);
      TrailingJunkOfSuffix(s, n);
    }
  }

  /** A suffix that still starts with a letter or digit ends in the same
      junk as the whole string. */
  lemma TrailingJunkOfSuffix(s: seq<char>, n: nat)
    requires n < |s| && IsAlnum(s[n])
    ensures var t := s[n..];
      && TrailingJunk(t) == TrailingJunk(s) < |t|
      && t[..|t| - TrailingJunk(t)] == s[n..|s| - TrailingJunk(s)]
  {
    var t := s[n..];
    assert t[0] == s[n];
    var m := TrailingJunk(t);
    assert m < |t|;
    assert IsAlnum(s[|s| - m - 1]) by {
      assert t[|t| - m - 1] == s[|s| - m - 1];
    }
    forall k | |s| - m <= k < |s| ensures !IsAlnum(s[k]) {
      assert s[k] == t[k - n];
    }
    TrailingJunkUnique(s, m);
    assert t[..|t| - m] == s[n..|s| - m];
  }

  /** The trailing junk is the one count after which everything is junk and
      before which stands a letter or digit. */
  lemma {:induction false} TrailingJunkUnique(s: seq<char>, m: nat)
    requires m < |s| && IsAlnum(s[|s| - m - 1])
    requires forall k :: |s| - m <= k < |s| ==> !IsAlnum(s[k])
    ensures TrailingJunk(s) == m
    decreases m
  {
    if m > 0 {
      var init := s[..|s| - 1];
      assert !IsAlnum(s[|s| - 1]);
      assert init[|init| - (m - 1) - 1] == s[|s| - m - 1];
      forall k | |init| - (m - 1) <= k < |init| ensures !IsAlnum(init[k]) {
        assert init[k] == s[k];
      }
      TrailingJunkUnique(init, m - 1);
    }
  }

  /** A string that starts and ends with a letter or digit is left as it is. */
  lemma TrimKeepsAlnumEnds(s: seq<char>)
    requires s != [] && IsAlnum(s[0]) && IsAlnum(s[|s| - 1])
    ensures Trim(s) == s
  {
    assert LeadingJunk(s) == 0;
    assert s[0..] == s;
    assert TrailingJunk(s) == 0;
  }

  predicate IsHexDigit(c: char) {
    ('0' <= c <= '9') || ('a' <= c <= 'f') || ('A' <= c <= 'F')
  }

  function HexDigitValue(c: char): (v: nat)
    requires IsHexDigit(c)
    ensures v < 16
  {
    if '0' <= c <= '9' then c as int - '0' as int
    else if 'a' <= c <= 'f' then c as int - 'a' as int + 10
    else c as int - 'A' as int + 10
  }

  /** The number of hexadecimal digits at the front. */
  function LeadingHexDigits(s: seq<char>): (n: nat)
    ensures n <= |s|
    ensures forall k :: 0 <= k < n ==> IsHexDigit(s[k])
    ensures n < |s| ==> !IsHexDigit(s[n])
    decreases |s|
  {
    if s != [] && IsHexDigit(s[0]) then 1 + LeadingHexDigits(s[1..]) else 0
  }

  function Pow16(k: nat): (p: nat)
    ensures p >= 1
  {
    if k == 0 then 1 else 16 * Pow16(k - 1)
  }

  /** The value of a string of hexadecimal digits. */
  function HexValue(ds: seq<char>): (v: nat)
    requires forall k :: 0 <= k < |ds| ==> IsHexDigit(ds[k])
    ensures v < Pow16(|ds|)
    decreases |ds|
  {
    if ds == [] then 0 else HexValue(ds[..|ds| - 1]) * 16 + HexDigitValue(ds[|ds| - 1])
  }

  /** `Scanner.scanHexInt32`: skips an optional `0x`/`0X` prefix and reads the
      longest run of hexadecimal digits; with no digit the variable keeps its
      initial 0. */
  function ScanHex(s: seq<char>): (v: nat)
    ensures v < Pow16(|s|)
  {
    var body := if |s| >= 2 && s[0] == '0' && (s[1] == 'x' || s[1] == 'X') then s[2..] else s;
    var n := LeadingHexDigits(body);
    Pow16Mono(n, |s|);
    HexValue(body[..n])
  }

  /** On a string of hexadecimal digits, with or without the `0x` prefix,
      the scan reads the whole string. */
  lemma ScanHexReadsDigits(s: seq<char>)
    ensures (forall k :: 0 <= k < |s| ==> IsHexDigit(s[k])) ==> ScanHex(s) == HexValue(s)
    ensures |s| >= 2 && s[0] == '0' && (s[1] == 'x' || s[1] == 'X') ==>
      (forall k :: 2 <= k < |s| ==> IsHexDigit(s[k])) ==> ScanHex(s) == HexValue(s[2..])
  {
    if |s| >= 2 && s[0] == '0' && (s[1] == 'x' || s[1] == 'X') {
      var body := s[2..];
      if forall k :: 2 <= k < |s| ==> IsHexDigit(s[k]) {
        assert forall k :: 0 <= k < |body| ==> IsHexDigit(body[k]) by {
          forall k | 0 <= k < |body| ensures IsHexDigit(body[k]) {
            assert body[k] == s[k + 2];
          }
        }
        assert LeadingHexDigits(body) == |body|;
        assert body[..|body|] == body;
      }
      assert !IsHexDigit(s[1]);
    } else if forall k :: 0 <= k < |s| ==> IsHexDigit(s[k]) {
      assert LeadingHexDigits(s) == |s|;
      assert s[..|s|] == s;
    }
  }

  lemma {:induction false} Pow16Mono(i: nat, j: nat)
    requires i <= j
    ensures Pow16(i) <= Pow16(j)
    decreases j
  {
    if i < j {
      Pow16Mono(i, j - 1);
    }
  }

  /** Alpha, red, green and blue, each meant to be in `0 ... 255`. */
  datatype Argb = Argb(a: int, r: int, g: int, b: int)

  predicate InByteRange(c: Argb) {
    0 <= c.a <= 255 && 0 <= c.r <= 255 && 0 <= c.g <= 255 && 0 <= c.b <= 255
  }

  /** `init(hexString:)` up to the division by 255. On a non-negative integer
      `x >> k` is `x / 2^k` and `x & (2^k - 1)` is `x % 2^k`; `>>` binds
      tighter than `&`. */
  function DecodeHex(hexString: seq<char>): (c: Argb)
    ensures InByteRange(c)
    ensures |Trim(hexString)| !in {3, 6, 8} ==> c == Argb(255, 0, 0, 0)
    ensures |Trim(hexString)| in {3, 6} ==> c.a == 255
  {
    var hex := Trim(hexString);
    var v := ScanHex(hex);
    if |hex| == 3 then
      assert v < 4096;
      Argb(255, (v / 256) * 17, ((v / 16) % 16) * 17, (v % 16) * 17)
    else if |hex| == 6 then
      assert v < 16777216;
      Argb(255, v / 65536, (v / 256) % 256, v % 256)
    else if |hex| == 8 then
      assert v < 4294967296;
      Argb(v / 16777216, (v / 65536) % 256, (v / 256) % 256, v % 256)
    else
      Argb(255, 0, 0, 0)
  }

  // ---------------------------------------------------------------------------
  // Encoding and the round trip

  function HexChar(d: nat): (c: char)
    requires d < 16
    ensures IsHexDigit(c) && HexDigitValue(c) == d
  {
    if d < 10 then ('0' as int + d) as char else ('A' as int + d - 10) as char
  }

  /** Two uppercase hexadecimal digits of a byte. */
  function Hex2(x: nat): (r: seq<char>)
    requires x < 256
    ensures |r| == 2 && IsHexDigit(r[0]) && IsHexDigit(r[1])
  {
    [HexChar(x / 16), HexChar(x % 16)]
  }

  /** `#AARRGGBB`. */
  function EncodeArgb(c: Argb): seq<char>
    requires InByteRange(c)
  {
    ['#'] + Hex2(c.a) + Hex2(c.r) + Hex2(c.g) + Hex2(c.b)
  }

  lemma HexValueSnoc2(xs: seq<char>, x: nat)
    requires forall k :: 0 <= k < |xs| ==> IsHexDigit(xs[k])
    requires x < 256
    ensures forall k :: 0 <= k < |xs + Hex2(x)| ==> IsHexDigit((xs + Hex2(x))[k])
    ensures HexValue(xs + Hex2(x)) == HexValue(xs) * 256 + x
  {
    var ys := xs + Hex2(x);
    assert ys[..|ys| - 1] == xs + [HexChar(x / 16)];
    assert (xs + [HexChar(x / 16)])[..|xs|] == xs;
    DivMod(x, 16);
  }

  /** A string that starts and ends with a letter or digit, after one
      leading non-alphanumeric character such as `#`, is trimmed back to
      itself. */
  lemma TrimOneLeading(c: char, s: seq<char>)
    requires !IsAlnum(c) && s != [] && IsAlnum(s[0]) && IsAlnum(s[|s| - 1])
    ensures Trim([c] + s) == s
  {
    var w := [c] + s;
    assert LeadingJunk(w) == 1 by {
      assert w[1..] == s;
    }
    assert w[1..] == s;
    TrimKeepsAlnumEnds(s);
  }

  /** The eight digits of `#AARRGGBB` scan as one 32-bit number. */
  lemma ScanEightDigits(c: Argb)
    requires InByteRange(c)
    ensures var digits := Hex2(c.a) + Hex2(c.r) + Hex2(c.g) + Hex2(c.b);
      |digits| == 8 && ScanHex(digits) == ((c.a * 256 + c.r) * 256 + c.g) * 256 + c.b
  {
    var digits := Hex2(c.a) + Hex2(c.r) + Hex2(c.g) + Hex2(c.b);
    assert !(digits[1] == 'x' || digits[1] == 'X');
    assert LeadingHexDigits(digits) == 8;
    assert digits[..8] == digits;
    HexValueSnoc2([], c.a);
    assert [] + Hex2(c.a) == Hex2(c.a);
    HexValueSnoc2(Hex2(c.a), c.r);
    HexValueSnoc2(Hex2(c.a) + Hex2(c.r), c.g);
    HexValueSnoc2(Hex2(c.a) + Hex2(c.r) + Hex2(c.g), c.b);
  }

  /** The shifts and masks of the eight-digit case recover the four bytes. */
  lemma SplitBytes(v: int, a: int, r: int, g: int, b: int)
    requires 0 <= a < 256 && 0 <= r < 256 && 0 <= g < 256 && 0 <= b < 256
    requires v == ((a * 256 + r) * 256 + g) * 256 + b
    ensures v / 16777216 == a && (v / 65536) % 256 == r && (v / 256) % 256 == g && v % 256 == b
  {
    DivUnique(v, 16777216, a);
    DivUnique(v, 65536, a * 256 + r);
    DivUnique(a * 256 + r, 256, a);
    DivUnique(v, 256, (a * 256 + r) * 256 + g);
    DivUnique((a * 256 + r) * 256 + g, 256, a * 256 + r);
  }

  /** Printing the four components as `#AARRGGBB` and decoding gives them back. */
  lemma DecodeEncodedArgb(c: Argb)
    requires InByteRange(c)
    ensures DecodeHex(EncodeArgb(c)) == c
  {
    var s := EncodeArgb(c);
    var digits := Hex2(c.a) + Hex2(c.r) + Hex2(c.g) + Hex2(c.b);
    assert s == ['#'] + digits;
    TrimOneLeading('#', digits);
    ScanEightDigits(c);
    var v := ScanHex(Trim(s));
    SplitBytes(v, c.a, c.r, c.g, c.b);
    DecodeEightDigits(s);
  }

  lemma DecodeEightDigits(s: seq<char>)
    requires |Trim(s)| == 8
    ensures var v := ScanHex(Trim(s));
      DecodeHex(s) == Argb(v / 16777216, (v / 65536) % 256, (v / 256) % 256, v % 256)
  {
  }

  /** With three digits each digit is a component, scaled by 17 so that `F`
      gives 255: `#F80` is opaque orange. */
  lemma ShortForm(s: seq<char>)
    requires s == "#F80"
    ensures DecodeHex(s) == Argb(255, 255, 136, 0)
  {
    var hex := s[1..];
    assert s == ['#'] + hex;
    TrimOneLeading('#', hex);
    DecodeThreeHexDigits(s);
  }

  /** Dropping the last two digits takes away one byte. */
  lemma HexValueLast2(ds: seq<char>)
    requires |ds| >= 2 && forall k :: 0 <= k < |ds| ==> IsHexDigit(ds[k])
    ensures HexValue(ds) ==
      HexValue(ds[..|ds| - 2]) * 256 + 16 * HexDigitValue(ds[|ds| - 2]) + HexDigitValue(ds[|ds| - 1])
  {
    assert ds[..|ds| - 1][..|ds| - 2] == ds[..|ds| - 2];
  }

  /** Three hexadecimal digits `RGB` decode to the opaque colour whose
      components are each digit times 17 (`#RGB` is `#RRGGBB`). */
  lemma DecodeThreeHexDigits(s: seq<char>)
    requires |Trim(s)| == 3
    requires forall k :: 0 <= k < 3 ==> IsHexDigit(Trim(s)[k])
    ensures var t := Trim(s);
      DecodeHex(s) == Argb(255, 17 * HexDigitValue(t[0]), 17 * HexDigitValue(t[1]), 17 * HexDigitValue(t[2]))
  {
    var t := Trim(s);
    ScanHexReadsDigits(t);
    HexValueThree(t);
    SplitNibbles(ScanHex(t), HexDigitValue(t[0]), HexDigitValue(t[1]), HexDigitValue(t[2]));
    DecodeThreeDigits(s);
  }

  lemma HexValueThree(t: seq<char>)
    requires |t| == 3 && forall k :: 0 <= k < 3 ==> IsHexDigit(t[k])
    ensures HexValue(t) == HexDigitValue(t[0]) * 256 + 16 * HexDigitValue(t[1]) + HexDigitValue(t[2])
  {
    HexValueLast2(t);
    assert t[..1][..0] == [];
  }

  /** The shifts and masks of the three-digit case recover the digits. */
  lemma SplitNibbles(v: int, d0: int, d1: int, d2: int)
    requires 0 <= d0 < 16 && 0 <= d1 < 16 && 0 <= d2 < 16
    requires v == d0 * 256 + 16 * d1 + d2
    ensures v / 256 == d0 && (v / 16) % 16 == d1 && v % 16 == d2
  {
    DivUnique(v, 256, d0);
    DivUnique(v, 16, 16 * d0 + d1);
    DivUnique(16 * d0 + d1, 16, d0);
  }

  /** Six hexadecimal digits `RRGGBB` decode to the opaque colour whose
      components are the three two-digit numbers. */
  lemma DecodeSixHexDigits(s: seq<char>)
    requires |Trim(s)| == 6
    requires forall k :: 0 <= k < 6 ==> IsHexDigit(Trim(s)[k])
    ensures var t := Trim(s);
      DecodeHex(s) == Argb(255,
        16 * HexDigitValue(t[0]) + HexDigitValue(t[1]),
        16 * HexDigitValue(t[2]) + HexDigitValue(t[3]),
        16 * HexDigitValue(t[4]) + HexDigitValue(t[5]))
  {
    var t := Trim(s);
    ScanHexReadsDigits(t);
    HexValueSix(t);
    SplitBytes(ScanHex(t), 0,
      16 * HexDigitValue(t[0]) + HexDigitValue(t[1]),
      16 * HexDigitValue(t[2]) + HexDigitValue(t[3]),
      16 * HexDigitValue(t[4]) + HexDigitValue(t[5]));
    DecodeSixDigits(s);
  }

  lemma HexValueSix(t: seq<char>)
    requires |t| == 6 && forall k :: 0 <= k < 6 ==> IsHexDigit(t[k])
    ensures HexValue(t) ==
      (((16 * HexDigitValue(t[0]) + HexDigitValue(t[1])) * 256
        + 16 * HexDigitValue(t[2]) + HexDigitValue(t[3])) * 256
        + 16 * HexDigitValue(t[4]) + HexDigitValue(t[5]))
  {
    HexValueLast2(t);
    assert t[..4][..2] == t[..2];
    HexValueLast2(t[..4]);
    assert t[..2][..0] == [];
    HexValueLast2(t[..2]);
  }

  lemma DecodeSixDigits(s: seq<char>)
    requires |Trim(s)| == 6
    ensures var v := ScanHex(Trim(s));
      DecodeHex(s) == Argb(255, v / 65536, (v / 256) % 256, v % 256)
  {
  }

  /** Printing three components as `#RRGGBB` and decoding gives the opaque
      colour with those components. */
  lemma DecodeEncodedRgb(r: nat, g: nat, b: nat)
    requires r < 256 && g < 256 && b < 256
    ensures DecodeHex(['#'] + Hex2(r) + Hex2(g) + Hex2(b)) == Argb(255, r, g, b)
  {
    var digits := Hex2(r) + Hex2(g) + Hex2(b);
    assert ['#'] + Hex2(r) + Hex2(g) + Hex2(b) == ['#'] + digits;
    TrimOneLeading('#', digits);
    DivMod(r, 16);
    DivMod(g, 16);
    DivMod(b, 16);
    DecodeSixHexDigits(['#'] + digits);
  }

  lemma DecodeThreeDigits(s: seq<char>)
    requires |Trim(s)| == 3
    ensures var v := ScanHex(Trim(s));
      DecodeHex(s) == Argb(255, (v / 256) * 17, ((v / 16) % 16) * 17, (v % 16) * 17)
  {
  }
}
