/** `Int.secondsToTime()` (Sources/UNILibCore/Int+Ext.swift): splits a number
    of seconds into hours, minutes and seconds and prints them as
    `"MM:SS"` or `"HH:MM:SS"`, each field zero-padded to two digits. Swift's
    `/` and `%` truncate toward zero; they are written out here because
    Dafny's are Euclidean. */
module TimeFormat {
  import opened Arithmetic

  /** Swift's `a / b` for a positive divisor: truncates toward zero, so `b * q`
      is the multiple of `b` nearest to `a` on the side of zero. */
  function Quot(a: int, b: int): (q: int)
    requires b > 0
    ensures a >= 0 ==> 0 <= b * q <= a < b * q + b
    ensures a < 0 ==> b * q - b < a <= b * q <= 0
  {
    if a >= 0 then
      Quotient(a, b); a / b
    else
      NegatedQuotient(-a, b); -((-a) / b)
  }

  /** The quotient of a non-negative number rounds down. */
  lemma Quotient(x: int, b: int)
    requires b > 0 && x >= 0
    ensures 0 <= b * (x / b) <= x < b * (x / b) + b
  {
    DivMod(x, b);
    assert x / b >= 0;
  }

  /** Negating the quotient of a positive number mirrors its bounds. */
  lemma NegatedQuotient(x: int, b: int)
    requires b > 0 && x > 0
    ensures b * -(x / b) - b < -x <= b * -(x / b) <= 0
  {
    Quotient(x, b);
    assert b * -(x / b) == -(b * (x / b));
  }

  /** Swift's `a % b`: the remainder takes the sign of `a`. */
  function Rem(a: int, b: int): (r: int)
    requires b > 0
    ensures a == b * Quot(a, b) + r
    ensures a >= 0 ==> 0 <= r < b
    ensures a < 0 ==> -b < r <= 0
  {
    a - b * Quot(a, b)
  }

  /** The character of a decimal digit. */
  function DigitChar(d: nat): (c: char)
    requires d < 10
    ensures '0' <= c <= '9'
  {
    ('0' as int + d) as char
  }

  /** The value of a decimal digit character. */
  function DigitValue(c: char): int {
    c as int - '0' as int
  }

  /** `"\(n)"` for `n >= 0`: decimal digits, no leading zeros. */
  function ShowNat(n: nat): (r: seq<char>)
    ensures 1 <= |r|
    ensures n < 10 ==> |r| == 1
    ensures 10 <= n < 100 ==> |r| == 2
    ensures n >= 10 ==> |r| >= 2
    ensures forall i :: 0 <= i < |r| ==> '0' <= r[i] <= '9'
    decreases n
  {
    if n < 10 then [DigitChar(n)] else ShowNat(n / 10) + [DigitChar(n % 10)]
  }

  /** `"\(n)"` for any `Int`: a minus sign in front of a negative number. */
  function ShowInt(n: int): seq<char> {
    if n < 0 then ['-'] + ShowNat(-n) else ShowNat(n)
  }

  /** `n < 10 ? "0\(n)" : "\(n)"`. */
  function Pad(n: int): seq<char> {
    if n < 10 then ['0'] + ShowInt(n) else ShowInt(n)
  }

  /** The `(h, m, s)` tuple of `secondsToTime`. For a non-negative input it is
      the decomposition into hours, minutes below 60 and seconds below 60. */
  function Components(seconds: int): (r: (int, int, int))
    ensures seconds >= 0 ==>
      && r.0 >= 0 && 0 <= r.1 < 60 && 0 <= r.2 < 60
      && r.0 * 3600 + r.1 * 60 + r.2 == seconds
  {
    (Quot(seconds, 3600), Quot(Rem(seconds, 3600), 60), Rem(Rem(seconds, 3600), 60))
  }

  /** `secondsToTime()`. */
  function SecondsToTime(seconds: int): seq<char> {
    var c := Components(seconds);
    if c.0 == 0 then Pad(c.1) + [':'] + Pad(c.2)
    else Pad(c.0) + [':'] + Pad(c.1) + [':'] + Pad(c.2)
  }

  /** Reads decimal digits back. */
  function ParseNat(s: seq<char>): int
    decreases |s|
  {
    if s == [] then 0 else ParseNat(s[..|s| - 1]) * 10 + DigitValue(s[|s| - 1])
  }

  /** Reads `"MM:SS"` or `"HH:MM:SS"` back into a number of seconds: the last
      two digits are seconds, the two before the last colon minutes, anything
      before the first of six trailing characters hours. */
  function TimeToSeconds(t: seq<char>): int
    requires |t| >= 5
  {
    var s := ParseNat(t[|t| - 2..]);
    var m := ParseNat(t[|t| - 5..|t| - 3]);
    var h := if |t| >= 6 then ParseNat(t[..|t| - 6]) else 0;
    h * 3600 + m * 60 + s
  }

  // ---------------------------------------------------------------------------

  lemma {:induction false} ParseShowNat(n: nat)
    ensures ParseNat(ShowNat(n)) == n
    decreases n
  {
    if n >= 10 {
      ParseShowNat(n / 10);
      var r := ShowNat(n);
      assert r[..|r| - 1] == ShowNat(n / 10);
    }
  }

  lemma {:induction false} ParseLeadingZero(x: seq<char>)
    ensures ParseNat(['0'] + x) == ParseNat(x)
    decreases |x|
  {
    if x != [] {
      assert (['0'] + x)[..|x|] == ['0'] + x[..|x| - 1];
      ParseLeadingZero(x[..|x| - 1]);
    } else {
      assert ParseNat(['0'])  == ParseNat([]) * 10 + DigitValue('0');
    }
  }

  /** A padded field of a non-negative number is at least two digits and
      reads back as the number; below 100 it is exactly two digits. */
  lemma PadField(n: int)
    requires n >= 0
    ensures |Pad(n)| >= 2
    ensures n < 100 ==> |Pad(n)| == 2
    ensures n < 10 ==> Pad(n) == ['0', DigitChar(n)]
    ensures forall i :: 0 <= i < |Pad(n)| ==> '0' <= Pad(n)[i] <= '9'
    ensures ParseNat(Pad(n)) == n
  {
    ParseShowNat(n);
    if n < 10 {
      ParseLeadingZero(ShowNat(n));
    }
  }

  /** The layout: with no full hour the text is `"MM:SS"`, five characters;
      otherwise it is `"HH:MM:SS"` with at least two hour digits. Every field
      is zero-padded to two digits. */
  lemma SecondsToTimeLayout(seconds: int)
    requires seconds >= 0
    ensures var (h, m, s) := Components(seconds);
      && (h == 0 ==> SecondsToTime(seconds) == Pad(m) + [':'] + Pad(s) && |SecondsToTime(seconds)| == 5)
      && (h > 0 ==> SecondsToTime(seconds) == Pad(h) + [':'] + Pad(m) + [':'] + Pad(s)
                    && |SecondsToTime(seconds)| >= 8 && |Pad(h)| >= 2)
      && |Pad(m)| == 2 && |Pad(s)| == 2
  {
    var (h, m, s) := Components(seconds);
    PadField(h);
    PadField(m);
    PadField(s);
  }

  /** Reading the fields back gives the number of seconds. */
  lemma SecondsToTimeRoundTrip(seconds: int)
    requires seconds >= 0
    ensures |SecondsToTime(seconds)| >= 5
    ensures TimeToSeconds(SecondsToTime(seconds)) == seconds
  {
    var c := Components(seconds);
    SecondsToTimeLayout(seconds);
    ReadFields(SecondsToTime(seconds), c.0, c.1, c.2);
  }

  lemma ReadFields(t: seq<char>, h: int, m: int, s: int)
    requires h >= 0 && 0 <= m < 60 && 0 <= s < 60
    requires h == 0 ==> t == Pad(m) + [':'] + Pad(s)
    requires h > 0 ==> t == Pad(h) + [':'] + Pad(m) + [':'] + Pad(s)
    ensures |t| >= 5 && TimeToSeconds(t) == h * 3600 + m * 60 + s
  {
    PadField(h);
    PadField(m);
    PadField(s);
    if h == 0 {
      TwoFields(Pad(m), Pad(s));
    } else {
      ThreeFields(Pad(h), Pad(m), Pad(s));
    }
  }

  lemma TwoFields(b: seq<char>, c: seq<char>)
    requires |b| == 2 && |c| == 2
    ensures var t := b + [':'] + c; |t| == 5 && t[|t| - 2..] == c && t[|t| - 5..|t| - 3] == b
  {
  }

  lemma ThreeFields(a: seq<char>, b: seq<char>, c: seq<char>)
    requires |a| >= 2 && |b| == 2 && |c| == 2
    ensures var t := a + [':'] + b + [':'] + c;
      |t| >= 8 && t[|t| - 2..] == c && t[|t| - 5..|t| - 3] == b && t[..|t| - 6] == a
  {
    var t := a + [':'] + b + [':'] + c;
    assert t[|t| - 2..] == c;
    assert t[|t| - 5..|t| - 3] == b;
    assert t[..|t| - 6] == a;
  }

  /** Negative inputs go through Swift's truncating operators unchanged:
      minus five seconds prints as `"00:0-5"`. */
  lemma NegativeInput()
    ensures Components(-5) == (0, 0, -5)
    ensures SecondsToTime(-5) == "00:0-5"
  {
    NegativeLayout();
    PadZeroAndMinusFive();
    JoinFields(Pad(0), Pad(-5));
  }

  lemma NegativeLayout()
    ensures SecondsToTime(-5) == Pad(0) + [':'] + Pad(-5)
  {
    NegativeComponents();
  }

  lemma JoinFields(a: seq<char>, b: seq<char>)
    requires a == "00" && b == "0-5"
    ensures a + [':'] + b == "00:0-5"
  {
  }

  lemma NegativeComponents()
    ensures Components(-5) == (0, 0, -5)
  {
    assert Quot(-5, 3600) == 0;
    assert Rem(-5, 3600) == -5;
    assert Quot(-5, 60) == 0;
  }

  lemma PadZeroAndMinusFive()
    ensures Pad(0) == "00" && Pad(-5) == "0-5"
  {
    assert ShowNat(0) == [DigitChar(0)];
    assert ShowNat(5) == [DigitChar(5)];
  }
}
