/**
 * Rendering durations: the decimal text of a number, JavaScript's
 * truncating remainder, `padStart`/`padEnd`, and the `mm:ss.mmm` format.
 */
module TimeFormat {

  /** The character of a decimal digit. */
  function DigitChar(d: nat): (c: char)
    requires d < 10
    ensures '0' <= c <= '9' && (c as int) - ('0' as int) == d
  {
    (('0' as int) + d) as char
  }

  predicate IsDigit(c: char)
  {
    '0' <= c <= '9'
  }

  predicate AllDigits(s: string)
  {
    forall k :: 0 <= k < |s| ==> IsDigit(s[k])
  }

  /** The decimal text of a natural number, no leading zeros (`${n}`). */
  function NatToString(n: nat): (s: string)
    ensures |s| >= 1 && AllDigits(s)
    ensures n < 10 <==> |s| == 1
    ensures s[0] == '0' <==> n == 0
  {
    if n < 10 then [DigitChar(n)] else NatToString(n / 10) + [DigitChar(n % 10)]
  }

  /** The decimal text of an integer, with a leading `-` when negative. */
  function IntToString(i: int): string
  {
    if i < 0 then "-" + NatToString(-i) else NatToString(i)
  }

  /** The value of a string of digits, read most significant first. */
  function ParseNat(s: string): nat
    requires AllDigits(s)
  {
    if s == [] then 0
    else ParseNat(s[..|s| - 1]) * 10 + ((s[|s| - 1] as int) - ('0' as int))
  }

  /** Reading the text of a number gives the number back. */
  lemma {:induction false} ParseNatToString(n: nat)
    ensures ParseNat(NatToString(n)) == n
  {
    if n >= 10 {
      var s := NatToString(n);
      assert s[..|s| - 1] == NatToString(n / 10);
      ParseNatToString(n / 10);
    }
  }

  /** Leading zeros do not change the value read. */
  lemma {:induction false} ParseNatLeadingZero(s: string)
    requires AllDigits(s)
    ensures ParseNat("0" + s) == ParseNat(s)
  {
    if s != [] {
      var t := "0" + s;
      assert t[..|t| - 1] == "0" + s[..|s| - 1];
      ParseNatLeadingZero(s[..|s| - 1]);
    }
  }

  /** `n` copies of `c`. */
  function Repeat(c: char, n: nat): (r: string)
    ensures |r| == n && forall k :: 0 <= k < n ==> r[k] == c
  {
    if n == 0 then "" else [c] + Repeat(c, n - 1)
  }

  /** `s.padStart(width, c)`. */
  function PadStart(s: string, width: nat, c: char): (r: string)
    ensures |r| == if |s| < width then width else |s|
    ensures r[|r| - |s|..] == s && forall k :: 0 <= k < |r| - |s| ==> r[k] == c
  {
    if |s| < width then Repeat(c, width - |s|) + s else s
  }

  /** `s.padEnd(width, c)`. */
  function PadEnd(s: string, width: nat, c: char): (r: string)
    ensures |r| == if |s| < width then width else |s|
    ensures r[..|s|] == s && forall k :: |s| <= k < |r| ==> r[k] == c
  {
    if |s| < width then s + Repeat(c, width - |s|) else s
  }

  lemma {:induction false} ParseZeros(s: string, n: nat)
    requires AllDigits(s)
    ensures AllDigits(Repeat('0', n) + s)
    ensures ParseNat(Repeat('0', n) + s) == ParseNat(s)
  {
    if n > 0 {
      ParseZeros(s, n - 1);
      var t := Repeat('0', n - 1) + s;
      assert Repeat('0', n) + s == "0" + t;
      ParseNatLeadingZero(t);
    } else {
      assert Repeat('0', n) + s == s;
    }
  }

  /** Zero-padding a number's text on the left keeps its value and its digits. */
  lemma PadStartValue(n: nat, width: nat)
    ensures AllDigits(PadStart(NatToString(n), width, '0'))
    ensures ParseNat(PadStart(NatToString(n), width, '0')) == n
  {
    var s := NatToString(n);
    var p := PadStart(s, width, '0');
    ParseNatToString(n);
    if |s| < width {
      assert p == Repeat('0', width - |s|) + s;
      ParseZeros(s, width - |s|);
    } else {
      assert p == s;
    }
  }

  /** JavaScript's `a % b` for `b > 0`: the remainder takes the sign of `a`. */
  function JsRem(a: int, b: int): (r: int)
    requires b > 0
    ensures a >= 0 ==> r == a % b
    ensures a < 0 ==> r <= 0
    ensures -b < r < b
    ensures (a - r) % b == 0
  {
    if a >= 0 then
      assert a - a % b == (a / b) * b;
      MultipleOf(a / b, b);
      a % b
    else
      NegativeRem(a, b);
      -((-a) % b)
  }

  /** Taking away the negated remainder of `-a` from a negative `a` leaves a multiple of `b`. */
  lemma NegativeRem(a: int, b: int)
    requires a < 0 && b > 0
    ensures (a - -((-a) % b)) % b == 0
  {
    var x := -a;
    var q := x / b;
    assert x == q * b + x % b;
    assert a - -(x % b) == (-q) * b;
    MultipleOf(-q, b);
  }

  /** A multiple of `b` leaves no remainder. */
  lemma MultipleOf(t: int, b: int)
    requires b > 0
    ensures (t * b) % b == 0
  {
    var x := t * b;
    var d := x / b;
    assert x == b * d + x % b;
    assert x % b == b * (t - d);
    ProductBounds(b, t - d);
  }

  /** A positive factor keeps a product away from zero when the other factor is not zero. */
  lemma ProductBounds(b: int, t: int)
    requires b > 0
    ensures t >= 1 ==> b * t >= b
    ensures t <= -1 ==> b * t <= -b
  {
  }

  /** `${Math.floor(ms / 1000 / 60)}` padded to two characters. */
  function MinutesField(ms: int): string
  {
    PadStart(IntToString(ms / 60000), 2, '0')
  }

  /** `${Math.floor(ms / 1000) % 60}` padded to two characters. */
  function SecondsField(ms: int): string
  {
    PadStart(IntToString(JsRem(ms / 1000, 60)), 2, '0')
  }

  /** `formatMilliseconds`, as written: the millisecond field is padded on the right. */
  function FormatMilliseconds(ms: int): string
  {
    MinutesField(ms) + ":" + SecondsField(ms) + "." + PadEnd(IntToString(JsRem(ms, 1000)), 3, '0')
  }

  /** The format with the millisecond field padded on the left, as `.005` for 5 ms. */
  function FormatMillisecondsPadded(ms: int): string
  {
    MinutesField(ms) + ":" + SecondsField(ms) + "." + PadStart(IntToString(JsRem(ms, 1000)), 3, '0')
  }

  /**
   * For a natural duration the minutes field is the whole minutes, at least
   * two digits; the seconds field is exactly two digits reading the seconds
   * past the minute, 0 to 59.
   */
  lemma TimeFields(ms: nat)
    ensures var m := MinutesField(ms);
      && |m| >= 2 && AllDigits(m) && ParseNat(m) == ms / 60000
    ensures var s := SecondsField(ms);
      && |s| == 2 && AllDigits(s) && ParseNat(s) == (ms / 1000) % 60 && ParseNat(s) < 60
  {
    PadStartValue(ms / 60000, 2);
    PadStartValue((ms / 1000) % 60, 2);
    assert |NatToString((ms / 1000) % 60)| <= 2;
  }

  /** As written, 5 ms, 50 ms and 500 ms render alike: all three fractions read `500`. */
  lemma FractionPaddedOnTheRight()
    ensures FormatMilliseconds(5) == FormatMilliseconds(50) == FormatMilliseconds(500) == "00:00.500"
  {
    FractionTexts();
    FractionReads500(5);
    FractionReads500(50);
    FractionReads500(500);
  }

  /** Under one second, a fraction whose padded text is `500` renders `00:00.500`. */
  lemma FractionReads500(ms: nat)
    requires ms < 1000 && PadEnd(NatToString(ms), 3, '0') == "500"
    ensures FormatMilliseconds(ms) == "00:00.500"
  {
    FractionUnderOneSecond(ms);
    Join500(PadEnd(NatToString(ms), 3, '0'));
  }

  lemma Join500(f: string)
    requires f == "500"
    ensures "00:00." + f == "00:00.500"
  {
  }

  /** Under one second the format is `00:00.` and the milliseconds padded on the right. */
  lemma FractionUnderOneSecond(ms: nat)
    requires ms < 1000
    ensures FormatMilliseconds(ms) == "00:00." + PadEnd(NatToString(ms), 3, '0')
  {
    var f := PadEnd(NatToString(ms % 1000), 3, '0');
    UnderOneSecond(ms);
    SmallQuotients(ms);
    FormatAsWritten(ms);
    ZeroFieldsJoin(f);
  }

  lemma ZeroFieldsJoin(f: string)
    ensures "00" + ":" + "00" + "." + f == "00:00." + f
  {
  }

  /** Padded on the right, the texts of 5, 50 and 500 all read `500`. */
  lemma FractionTexts()
    ensures PadEnd(NatToString(5), 3, '0') == "500"
    ensures PadEnd(NatToString(50), 3, '0') == "500"
    ensures PadEnd(NatToString(500), 3, '0') == "500"
  {
    assert NatToString(5) == "5";
    assert NatToString(50) == "50";
    assert NatToString(500) == "500";
  }

  /** Under one second, both the minutes and the seconds field read `00`. */
  lemma UnderOneSecond(ms: nat)
    requires ms < 1000
    ensures MinutesField(ms) == "00" && SecondsField(ms) == "00"
  {
    SmallQuotients(ms);
    ZeroField();
  }

  lemma SmallQuotients(ms: nat)
    requires ms < 1000
    ensures ms / 60000 == 0 && ms / 1000 == 0 && JsRem(ms, 1000) == ms
  {
  }

  /** Zero whole minutes or seconds give the field `00`. */
  lemma ZeroField()
    ensures PadStart(IntToString(0), 2, '0') == "00"
    ensures PadStart(IntToString(JsRem(0, 60)), 2, '0') == "00"
  {
    assert IntToString(0) == "0";
    assert PadStart("0", 2, '0') == Repeat('0', 1) + "0";
  }

  /** Repeated digits are digits. */
  lemma RepeatDigits(s: string, n: nat)
    requires AllDigits(s)
    ensures AllDigits(s + Repeat('0', n)) && AllDigits(Repeat('0', n) + s)
  {
  }

  /**
   * For a natural duration the format, as written, is the minutes, one `:`,
   * the two seconds digits, one `.` and three fraction digits: every other
   * character is a digit.
   */
  lemma FormatShape(ms: nat)
    ensures var t := FormatMilliseconds(ms); var m := MinutesField(ms);
      && |t| == |m| + 7 && t[|m|] == ':' && t[|m| + 3] == '.'
      && forall k :: 0 <= k < |t| && k != |m| && k != |m| + 3 ==> IsDigit(t[k])
  {
    var m, sec, f := MinutesField(ms), SecondsField(ms), PadEnd(NatToString(ms % 1000), 3, '0');
    FieldDigits(ms);
    FormatAsWritten(ms);
    FractionDigits(ms);
    ShapeOfParts(FormatMilliseconds(ms), m, sec, f);
  }

  /** The minutes field is digits; the seconds field is two digits. */
  lemma FieldDigits(ms: nat)
    ensures AllDigits(MinutesField(ms)) && |SecondsField(ms)| == 2 && AllDigits(SecondsField(ms))
  {
    TimeFields(ms);
  }

  /** For a natural duration the fraction, as written, is its milliseconds past the second padded on the right. */
  lemma FormatAsWritten(ms: nat)
    ensures FormatMilliseconds(ms) == MinutesField(ms) + ":" + SecondsField(ms) + "." + PadEnd(NatToString(ms % 1000), 3, '0')
  {
    assert IntToString(JsRem(ms, 1000)) == NatToString(ms % 1000);
  }

  /** The fraction padded on the right is three digits. */
  lemma FractionDigits(ms: nat)
    ensures var f := PadEnd(NatToString(ms % 1000), 3, '0');
      |f| == 3 && AllDigits(f)
  {
    SmallText(ms % 1000);
    ParseNatToString(ms % 1000);
    RepeatDigits(NatToString(ms % 1000), 3 - |NatToString(ms % 1000)|);
  }

  /** Digit fields joined by `:` and `.` leave digits everywhere but at the two separators. */
  lemma ShapeOfParts(t: string, m: string, sec: string, f: string)
    requires |sec| == 2 && |f| == 3 && AllDigits(m) && AllDigits(sec) && AllDigits(f)
    requires t == m + ":" + sec + "." + f
    ensures |t| == |m| + 7 && t[|m|] == ':' && t[|m| + 3] == '.'
      && forall k :: 0 <= k < |t| && k != |m| && k != |m| + 3 ==> IsDigit(t[k])
  {
    forall k | 0 <= k < |t| && k != |m| && k != |m| + 3
      ensures IsDigit(t[k])
    {
      if k < |m| {
        assert t[k] == m[k];
      } else if k < |m| + 3 {
        assert t[k] == sec[k - |m| - 1];
      } else {
        assert t[k] == f[k - |m| - 4];
      }
    }
  }

  /**
   * Padded on the left, the format of a natural duration is
   * `minutes ":" seconds "." millis` with two-digit seconds and three-digit
   * millis, and it can be read back: different durations render differently.
   */
  lemma {:induction false} FormatPaddedFields(ms: nat)
    ensures var f := PadStart(NatToString(ms % 1000), 3, '0');
      && FormatMillisecondsPadded(ms) == MinutesField(ms) + ":" + SecondsField(ms) + "." + f
      && |f| == 3 && AllDigits(f) && ParseNat(f) == ms % 1000
  {
    PadStartValue(ms % 1000, 3);
    assert |NatToString(ms % 1000)| <= 3 by {
      SmallText(ms % 1000);
    }
  }

  /** Numbers below 100 have at most two digits, below 1000 at most three. */
  lemma SmallText(n: nat)
    ensures n < 100 ==> |NatToString(n)| <= 2
    ensures n < 1000 ==> |NatToString(n)| <= 3
  {
    if n >= 10 {
      assert NatToString(n) == NatToString(n / 10) + [DigitChar(n % 10)];
      if n >= 100 {
        assert NatToString(n / 10) == NatToString(n / 100) + [DigitChar((n / 10) % 10)];
      }
    }
  }

  /** The fields of `m ":" s "." f` sit at fixed offsets from the end. */
  lemma FormatParts(m: string, sec: string, f: string)
    requires |sec| == 2 && |f| == 3
    ensures var t := m + ":" + sec + "." + f;
      && |t| == |m| + 7 && t[..|m|] == m && t[|m| + 1..|m| + 3] == sec && t[|m| + 4..] == f
  {
  }

  /** A format splits back into its three fields. */
  lemma FormatPaddedSplit(a: nat, b: nat)
    requires FormatMillisecondsPadded(a) == FormatMillisecondsPadded(b)
    ensures MinutesField(a) == MinutesField(b) && SecondsField(a) == SecondsField(b)
    ensures PadStart(NatToString(a % 1000), 3, '0') == PadStart(NatToString(b % 1000), 3, '0')
  {
    FormatPaddedFields(a);
    FormatPaddedFields(b);
    SecondsLength(a);
    SecondsLength(b);
    SplitParts(MinutesField(a), SecondsField(a), PadStart(NatToString(a % 1000), 3, '0'),
      MinutesField(b), SecondsField(b), PadStart(NatToString(b % 1000), 3, '0'));
  }

  /** The seconds field is two characters long. */
  lemma SecondsLength(ms: nat)
    ensures |SecondsField(ms)| == 2
  {
    TimeFields(ms);
  }

  /** Two joins of a minutes, a two-character and a three-character field agree only field by field. */
  lemma SplitParts(m1: string, s1: string, f1: string, m2: string, s2: string, f2: string)
    requires |s1| == 2 && |f1| == 3 && |s2| == 2 && |f2| == 3
    requires m1 + ":" + s1 + "." + f1 == m2 + ":" + s2 + "." + f2
    ensures m1 == m2 && s1 == s2 && f1 == f2
  {
    FormatParts(m1, s1, f1);
    FormatParts(m2, s2, f2);
  }

  /** A duration is its minutes, its seconds past the minute and its milliseconds past the second. */
  lemma Decompose(a: nat)
    ensures a == (a / 60000) * 60000 + ((a / 1000) % 60) * 1000 + a % 1000
  {
    var q, r := a / 1000, a % 1000;
    var q2, r2 := q / 60, q % 60;
    assert a == 1000 * q + r;
    assert q == 60 * q2 + r2;
    assert a == 60000 * q2 + (1000 * r2 + r);
    assert 0 <= 1000 * r2 + r < 60000;
    assert a / 60000 == q2;
  }

  /** The corrected format is one-to-one on natural durations. */
  lemma FormatPaddedInjective(a: nat, b: nat)
    requires FormatMillisecondsPadded(a) == FormatMillisecondsPadded(b)
    ensures a == b
  {
    FormatPaddedSplit(a, b);
    FormatPaddedFields(a);
    FormatPaddedFields(b);
    TimeFields(a);
    TimeFields(b);
    Decompose(a);
    Decompose(b);
  }
}
