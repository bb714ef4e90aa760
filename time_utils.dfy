/** Model of util/TimeUtils.java: an elapsed millisecond count is split into
    hours, minutes, seconds and a millisecond remainder, and rendered with one
    of two colon-separated templates whose last field is centiseconds. */
module TimeUtils {

  const LONG_MIN: int := -0x8000_0000_0000_0000
  const LONG_MAX: int := 0x7FFF_FFFF_FFFF_FFFF
  const LONG_MODULUS: int := 0x1_0000_0000_0000_0000

  /** A Java `long`. */
  type Long = x: int | LONG_MIN <= x <= LONG_MAX

  /** The `long` that a Java `long` operation yields for the exact result `x`
      (two's-complement wrap-around). */
  function WrapLong(x: int): (r: Long)
    ensures LONG_MIN <= x <= LONG_MAX ==> r == x
    ensures (x - r) % LONG_MODULUS == 0
  {
    (x - LONG_MIN) % LONG_MODULUS + LONG_MIN
  }

  /** Java's integer `/` for a positive divisor: the quotient truncated toward zero. */
  function JavaDiv(a: int, d: int): (q: int)
    requires d > 0
  {
    if a >= 0 then a / d else -((-a) / d)
  }

  /** The remainder Java leaves has the sign of the dividend and is smaller than the divisor. */
  lemma JavaDivTruncates(a: int, d: int)
    requires d > 0
    ensures a >= 0 ==> JavaDiv(a, d) == a / d && 0 <= a - JavaDiv(a, d) * d < d
    ensures a < 0 ==> -d < a - JavaDiv(a, d) * d <= 0
  {
    if a < 0 {
      var q := (-a) / d;
      assert -a == q * d + (-a) % d;
    }
  }

  // ---------------------------------------------------------------------------
  // Decimal rendering (the default locale is assumed to use ASCII digits)
  // ---------------------------------------------------------------------------

  function DigitChar(d: int): (c: char)
    requires 0 <= d < 10
    ensures '0' <= c <= '9'
    ensures c as int - '0' as int == d
  {
    ('0' as int + d) as char
  }

  predicate IsDigits(s: string) {
    forall i | 0 <= i < |s| :: '0' <= s[i] <= '9'
  }

  /** The decimal digits of `n`, most significant first, without leading zeros. */
  function Decimal(n: nat): (s: string)
    ensures |s| >= 1 && IsDigits(s)
    ensures n > 0 ==> s[0] != '0'
    ensures |s| == 1 <==> n < 10
    ensures s[|s| - 1] == DigitChar(n % 10)
  {
    if n < 10 then [DigitChar(n)] else Decimal(n / 10) + [DigitChar(n % 10)]
  }

  /** The number a string of decimal digits denotes. */
  function DigitsValue(s: string): (v: nat)
    requires IsDigits(s)
  {
    if s == [] then 0 else 10 * DigitsValue(s[..|s| - 1]) + (s[|s| - 1] as int - '0' as int)
  }

  lemma {:induction false} DecimalRoundTrip(n: nat)
    ensures DigitsValue(Decimal(n)) == n
  {
    if n >= 10 {
      var s := Decimal(n);
      assert s[..|s| - 1] == Decimal(n / 10);
      DecimalRoundTrip(n / 10);
    }
  }

  /** `%d` of java.util.Formatter on an integer argument: a minus sign exactly for
      a negative number, then the digits of its magnitude. */
  function Signed(n: int): (s: string)
    ensures |s| >= 1
    ensures (s[0] == '-') <==> n < 0
  {
    if n < 0 then "-" + Decimal(-n) else Decimal(n)
  }

  /** Reading back `%d`: after the sign come digits without leading zeros whose
      value is the magnitude. */
  lemma SignedRoundTrip(n: int)
    ensures var s := Signed(n);
            var digits := if n < 0 then s[1..] else s;
            |digits| >= 1 && IsDigits(digits) && (n != 0 ==> digits[0] != '0')
            && DigitsValue(digits) == if n < 0 then -n else n
  {
    DecimalRoundTrip(if n < 0 then -n else n);
    if n < 0 {
      assert Signed(n)[1..] == Decimal(-n);
    }
  }

  /** `%02d` of java.util.Formatter: `%d` zero-padded to a width of at least two;
      the padding goes after a sign, and a negative number already has two characters. */
  function Pad2(n: int): (s: string)
    ensures |s| >= 2
    ensures 0 <= n < 100 ==> s == [DigitChar(n / 10), DigitChar(n % 10)]
    ensures n >= 10 ==> s == Decimal(n)
    ensures n < 0 ==> s == "-" + Decimal(-n)
  {
    if 0 <= n < 10 then "0" + Decimal(n) else Signed(n)
  }

  // ---------------------------------------------------------------------------
  // The two output templates
  // ---------------------------------------------------------------------------

  /** A conversion of java.util.Formatter applied to an integer argument. */
  datatype Conversion =
    | Plain     // %d
    | ZeroPad2  // %02d

  /** "%1$d:%2$02d:%3$02d:%4$02d" */
  const ElapsedFormatHMMSSSS: seq<Conversion> := [Plain, ZeroPad2, ZeroPad2, ZeroPad2]
  /** "%1$02d:%2$02d:%3$02d" */
  const ElapsedFormatMMSSSS: seq<Conversion> := [ZeroPad2, ZeroPad2, ZeroPad2]

  function Convert(c: Conversion, n: int): (s: string) {
    match c
    case Plain => Signed(n)
    case ZeroPad2 => Pad2(n)
  }

  /** The output of a template whose conversions stand between ':' separators,
      the i-th conversion taking the i-th argument. */
  function Format(template: seq<Conversion>, args: seq<int>): (s: string)
    requires |template| == |args| >= 1
    decreases |template|
  {
    var n := |template|;
    if n == 1 then Convert(template[0], args[0])
    else Format(template[..n - 1], args[..n - 1]) + ":" + Convert(template[n - 1], args[n - 1])
  }

  lemma FormatThree(t: seq<Conversion>, a: seq<int>)
    requires |t| == |a| == 3
    ensures Format(t, a) == Convert(t[0], a[0]) + ":" + Convert(t[1], a[1]) + ":" + Convert(t[2], a[2])
  {
    var t2, a2 := t[..2], a[..2];
    assert t2[..1] == [t[0]] && a2[..1] == [a[0]];
    assert Format(t2[..1], a2[..1]) == Convert(t[0], a[0]);
    assert Format(t2, a2) == Convert(t[0], a[0]) + ":" + Convert(t[1], a[1]);
  }

  lemma FormatFour(t: seq<Conversion>, a: seq<int>)
    requires |t| == |a| == 4
    ensures Format(t, a) == Convert(t[0], a[0]) + ":" + Convert(t[1], a[1]) + ":" + Convert(t[2], a[2])
                            + ":" + Convert(t[3], a[3])
  {
    FormatThree(t[..3], a[..3]);
    assert t[..3][0] == t[0] && t[..3][1] == t[1] && t[..3][2] == t[2];
    assert a[..3][0] == a[0] && a[..3][1] == a[1] && a[..3][2] == a[2];
  }

  // ---------------------------------------------------------------------------
  // Decomposition and the rendered text
  // ---------------------------------------------------------------------------

  const SECOND_IN_MILLIS: int := 1000
  const HOUR_IN_MILLIS: int := 3_600_000
  const MINUTE_IN_MILLIS: int := 60_000

  datatype Breakdown = Breakdown(hours: int, minutes: int, seconds: int, millis: int)

  /** What formatMillis leaves in `hours`, `minutes`, `seconds` and `elapsedMillis`
      before it renders: quotient and remainder by an hour, then by a minute, then
      by a second. A negative count passes none of the three guards. */
  function Decompose(ms: int): (b: Breakdown)
    ensures b.hours * HOUR_IN_MILLIS + b.minutes * MINUTE_IN_MILLIS
            + b.seconds * SECOND_IN_MILLIS + b.millis == ms
    ensures ms >= 0 ==> 0 <= b.hours && 0 <= b.minutes < 60 && 0 <= b.seconds < 60
                        && 0 <= b.millis < 1000
    ensures ms < 0 ==> b == Breakdown(0, 0, 0, ms)
  {
    if ms < 0 then Breakdown(0, 0, 0, ms)
    else
      var afterHours := ms % HOUR_IN_MILLIS;
      var afterMinutes := afterHours % MINUTE_IN_MILLIS;
      Breakdown(ms / HOUR_IN_MILLIS, afterHours / MINUTE_IN_MILLIS,
                afterMinutes / SECOND_IN_MILLIS, afterMinutes % SECOND_IN_MILLIS)
  }

  /** Each field is zero exactly when what is left of the count is below its unit. */
  lemma FieldsZeroIff(ms: int)
    requires ms >= 0
    ensures Decompose(ms).hours == 0 <==> ms < HOUR_IN_MILLIS
    ensures Decompose(ms).minutes == 0 <==> ms % HOUR_IN_MILLIS < MINUTE_IN_MILLIS
    ensures Decompose(ms).seconds == 0 <==> ms % HOUR_IN_MILLIS % MINUTE_IN_MILLIS < SECOND_IN_MILLIS
    ensures Decompose(ms).hours == ms / HOUR_IN_MILLIS
  {
  }

  /** The text formatMillis returns for `ms`. */
  function ElapsedText(ms: int): (s: string) {
    var b := Decompose(ms);
    if b.hours > 0 then
      Format(ElapsedFormatHMMSSSS, [b.hours, b.minutes, b.seconds, JavaDiv(b.millis, 10)])
    else
      Format(ElapsedFormatMMSSSS, [b.minutes, b.seconds, JavaDiv(b.millis, 10)])
  }

  /** Below an hour the text is "MM:SS:CC", three zero-padded two-digit fields. */
  lemma ShortForm(ms: int)
    requires 0 <= ms < HOUR_IN_MILLIS
    ensures ElapsedText(ms) == Pad2(Decompose(ms).minutes) + ":" + Pad2(Decompose(ms).seconds)
                               + ":" + Pad2(Decompose(ms).millis / 10)
    ensures |ElapsedText(ms)| == 8
    ensures ElapsedText(ms)[2] == ':' && ElapsedText(ms)[5] == ':'
  {
    var b := Decompose(ms);
    FormatThree(ElapsedFormatMMSSSS, [b.minutes, b.seconds, JavaDiv(b.millis, 10)]);
  }

  /** From an hour on the text is "H:MM:SS:CC": the hours unpadded, then three
      zero-padded two-digit fields. */
  lemma LongForm(ms: int)
    requires ms >= HOUR_IN_MILLIS
    ensures ElapsedText(ms) == Decimal(ms / HOUR_IN_MILLIS) + ":" + Pad2(Decompose(ms).minutes)
                               + ":" + Pad2(Decompose(ms).seconds) + ":" + Pad2(Decompose(ms).millis / 10)
    ensures |ElapsedText(ms)| == |Decimal(ms / HOUR_IN_MILLIS)| + 9
  {
    var b := Decompose(ms);
    FormatFour(ElapsedFormatHMMSSSS, [b.hours, b.minutes, b.seconds, JavaDiv(b.millis, 10)]);
  }

  lemma ExampleZero()
    ensures ElapsedText(0) == "00:00:00"
  {
    assert Decompose(0) == Breakdown(0, 0, 0, 0);
    ShortForm(0);
    assert Pad2(0) == [DigitChar(0), DigitChar(0)] == "00";
  }

  lemma ExampleOneMinuteOneSecond()
    ensures ElapsedText(61000) == "01:01:00"
  {
    assert Decompose(61000) == Breakdown(0, 1, 1, 0);
    ShortForm(61000);
    assert Pad2(1) == [DigitChar(0), DigitChar(1)] == "01";
    assert Pad2(0) == [DigitChar(0), DigitChar(0)] == "00";
  }

  lemma ExampleOneHourOneMinuteOneSecond()
    ensures ElapsedText(3661000) == "1:01:01:00"
  {
    assert Decompose(3661000) == Breakdown(1, 1, 1, 0);
    LongForm(3661000);
    assert Decimal(1) == [DigitChar(1)] == "1";
    assert Pad2(1) == [DigitChar(0), DigitChar(1)] == "01";
    assert Pad2(0) == [DigitChar(0), DigitChar(0)] == "00";
  }

  // ---------------------------------------------------------------------------
  // The imperative entry points
  // ---------------------------------------------------------------------------

  /** java.lang.StringBuilder, reduced to its contents. */
  class StringBuilder {
    var contents: string

    constructor (capacity: nat)
      ensures contents == ""
    {
      contents := "";
    }

    method SetLength0()
      modifies this
      ensures contents == ""
    {
      contents := "";
    }

    method Append(s: string)
      modifies this
      ensures contents == old(contents) + s
    {
      contents := contents + s;
    }
  }

  /** formatMillis: decomposes step by step, clears the recycled buffer (or makes
      a fresh one) and writes the text into it. The result does not depend on what
      the buffer held before. */
  method FormatMillis(recycle: StringBuilder?, elapsedMillis: Long) returns (s: string)
    modifies recycle
    ensures s == ElapsedText(elapsedMillis)
    ensures recycle != null ==> recycle.contents == s
  {
    var hours, minutes, seconds := 0, 0, 0;
    var rest := elapsedMillis;

    ghost var b := Decompose(elapsedMillis);

    if rest >= 3600 * SECOND_IN_MILLIS {
      hours := rest / (3600 * SECOND_IN_MILLIS);
      rest := rest - hours * 3600 * SECOND_IN_MILLIS;
    }
    assert elapsedMillis >= 0 ==> hours == b.hours && rest == elapsedMillis % HOUR_IN_MILLIS;
    ghost var afterHours := rest;
    if rest >= 60 * SECOND_IN_MILLIS {
      minutes := rest / (60 * SECOND_IN_MILLIS);
      rest := rest - minutes * 60 * SECOND_IN_MILLIS;
    }
    assert elapsedMillis >= 0 ==> minutes == b.minutes && rest == afterHours % MINUTE_IN_MILLIS;
    ghost var afterMinutes := rest;
    if rest >= SECOND_IN_MILLIS {
      seconds := rest / SECOND_IN_MILLIS;
      rest := rest - seconds * SECOND_IN_MILLIS;
    }
    assert elapsedMillis >= 0 ==> seconds == b.seconds && rest == afterMinutes % SECOND_IN_MILLIS;
    assert Breakdown(hours, minutes, seconds, rest) == b;

    var sb := recycle;
    if sb == null {
      sb := new StringBuilder(8);
    } else {
      sb.SetLength0();
    }
    if hours > 0 {
      sb.Append(Format(ElapsedFormatHMMSSSS, [hours, minutes, seconds, JavaDiv(rest, 10)]));
    } else {
      sb.Append(Format(ElapsedFormatMMSSSS, [minutes, seconds, JavaDiv(rest, 10)]));
    }
    s := sb.contents;
  }

  /** formatElapsedTime: the public entry point, which delegates to formatMillis. */
  method FormatElapsedTime(recycle: StringBuilder?, elapsedMillis: Long) returns (s: string)
    modifies recycle
    ensures s == ElapsedText(elapsedMillis)
    ensures recycle != null ==> recycle.contents == s
  {
    s := FormatMillis(recycle, elapsedMillis);
  }
}
