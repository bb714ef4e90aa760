/** Reading back the text TimeUtils renders: the inverse that shows the
    rendered form loses nothing but the last millisecond digit. */
module ElapsedParse {
  import opened Wrappers
  import opened TimeUtils

  /** A displayed elapsed time, field by field. */
  datatype Reading = Reading(hours: nat, minutes: nat, seconds: nat, centis: nat)

  /** The fields of a string between ':' separators. */
  function Split(s: string): (parts: seq<string>)
    ensures |parts| >= 1
  {
    if s == [] then [""]
    else
      var tail := Split(s[1..]);
      if s[0] == ':' then [""] + tail else [[s[0]] + tail[0]] + tail[1..]
  }

  predicate IsField(s: string) {
    |s| >= 1 && IsDigits(s)
  }

  /** The reading a "H:MM:SS:CC" or "MM:SS:CC" text shows, if it has that shape. */
  function ParseElapsed(s: string): (r: Option<Reading>)
  {
    ParseFields(Split(s))
  }

  /** The reading that three or four numeric fields stand for. */
  function ParseFields(p: seq<string>): (r: Option<Reading>)
  {
    if (|p| == 3 || |p| == 4) && forall i | 0 <= i < |p| :: IsField(p[i]) then
      if |p| == 4 then Some(Reading(DigitsValue(p[0]), DigitsValue(p[1]), DigitsValue(p[2]), DigitsValue(p[3])))
      else Some(Reading(0, DigitsValue(p[0]), DigitsValue(p[1]), DigitsValue(p[2])))
    else None
  }

  /** The reading formatMillis renders for a non-negative count. */
  function ReadingOf(ms: int): (r: Reading)
    requires ms >= 0
    ensures r.minutes < 60 && r.seconds < 60 && r.centis < 100
  {
    var b := Decompose(ms);
    Reading(b.hours, b.minutes, b.seconds, b.millis / 10)
  }

  /** A reading's value in centiseconds. */
  function Centis(r: Reading): (c: nat) {
    r.hours * 360000 + r.minutes * 6000 + r.seconds * 100 + r.centis
  }

  lemma {:induction false} SplitDigits(x: string)
    requires IsDigits(x)
    ensures Split(x) == [x]
    decreases |x|
  {
    if x != [] {
      SplitDigits(x[1..]);
      assert [x[0]] + x[1..] == x;
    }
  }

  lemma {:induction false} SplitField(x: string, rest: string)
    requires IsDigits(x)
    ensures Split(x + ":" + rest) == [x] + Split(rest)
    decreases |x|
  {
    var s := x + ":" + rest;
    if x == [] {
      assert s[0] == ':' && s[1..] == rest;
    } else {
      assert s[1..] == x[1..] + ":" + rest;
      SplitField(x[1..], rest);
      assert [x[0]] + x[1..] == x;
    }
  }

  lemma SplitThree(a: string, b: string, c: string)
    requires IsDigits(a) && IsDigits(b) && IsDigits(c)
    ensures Split(a + ":" + b + ":" + c) == [a, b, c]
  {
    assert a + ":" + b + ":" + c == a + ":" + (b + ":" + c);
    SplitField(a, b + ":" + c);
    SplitField(b, c);
    SplitDigits(c);
  }

  lemma SplitFour(a: string, b: string, c: string, d: string)
    requires IsDigits(a) && IsDigits(b) && IsDigits(c) && IsDigits(d)
    ensures Split(a + ":" + b + ":" + c + ":" + d) == [a, b, c, d]
  {
    assert a + ":" + b + ":" + c + ":" + d == a + ":" + (b + ":" + c + ":" + d);
    SplitField(a, b + ":" + c + ":" + d);
    SplitThree(b, c, d);
  }

  lemma TwoDigitValue(n: int)
    requires 0 <= n < 100
    ensures IsField(Pad2(n)) && DigitsValue(Pad2(n)) == n
  {
    var s := Pad2(n);
    assert s[..1] == [DigitChar(n / 10)];
    assert s[..1][..0] == [];
    assert DigitsValue(s[..1]) == n / 10;
  }

  lemma FieldsThree(a: string, b: string, c: string)
    requires IsField(a) && IsField(b) && IsField(c)
    ensures ParseFields([a, b, c]) == Some(Reading(0, DigitsValue(a), DigitsValue(b), DigitsValue(c)))
  {
    var p := [a, b, c];
    assert forall i | 0 <= i < |p| :: IsField(p[i]) by {
      forall i | 0 <= i < |p| ensures IsField(p[i]) {
        assert p[i] == a || p[i] == b || p[i] == c;
      }
    }
  }

  lemma FieldsFour(a: string, b: string, c: string, d: string)
    requires IsField(a) && IsField(b) && IsField(c) && IsField(d)
    ensures ParseFields([a, b, c, d])
            == Some(Reading(DigitsValue(a), DigitsValue(b), DigitsValue(c), DigitsValue(d)))
  {
    var p := [a, b, c, d];
    assert forall i | 0 <= i < |p| :: IsField(p[i]) by {
      forall i | 0 <= i < |p| ensures IsField(p[i]) {
        assert p[i] == a || p[i] == b || p[i] == c || p[i] == d;
      }
    }
  }

  lemma ParseThree(a: string, b: string, c: string)
    requires IsField(a) && IsField(b) && IsField(c)
    ensures ParseElapsed(a + ":" + b + ":" + c)
            == Some(Reading(0, DigitsValue(a), DigitsValue(b), DigitsValue(c)))
  {
    SplitThree(a, b, c);
    FieldsThree(a, b, c);
  }

  lemma ParseFour(a: string, b: string, c: string, d: string)
    requires IsField(a) && IsField(b) && IsField(c) && IsField(d)
    ensures ParseElapsed(a + ":" + b + ":" + c + ":" + d)
            == Some(Reading(DigitsValue(a), DigitsValue(b), DigitsValue(c), DigitsValue(d)))
  {
    SplitFour(a, b, c, d);
    FieldsFour(a, b, c, d);
  }

  /** The text of a reading, rendered with the template its hours call for. */
  function ReadingText(r: Reading): (s: string) {
    if r.hours > 0 then Decimal(r.hours) + ":" + Pad2(r.minutes) + ":" + Pad2(r.seconds) + ":" + Pad2(r.centis)
    else Pad2(r.minutes) + ":" + Pad2(r.seconds) + ":" + Pad2(r.centis)
  }

  lemma ElapsedTextOfReading(ms: int)
    requires ms >= 0
    ensures ElapsedText(ms) == ReadingText(ReadingOf(ms))
  {
    if ms >= HOUR_IN_MILLIS {
      LongForm(ms);
    } else {
      FieldsZeroIff(ms);
      ShortForm(ms);
    }
  }

  /** Any reading with two-digit minutes, seconds and centiseconds is read back
      from its text. */
  lemma ParseReadingText(r: Reading)
    requires r.minutes < 100 && r.seconds < 100 && r.centis < 100
    ensures ParseElapsed(ReadingText(r)) == Some(r)
  {
    TwoDigitValue(r.minutes);
    TwoDigitValue(r.seconds);
    TwoDigitValue(r.centis);
    if r.hours > 0 {
      DecimalRoundTrip(r.hours);
      ParseFour(Decimal(r.hours), Pad2(r.minutes), Pad2(r.seconds), Pad2(r.centis));
    } else {
      ParseThree(Pad2(r.minutes), Pad2(r.seconds), Pad2(r.centis));
    }
  }

  /** Round trip: reading back the text rendered for a non-negative count gives
      its hours, minutes, seconds and centiseconds. */
  lemma ParseElapsedText(ms: int)
    requires ms >= 0
    ensures ParseElapsed(ElapsedText(ms)) == Some(ReadingOf(ms))
  {
    ElapsedTextOfReading(ms);
    ParseReadingText(ReadingOf(ms));
  }

  /** The reading holds the count truncated to whole centiseconds. */
  lemma ReadingCentis(ms: int)
    requires ms >= 0
    ensures Centis(ReadingOf(ms)) == ms / 10
  {
  }

  /** The reading depends on the count only through its whole centiseconds. */
  lemma ReadingByCentis(ms: int)
    requires ms >= 0
    ensures var q := ms / 10;
            ReadingOf(ms) == Reading(q / 360000, q % 360000 / 6000, q % 360000 % 6000 / 100,
                                     q % 360000 % 6000 % 100)
  {
    var q := ms / 10;
    assert ms / 3600000 == q / 360000;
    assert ms % 3600000 / 10 == q % 360000;
    var r1 := ms % 3600000;
    assert r1 / 60000 == r1 / 10 / 6000;
    assert r1 % 60000 / 10 == r1 / 10 % 6000;
    var r2 := r1 % 60000;
    assert r2 / 1000 == r2 / 10 / 100;
    assert r2 % 1000 / 10 == r2 / 10 % 100;
  }

  /** Two non-negative counts render to the same text exactly when they agree in
      whole centiseconds. */
  lemma SameTextIff(a: int, b: int)
    requires a >= 0 && b >= 0
    ensures ElapsedText(a) == ElapsedText(b) <==> a / 10 == b / 10
  {
    if ElapsedText(a) == ElapsedText(b) {
      ParseElapsedText(a);
      ParseElapsedText(b);
      ReadingCentis(a);
      ReadingCentis(b);
    }
    if a / 10 == b / 10 {
      ReadingByCentis(a);
      ReadingByCentis(b);
      ElapsedTextOfReading(a);
      ElapsedTextOfReading(b);
    }
  }
}
