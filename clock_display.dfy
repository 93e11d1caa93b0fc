/**
 * The countdown display of the fulfilment screen: `timeLeft` shown as mm:ss,
 * minutes `floor(t / 60)` and seconds `t % 60`, each as decimal text padded on
 * the left with '0' to width two, and the "ready" message shown when the time
 * left is zero.
 */
module ClockDisplay {
  import opened Decimal

  datatype Option<T> = None | Some(value: T)

  /** The number of seconds in `minutes` whole minutes and `seconds` more. */
  function TotalSeconds(minutes: nat, seconds: nat): nat {
    minutes * 60 + seconds
  }

  /** Whole minutes of `t` seconds (JavaScript `Math.floor(t / 60)`; `t` is never negative). */
  function Minutes(t: nat): (m: nat)
    ensures TotalSeconds(m, 0) <= t < TotalSeconds(m + 1, 0)
  {
    t / 60
  }

  /**
   * Remaining seconds of `t` (JavaScript `t % 60`, which agrees with Dafny's on
   * non-negative `t`): below 60, and together with the minutes it gives `t` back.
   */
  function Seconds(t: nat): (sec: nat)
    ensures sec < 60
    ensures TotalSeconds(Minutes(t), sec) == t
  {
    t % 60
  }

  /**
   * One field of the display: the decimal text of `n`, left-padded with '0' to
   * width two. Below 100 it is exactly two digits that read back as `n`.
   */
  function Field(n: nat): (f: string)
    ensures |f| >= 2 && AllDigits(f)
    ensures n < 100 ==> |f| == 2 && ParseDecimal(f) == n
    ensures n >= 100 ==> |f| > 2
  {
    NatToStringTwoDigits(n);
    var f := PadStart(NatToString(n), 2, '0');
    assert n < 100 ==> |f| == 2 && AllDigits(f) && ParseDecimal(f) == n by {
      if n < 100 { TwoDigitField(n); }
    }
    f
  }

  /**
   * Reads a timer text of the form mm:ss back into seconds; the seconds field
   * must be below 60, so each number of seconds has at most one reading.
   */
  function ParseClock(s: string): Option<nat> {
    if |s| == 5 && s[2] == ':' && AllDigits(s[..2]) && AllDigits(s[3..]) && ParseDecimal(s[3..]) < 60
    then Some(TotalSeconds(ParseDecimal(s[..2]), ParseDecimal(s[3..])))
    else None
  }

  /** A text joined from two two-digit fields reads as minutes and seconds. */
  lemma ParseJoined(a: string, b: string)
    requires |a| == 2 && |b| == 2 && AllDigits(a) && AllDigits(b) && ParseDecimal(b) < 60
    ensures |a + ":" + b| == 5 && (a + ":" + b)[2] == ':'
    ensures (a + ":" + b)[..2] == a && (a + ":" + b)[3..] == b
    ensures ParseClock(a + ":" + b) == Some(TotalSeconds(ParseDecimal(a), ParseDecimal(b)))
  {
    var s := a + ":" + b;
    assert s[..2] == a;
    assert s[3..] == b;
  }

  /**
   * The timer text `minutes:seconds`. Below 100 minutes it is five characters
   * with ':' in the middle, its fields read as the minutes and the seconds of
   * `t`, and it reads back as `t`; from 100 minutes on the minutes field
   * outgrows two characters.
   */
  function FormatClock(t: nat): (s: string)
    ensures t < 6000 ==> |s| == 5 && s[2] == ':' && ParseClock(s) == Some(t)
    ensures t < 6000 ==> (AllDigits(s[..2]) && AllDigits(s[3..]) &&
                          ParseDecimal(s[..2]) == Minutes(t) && ParseDecimal(s[3..]) == Seconds(t))
    ensures t >= 6000 ==> |s| > 5
  {
    var mm, ss := Field(Minutes(t)), Field(Seconds(t));
    if t < 6000 then
      ParseJoined(mm, ss);
      mm + ":" + ss
    else
      mm + ":" + ss
  }

  /** A one-digit value is shown as '0' followed by its digit. */
  lemma SmallField(n: nat)
    requires n < 10
    ensures Field(n) == ['0', DigitChar(n)]
  {
    assert NatToString(n) == [DigitChar(n)];
    assert PadStart([DigitChar(n)], 2, '0') == Repeat('0', 1) + [DigitChar(n)];
  }

  /**
   * The text of `t` is its two fields joined by ':'. This only unfolds
   * `FormatClock` for the concrete displays below, whose proofs run out of
   * resource when they unfold it themselves.
   */
  lemma FormatFields(t: nat, m: nat, sec: nat)
    requires m == Minutes(t) && sec == Seconds(t)
    ensures FormatClock(t) == Field(m) + ":" + Field(sec)
  {
  }

  /** Zero seconds display as 00:00. */
  lemma ClockZero()
    ensures FormatClock(0) == "00:00"
  {
    FormatFields(0, 0, 0);
    ZeroField();
  }

  /** Zero fills its field as 00. */
  lemma ZeroField()
    ensures Field(0) == "00"
    ensures Field(0) + ":" + Field(0) == "00:00"
  {
    SmallField(0);
    assert DigitChar(0) == '0';
  }

  /** 00:00 reads as zero seconds. */
  lemma ParseClockZero()
    ensures ParseClock("00:00") == Some(0)
  {
    var z := "00";
    assert ParseDecimal(z[..1]) == 0;
    assert ParseDecimal(z) == 0;
    ParseJoined(z, z);
    assert z + ":" + z == "00:00";
  }

  /**
   * Whether the screen shows "Your drink is ready!", the test `timeLeft === 0`:
   * it holds exactly when the timer reads 00:00.
   */
  predicate ShowsReady(t: nat)
    ensures ShowsReady(t) <==> FormatClock(t) == "00:00"
  {
    if t == 0 then ClockZero(); true
    else if t < 6000 then ParseClockZero(); false
    else false
  }

  /** The displays at the start (60 s), one tick after it (59 s) and at the end (0 s). */
  lemma ClockExamples()
    ensures FormatClock(60) == "01:00"
    ensures FormatClock(0) == "00:00"
    ensures FormatClock(59) == "00:59"
  {
    ClockZero();
    ClockSixty();
    ClockFiftyNine();
  }

  /** Sixty seconds display as 01:00. */
  lemma ClockSixty()
    ensures FormatClock(60) == "01:00"
  {
    FormatFields(60, 1, 0);
    SmallField(1);
    ZeroField();
    assert DigitChar(1) == '1';
  }

  /** Fifty-nine seconds display as 00:59. */
  lemma ClockFiftyNine()
    ensures FormatClock(59) == "00:59"
  {
    FormatFields(59, 0, 59);
    FieldFiftyNine();
  }

  /** 59 is already two digits wide and is shown as is. */
  lemma FieldFiftyNine()
    ensures Field(59) == "59"
    ensures Field(0) + ":" + Field(59) == "00:59"
  {
    ZeroField();
    var s := NatToString(59);
    assert s == NatToString(5) + [DigitChar(9)];
    assert NatToString(5) == [DigitChar(5)];
    assert DigitChar(5) == '5' && DigitChar(9) == '9';
    assert s == "59";
    assert PadStart(s, 2, '0') == s;
  }
}
