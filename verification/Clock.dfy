/** Time arithmetic of the countdown timer: splitting a second count into
    hour, minute and second fields, validating the three input fields and
    combining them back, and rendering a count as the HH:MM:SS clock text.
    The three text inputs are modelled as their already-parsed integers. */
module Clock {

  /** Hours, minutes and seconds, as held by the three input fields or as
      computed from a second count. */
  datatype Fields = Fields(hours: int, minutes: int, seconds: int)

  /** JavaScript's `%` on a positive divisor: the remainder takes the sign of
      the dividend (it truncates toward zero, unlike Dafny's `%`). */
  function JsRem(a: int, b: int): (r: int)
    requires b > 0
    ensures a >= 0 ==> 0 <= r < b
    ensures a < 0 ==> -b < r <= 0
    ensures a >= 0 ==> a == (a / b) * b + r
    ensures a < 0 ==> a == -((-a) / b) * b + r
  {
    if a >= 0 then a % b else -((-a) % b)
  }

  /** The split shared by formatTime and setInputsFromTotalSeconds:
      hours = floor(t / 3600), minutes = floor((t % 3600) / 60),
      seconds = t % 60, with JavaScript's `%`. Dafny's `/` by a positive
      divisor is already floor division. */
  function ClockFields(total: int): (f: Fields)
    ensures total >= 0 ==> f.hours >= 0 && 0 <= f.minutes <= 59 && 0 <= f.seconds <= 59
    ensures total >= 0 ==> f.hours * 3600 + f.minutes * 60 + f.seconds == total
    ensures total < 0 ==> f.hours < 0 && -60 <= f.minutes <= 0 && -59 <= f.seconds <= 0
  {
    var r := JsRem(total, 3600);
    var f := Fields(total / 3600, r / 60, JsRem(total, 60));
    if total >= 0 then
      var h, q := total / 3600, r / 60;
      assert total == h * 3600 + r && r == q * 60 + r % 60;
      assert (h * 60 + q) * 60 == h * 3600 + q * 60;
      SplitUnique(total / 60, total % 60, h * 60 + q, r % 60, 60);
      f
    else
      f
  }

  /** The validation of getTotalSecondsFromInputs: nothing negative, and
      minutes and seconds at most 59. Hours are unbounded. */
  predicate InRange(f: Fields) {
    f.hours >= 0 && f.minutes >= 0 && f.seconds >= 0 && f.minutes <= 59 && f.seconds <= 59
  }

  /** getTotalSecondsFromInputs: the duration the inputs denote, or 0 when
      they are out of range. */
  function TotalSecondsFromInputs(f: Fields): (r: nat)
    ensures InRange(f) ==> r == f.hours * 3600 + f.minutes * 60 + f.seconds
    ensures !InRange(f) ==> r == 0
  {
    if !InRange(f) then 0 else f.hours * 3600 + f.minutes * 60 + f.seconds
  }

  /** Writing a non-negative count into the inputs and reading them back
      gives the count again: the fields written are always in range. */
  lemma InputsRoundTrip(total: int)
    requires total >= 0
    ensures InRange(ClockFields(total))
    ensures TotalSecondsFromInputs(ClockFields(total)) == total
  {
  }

  /** A negative count writes negative fields, which the validation rejects. */
  lemma NegativeInputsRejected(total: int)
    requires total < 0
    ensures !InRange(ClockFields(total))
    ensures TotalSecondsFromInputs(ClockFields(total)) == 0
  {
  }

  /** The other direction: valid inputs are the canonical split of the
      duration they denote, so valid inputs and non-negative counts
      correspond one to one. */
  lemma InputsCanonical(f: Fields)
    requires InRange(f)
    ensures ClockFields(TotalSecondsFromInputs(f)) == f
  {
    var t := TotalSecondsFromInputs(f);
    var g := ClockFields(t);
    // Both splits write t as h * 3600 + (m * 60 + s) with 0 <= m * 60 + s < 3600.
    SplitUnique(f.hours, f.minutes * 60 + f.seconds, g.hours, g.minutes * 60 + g.seconds, 3600);
    SplitUnique(f.minutes, f.seconds, g.minutes, g.seconds, 60);
  }

  /** Quotient and remainder by a positive divisor are unique. */
  lemma SplitUnique(q1: int, r1: int, q2: int, r2: int, d: int)
    requires d > 0 && 0 <= r1 < d && 0 <= r2 < d
    requires q1 * d + r1 == q2 * d + r2
    ensures q1 == q2 && r1 == r2
  {
    if q1 < q2 {
      MulMonotone(q1 + 1, q2, d);
    } else if q2 < q1 {
      MulMonotone(q2 + 1, q1, d);
    }
  }

  lemma MulMonotone(a: int, b: int, d: int)
    requires a <= b && d > 0
    ensures a * d <= b * d
  {
  }

  // ----- Decimal rendering: String(n) and padStart(2, '0') -----

  function DigitChar(d: nat): (c: char)
    requires d < 10
    ensures '0' <= c <= '9'
  {
    (48 + d) as char
  }

  function DigitValue(c: char): (d: nat)
    requires '0' <= c <= '9'
    ensures d < 10
  {
    c as int - 48
  }

  predicate IsDigits(s: string) {
    forall i :: 0 <= i < |s| ==> '0' <= s[i] <= '9'
  }

  /** String(n) for a non-negative integer: its decimal digits, most
      significant first, without leading zeros. */
  function Decimal(n: nat): (s: string)
    ensures 1 <= |s| && IsDigits(s)
    ensures n < 10 <==> |s| == 1
    ensures n < 100 <==> |s| <= 2
    ensures n > 0 ==> s[0] != '0'
    decreases n
  {
    if n < 10 then [DigitChar(n)] else Decimal(n / 10) + [DigitChar(n % 10)]
  }

  /** The number a string of decimal digits denotes (leading zeros allowed). */
  function DigitsValue(s: string): nat
    requires IsDigits(s)
  {
    if |s| == 0 then 0 else DigitsValue(s[..|s| - 1]) * 10 + DigitValue(s[|s| - 1])
  }

  lemma {:induction false} DecimalRoundTrip(n: nat)
    ensures DigitsValue(Decimal(n)) == n
    decreases n
  {
    if n >= 10 {
      var s := Decimal(n);
      assert s[..|s| - 1] == Decimal(n / 10);
      DecimalRoundTrip(n / 10);
    }
  }

  /** One field of the clock text: String(n).padStart(2, '0'), which
      prefixes a single '0' exactly when String(n) is one character long. */
  function PadTwo(n: nat): (s: string)
    ensures IsDigits(s)
    ensures |s| == if n < 100 then 2 else |Decimal(n)|
    ensures |Decimal(n)| < 2 ==> s == ['0'] + Decimal(n)
    ensures |Decimal(n)| >= 2 ==> s == Decimal(n)
  {
    if |Decimal(n)| < 2 then "0" + Decimal(n) else Decimal(n)
  }

  lemma PadTwoValue(n: nat)
    ensures DigitsValue(PadTwo(n)) == n
  {
    var d := Decimal(n);
    DecimalRoundTrip(n);
    if n < 10 {
      assert PadTwo(n) == ['0'] + d;
      assert PadTwo(n)[..1] == ['0'];
    }
  }

  /** The shape of formatTime's output: digits, a colon, two digits, a
      colon, two digits, with at least two digits of hours. */
  predicate IsClockText(s: string) {
    |s| >= 8 && s[|s| - 6] == ':' && s[|s| - 3] == ':' &&
    IsDigits(s[..|s| - 6]) && IsDigits(s[|s| - 5..|s| - 3]) && IsDigits(s[|s| - 2..])
  }

  /** Reads a clock text back into a second count; the inverse of FormatTime. */
  function ParseClock(s: string): nat
    requires IsClockText(s)
  {
    DigitsValue(s[..|s| - 6]) * 3600 + DigitsValue(s[|s| - 5..|s| - 3]) * 60 + DigitsValue(s[|s| - 2..])
  }

  /** formatTime: HH:MM:SS, each field padded to two digits, hours unbounded. */
  function FormatTime(total: nat): (s: string)
    ensures IsClockText(s)
    ensures |s| == 8 <==> total < 360000
  {
    var f := ClockFields(total);
    var h, m, sec := PadTwo(f.hours), PadTwo(f.minutes), PadTwo(f.seconds);
    var s := h + ":" + m + ":" + sec;
    assert s[..|s| - 6] == h && s[|s| - 5..|s| - 3] == m && s[|s| - 2..] == sec;
    assert f.hours < 100 <==> total < 360000;
    s
  }

  /** The slices of a clock text assembled from three strings, with
      two-character minutes and seconds. */
  lemma ClockSlices(h: string, m: string, sec: string)
    requires |m| == 2 && |sec| == 2
    ensures var s := h + ":" + m + ":" + sec;
      |s| == |h| + 6 && s[|s| - 6] == ':' && s[|s| - 3] == ':' &&
      s[..|s| - 6] == h && s[|s| - 5..|s| - 3] == m && s[|s| - 2..] == sec
  {
    var tail := ":" + m + ":" + sec;
    var s := h + ":" + m + ":" + sec;
    assert s == h + tail;
    assert s[..|h|] == h && s[|h|..] == tail;
  }

  /** A string whose hours, minutes and seconds slices are the given digit
      strings, separated by colons, is a clock text with their value. */
  lemma ClockTextOfSlices(s: string, h: string, m: string, sec: string)
    requires IsDigits(h) && IsDigits(m) && IsDigits(sec)
    requires |s| == |h| + 6 && |h| >= 2 && s[|s| - 6] == ':' && s[|s| - 3] == ':'
    requires s[..|s| - 6] == h && s[|s| - 5..|s| - 3] == m && s[|s| - 2..] == sec
    ensures IsClockText(s)
    ensures ParseClock(s) == DigitsValue(h) * 3600 + DigitsValue(m) * 60 + DigitsValue(sec)
  {
  }

  /** Reading back a clock text assembled from three digit strings. */
  lemma ParseClockParts(h: string, m: string, sec: string)
    requires IsDigits(h) && |h| >= 2 && IsDigits(m) && |m| == 2 && IsDigits(sec) && |sec| == 2
    ensures IsClockText(h + ":" + m + ":" + sec)
    ensures ParseClock(h + ":" + m + ":" + sec) == DigitsValue(h) * 3600 + DigitsValue(m) * 60 + DigitsValue(sec)
  {
    ClockSlices(h, m, sec);
    ClockTextOfSlices(h + ":" + m + ":" + sec, h, m, sec);
  }

  /** The clock text determines the count it was made from. */
  lemma FormatTimeRoundTrip(total: nat)
    ensures ParseClock(FormatTime(total)) == total
  {
    var f := ClockFields(total);
    var hh: nat, mm: nat, ss: nat := f.hours, f.minutes, f.seconds;
    PadTwoValue(hh);
    PadTwoValue(mm);
    PadTwoValue(ss);
    ParseClockParts(PadTwo(hh), PadTwo(mm), PadTwo(ss));
    assert FormatTime(total) == PadTwo(hh) + ":" + PadTwo(mm) + ":" + PadTwo(ss);
  }

  /** Two different counts never show the same clock text. */
  lemma FormatTimeInjective(a: nat, b: nat)
    requires FormatTime(a) == FormatTime(b)
    ensures a == b
  {
    FormatTimeRoundTrip(a);
    FormatTimeRoundTrip(b);
  }

  /** A field below 100 renders as exactly two digits. */
  lemma PadTwoSmall(n: nat)
    requires n < 100
    ensures PadTwo(n) == if n < 10 then ['0', DigitChar(n)] else [DigitChar(n / 10), DigitChar(n % 10)]
  {
    if n < 10 {
      assert PadTwo(n) == ['0'] + [DigitChar(n)];
    } else {
      assert Decimal(n / 10) == [DigitChar(n / 10)];
    }
  }

  /** FormatTime field by field: the padded hours, minutes and seconds of
      the split, for every count. */
  lemma FormatTimeFields(total: nat, h: nat, m: nat, sec: nat)
    requires m < 60 && sec < 60 && total == h * 3600 + m * 60 + sec
    ensures FormatTime(total) == PadTwo(h) + ":" + PadTwo(m) + ":" + PadTwo(sec)
  {
    InputsCanonical(Fields(h, m, sec));
    assert TotalSecondsFromInputs(Fields(h, m, sec)) == total;
    assert ClockFields(total) == Fields(h, m, sec);
  }

  lemma PadTwoExamples()
    ensures PadTwo(0) == "00" && PadTwo(1) == "01" && PadTwo(59) == "59"
  {
    PadTwoSmall(0);
    PadTwoSmall(1);
    PadTwoSmall(59);
    assert DigitChar(0) == '0' && DigitChar(1) == '1' && DigitChar(5) == '5' && DigitChar(9) == '9';
  }

  /** A zero count shows as 00:00:00. */
  lemma FormatTimeZero()
    ensures FormatTime(0) == "00:00:00"
  {
    PadTwoExamples();
    FormatTimeFields(0, 0, 0, 0);
  }

  lemma FormatTimeExamples()
    ensures FormatTime(59) == "00:00:59"
    ensures FormatTime(3661) == "01:01:01"
  {
    PadTwoExamples();
    FormatTimeFields(59, 0, 0, 59);
    FormatTimeFields(3661, 1, 1, 1);
  }

  /** Hours are not wrapped at 100: the hours field widens instead. */
  lemma FormatTimeHundredHours()
    ensures FormatTime(360000) == "100:00:00"
  {
    PadTwoSmall(0);
    assert ClockFields(360000) == Fields(100, 0, 0);
    assert Decimal(1) == "1" && Decimal(10) == "10";
    assert PadTwo(100) == Decimal(100) == "100";
  }
}
