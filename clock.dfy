/**
 * Times of day as the engine handles them (`java.time.LocalTime`, read through
 * `toSecondOfDay`), the fixed school-day times it uses, and the `"h:mm"` text
 * it draws in the centre of the face.
 */
module Clock {

  const SECONDS_PER_DAY: int := 86400

  /** A time of day in whole seconds since midnight. */
  type TimeOfDay = t: int | 0 <= t < 86400

  /** `LocalTime.of(hour, minute)`. */
  function At(hour: int, minute: int): (t: TimeOfDay)
    requires 0 <= hour < 24 && 0 <= minute < 60
    ensures t / 3600 == hour && (t / 60) % 60 == minute && t % 60 == 0
  {
    hour * 3600 + minute * 60
  }

  /** The school day never ends later than 15:15 (`LocalTime.of(15, 15)`). */
  const DEFAULT_SCHOOL_END: TimeOfDay := 54900

  /** Used when there are no classes: 9:00 on Wednesdays, 8:00 on the other days. */
  function DefaultSchoolStart(wednesday: bool): (t: TimeOfDay)
    ensures t == At(if wednesday then 9 else 8, 0)
  {
    if wednesday then 32400 else 28800
  }

  // ---------------------------------------------------------------- decimal text

  predicate IsDigit(c: char) { '0' <= c <= '9' }

  predicate IsDigits(s: string) { forall i :: 0 <= i < |s| ==> IsDigit(s[i]) }

  function DigitChar(d: int): (c: char)
    requires 0 <= d < 10
    ensures IsDigit(c) && c as int - '0' as int == d
  {
    ('0' as int + d) as char
  }

  /** The value a string of decimal digits denotes. */
  function DecimalValue(s: string): nat
    requires IsDigits(s)
  {
    if s == [] then 0
    else DecimalValue(s[..|s| - 1]) * 10 + (s[|s| - 1] as int - '0' as int)
  }

  /** `Int.toString()` for a non-negative number: no sign and no leading zero. */
  function NatToString(n: nat): (s: string)
    ensures 1 <= |s| && IsDigits(s)
    ensures n < 10 <==> |s| == 1
    ensures n < 100 ==> |s| <= 2
    ensures |s| > 1 ==> s[0] != '0'
    decreases n
  {
    if n < 10 then [DigitChar(n)] else NatToString(n / 10) + [DigitChar(n % 10)]
  }

  /** Reading the digits back gives the number again. */
  lemma {:induction false} NatToStringRoundTrip(n: nat)
    ensures DecimalValue(NatToString(n)) == n
    decreases n
  {
    if n >= 10 {
      var s := NatToString(n / 10);
      var t := NatToString(n);
      assert t[..|t| - 1] == s;
      NatToStringRoundTrip(n / 10);
    }
  }

  // ---------------------------------------------------------------- "h:mm"

  /** The hour on a 12-hour dial: midnight and noon read 12. */
  function Hour12(t: TimeOfDay): (h: int)
    ensures 1 <= h <= 12
    ensures h % 12 == (t / 3600) % 12
  {
    var h := (t / 3600) % 12;
    if h == 0 then 12 else h
  }

  /** The minute of the hour: t is h hours, m minutes and some seconds. */
  function Minute(t: TimeOfDay): (m: int)
    ensures 0 <= m < 60
    ensures t == 3600 * (t / 3600) + 60 * m + t % 60
  {
    var m := (t / 60) % 60;
    assert t == 60 * (t / 60) + t % 60;
    assert t / 60 == 60 * (t / 3600) + m;
    m
  }

  /** `DateTimeFormatter.ofPattern("h:mm").format(t)`: the hour without leading zero, two minute digits. */
  function FormatTime(t: TimeOfDay): (s: string)
    ensures 4 <= |s| <= 5 && s[|s| - 3] == ':'
    ensures IsDigits(s[..|s| - 3]) && IsDigits(s[|s| - 2..])
  {
    NatToString(Hour12(t)) + ":" + [DigitChar(Minute(t) / 10), DigitChar(Minute(t) % 10)]
  }

  /**
   * The text shows the 12-hour hour in one or two digits with no leading zero,
   * a colon, and exactly two minute digits; both fields read back as the time's
   * hour and minute.
   */
  lemma FormatTimeReadsBack(t: TimeOfDay)
    ensures var s := FormatTime(t); var k := if Hour12(t) < 10 then 1 else 2;
      |s| == k + 3 && s[k] == ':' && s[0] != '0'
      && IsDigits(s[..k]) && DecimalValue(s[..k]) == Hour12(t)
      && IsDigits(s[k + 1..]) && DecimalValue(s[k + 1..]) == Minute(t)
  {
    var s := FormatTime(t);
    var h := NatToString(Hour12(t));
    var k := |h|;
    assert s[..k] == h;
    NatToStringRoundTrip(Hour12(t));
    var mm := s[k + 1..];
    assert mm == [DigitChar(Minute(t) / 10), DigitChar(Minute(t) % 10)];
    assert mm[..1] == [DigitChar(Minute(t) / 10)];
    assert DecimalValue(mm[..1]) == Minute(t) / 10 by {
      assert mm[..1][..0] == [];
    }
  }

  /** Midnight reads "12:00"; 13:05 reads "1:05". */
  lemma FormatTimeExamples()
    ensures FormatTime(0) == "12:00"
    ensures FormatTime(47100) == "1:05"
  {
    assert Hour12(0) == 12 && Minute(0) == 0;
    assert NatToString(12) == NatToString(1) + [DigitChar(2)] == "12";
    assert Hour12(47100) == 1 && Minute(47100) == 5;
  }

}
