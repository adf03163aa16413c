/**
 * Progress through an interval and the two lookups the face makes in the
 * normalised schedule: the class in progress and the next class it announces.
 */
module Progress {

  import opened Optional
  import opened Clock
  import opened Schedule

  /** `MathUtils.clamp(value, min, max)`. */
  function Clamp(v: real, lo: real, hi: real): (r: real)
    requires lo <= hi
    ensures lo <= r <= hi
    ensures lo <= v <= hi ==> r == v
    ensures v < lo ==> r == lo
    ensures v > hi ==> r == hi
  {
    if v < lo then lo else if v > hi then hi else v
  }

  lemma ProductSign(x: real, b: real)
    requires b > 0.0
    ensures x * b <= 0.0 ==> x <= 0.0
    ensures x * b >= 0.0 ==> x >= 0.0
    ensures x * b < 0.0 ==> x < 0.0
    ensures x * b > 0.0 ==> x > 0.0
  {
  }

  /** Facts about a quotient by a positive real that the proofs below rely on. */
  lemma QuotientBounds(a: real, b: real)
    requires b > 0.0
    ensures a <= 0.0 ==> a / b <= 0.0
    ensures a >= b ==> a / b >= 1.0
    ensures 0.0 < a < b ==> 0.0 < a / b < 1.0
    ensures a / b * b == a
  {
    var q := a / b;
    assert q * b == a;
    assert (q - 1.0) * b == a - b;
    ProductSign(q, b);
    ProductSign(q - 1.0, b);
  }

  /**
   * `getPercent(start, end)`: the clamped ratio (now - start) / (end - start)
   * on seconds of the day. There is no guard for start == end: a non-zero
   * numerator over zero gives an infinity of the numerator's sign, which the
   * clamp turns into 0 or 1, and 0 / 0 gives NaN, which the clamp passes
   * through; None stands for that NaN.
   */
  function GetPercent(now: TimeOfDay, start: TimeOfDay, end: TimeOfDay): (p: Option<real>)
    ensures p.None? <==> start == end && now == start
    ensures p.Some? ==> 0.0 <= p.value <= 1.0
    ensures start < end && now <= start ==> p == Some(0.0)
    ensures start < end && end <= now ==> p == Some(1.0)
    ensures start == end && now < start ==> p == Some(0.0)
    ensures start == end && start < now ==> p == Some(1.0)
  {
    var numerator := now - start;
    var denominator := end - start;
    if denominator != 0 then
      if denominator > 0 then
        QuotientBounds(numerator as real, denominator as real);
        Some(Clamp(numerator as real / denominator as real, 0.0, 1.0))
      else
        Some(Clamp(numerator as real / denominator as real, 0.0, 1.0))
    else if numerator > 0 then Some(1.0)
    else if numerator < 0 then Some(0.0)
    else None
  }

  /** Strictly inside a proper interval the fraction is the elapsed share of it. */
  lemma PercentInside(now: TimeOfDay, start: TimeOfDay, end: TimeOfDay)
    requires start < now < end
    ensures GetPercent(now, start, end).Some?
    ensures var p := GetPercent(now, start, end).value;
      0.0 < p < 1.0 && p * (end - start) as real == (now - start) as real
  {
    QuotientBounds((now - start) as real, (end - start) as real);
  }

  /** Over a proper interval the fraction never goes down as time goes on. */
  lemma PercentMonotone(now1: TimeOfDay, now2: TimeOfDay, start: TimeOfDay, end: TimeOfDay)
    requires start < end && now1 <= now2
    ensures GetPercent(now1, start, end).value <= GetPercent(now2, start, end).value
  {
    var den := (end - start) as real;
    var a := (now1 - start) as real;
    var b := (now2 - start) as real;
    var qa := a / den;
    var qb := b / den;
    QuotientBounds(a, den);
    QuotientBounds(b, den);
    assert (qb - qa) * den == qb * den - qa * den == b - a;
    ProductSign(qb - qa, den);
    assert qa <= qb;
    assert GetPercent(now1, start, end) == Some(Clamp(qa, 0.0, 1.0));
    assert GetPercent(now2, start, end) == Some(Clamp(qb, 0.0, 1.0));
  }

  /** `Float.roundToInt()`: the nearest integer, halves rounded up. */
  function RoundToInt(x: real): (n: int)
    ensures n as real - 0.5 <= x < n as real + 0.5
  {
    (x + 0.5).Floor
  }

  /** The whole percentage `(percent * 100).roundToInt()` shown in the label. */
  function PercentNumber(p: real): (n: nat)
    requires 0.0 <= p <= 1.0
    ensures n <= 100
    ensures n as real - 0.5 <= p * 100.0 < n as real + 0.5
    ensures p == 0.0 ==> n == 0
    ensures p == 1.0 ==> n == 100
  {
    RoundToInt(p * 100.0)
  }

  // ---------------------------------------------------------------- lookups

  /** `mNow in it.start..it.end`: a closed range. */
  function Covers(c: ScheduleClass, now: TimeOfDay): (r: bool)
    // only a class whose start is not after its end covers any instant
    ensures r ==> c.start <= c.end
  {
    c.start <= now <= c.end
  }

  /**
   * `mScheduleClasses.find { mNow in it.start..it.end }`: the first class
   * whose closed range holds now, or None when no class does.
   */
  function CurrentClass(classes: seq<ScheduleClass>, now: TimeOfDay): (r: Option<ScheduleClass>)
    ensures r.None? <==> forall i :: 0 <= i < |classes| ==> !Covers(classes[i], now)
    ensures r.Some? ==>
      exists i :: 0 <= i < |classes| && classes[i] == r.value && Covers(classes[i], now)
        && forall j :: 0 <= j < i ==> !Covers(classes[j], now)
  {
    if classes == [] then None
    else if Covers(classes[0], now) then Some(classes[0])
    else
      var r := CurrentClass(classes[1..], now);
      assert forall i :: 1 <= i < |classes| ==> classes[i] == classes[1..][i - 1];
      if r.Some? then
        var k :| 0 <= k < |classes[1..]| && classes[1..][k] == r.value && Covers(classes[1..][k], now)
          && forall j :: 0 <= j < k ==> !Covers(classes[1..][j], now);
        assert classes[k + 1] == r.value;
        assert forall j :: 0 <= j < k + 1 ==> !Covers(classes[j], now) by {
          forall j | 0 <= j < k + 1 ensures !Covers(classes[j], now) {
            if j > 0 { assert classes[j] == classes[1..][j - 1]; }
          }
        }
        r
      else
        r
  }

  /**
   * At an instant two neighbouring classes share (one ends as the next
   * starts), the earlier one is the current class.
   */
  lemma SharedBoundaryEarlierWins(classes: seq<ScheduleClass>, i: nat, now: TimeOfDay)
    requires i + 1 < |classes|
    requires classes[i].start <= now == classes[i].end && classes[i + 1].start == now
    requires forall j :: 0 <= j < i ==> !Covers(classes[j], now)
    ensures CurrentClass(classes, now) == Some(classes[i])
  {
    var r := CurrentClass(classes, now);
    var k :| 0 <= k < |classes| && classes[k] == r.value && Covers(classes[k], now)
      && forall j :: 0 <= j < k ==> !Covers(classes[j], now);
    assert Covers(classes[i], now);
    assert k == i;
  }

  /** `mNow < it.start && it.name != "Break"`. */
  function Upcoming(c: ScheduleClass, now: TimeOfDay): (r: bool)
    // a class still to start is not the class in progress
    ensures r ==> !Covers(c, now)
  {
    now < c.start && c.name != BREAK_NAME
  }

  /**
   * `mScheduleClasses.firstOrNull { mNow < it.start && it.name != "Break" }`:
   * the first class still to start that is not named "Break".
   */
  function NextClass(classes: seq<ScheduleClass>, now: TimeOfDay): (r: Option<ScheduleClass>)
    ensures r.None? <==> forall i :: 0 <= i < |classes| ==> !Upcoming(classes[i], now)
    ensures r.Some? ==> r.value.name != BREAK_NAME && now < r.value.start
    ensures r.Some? ==>
      exists i :: 0 <= i < |classes| && classes[i] == r.value
        && forall j :: 0 <= j < i ==> !Upcoming(classes[j], now)
  {
    if classes == [] then None
    else if Upcoming(classes[0], now) then Some(classes[0])
    else
      var r := NextClass(classes[1..], now);
      assert forall i :: 1 <= i < |classes| ==> classes[i] == classes[1..][i - 1];
      if r.Some? then
        var k :| 0 <= k < |classes[1..]| && classes[1..][k] == r.value
          && forall j :: 0 <= j < k ==> !Upcoming(classes[1..][j], now);
        assert classes[k + 1] == r.value;
        assert forall j :: 0 <= j < k + 1 ==> !Upcoming(classes[j], now) by {
          forall j | 0 <= j < k + 1 ensures !Upcoming(classes[j], now) {
            if j > 0 { assert classes[j] == classes[1..][j - 1]; }
          }
        }
        r
      else
        r
  }

  /**
   * For A 8:00-8:50 and B 9:00-9:50 the schedule is [A, Break, B]: at 8:50 A
   * is current; at 9:00 the Break, which ends as B starts, is current; and
   * from 8:50 on the next class announced is B, never the Break.
   */
  lemma BoundaryScenario(a: ScheduleClass, b: ScheduleClass)
    requires a.start == At(8, 0) && a.end == At(8, 50) && a.name != BREAK_NAME
    requires b.start == At(9, 0) && b.end == At(9, 50) && b.name != BREAK_NAME
    ensures CurrentClass(Normalized([a, b]), At(8, 50)) == Some(a)
    ensures CurrentClass(Normalized([a, b]), At(9, 0)) == Some(BreakBetween(a, b))
    ensures NextClass(Normalized([a, b]), At(8, 50)) == Some(b)
  {
    TwoClassScenario(a, b);
    var s := Normalized([a, b]);
    SharedBoundaryEarlierWins(s, 0, At(8, 50));
    SharedBoundaryEarlierWins(s, 1, At(9, 0));
  }

}
