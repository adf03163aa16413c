/**
 * What one call of `onDraw` puts on the canvas, as a plan: which elements are
 * drawn and with what text, sweep and colour. Pixel placement and painting
 * are not part of the plan; the width a text measures at the small text size
 * is supplied by the caller's `measure` function.
 */
module Render {

  import opened Optional
  import opened Clock
  import opened Schedule
  import opened Progress

  const SCHOOL_RING_SCALE: real := 0.975
  const CLASS_RING_SCALE: real := 0.935
  const TAP_INDICATOR_SCALE: real := 0.5

  /** `Color.BLACK` and `Color.LTGRAY` as signed 32-bit `@ColorInt`s. */
  const BLACK: int := 0xFF00_0000 - 0x1_0000_0000
  const LTGRAY: int := 0xFFCC_CCCC - 0x1_0000_0000

  /** Arcs start at 12 o'clock. */
  const RING_START_ANGLE: real := -90.0

  const ELLIPSIS: char := '\U{2026}'
  /** `text1.substring(0..8)` keeps the first nine characters. */
  const KEPT_NAME_LENGTH: nat := 9
  const NO_SCHOOL: string := "No School"
  const SCHOOL: string := "School"

  // ---------------------------------------------------------------- geometry

  /** `android.graphics.Rect`. */
  datatype Rect = Rect(left: int, top: int, right: int, bottom: int)
  {
    function Width(): int { right - left }
    function Height(): int { bottom - top }
    function ExactCenterX(): real { (left + right) as real * 0.5 }
    function ExactCenterY(): real { (top + bottom) as real * 0.5 }
  }

  /** `android.graphics.RectF`. */
  datatype RectF = RectF(left: real, top: real, right: real, bottom: real)
  {
    function Width(): real { right - left }
    function Height(): real { bottom - top }
    function CenterX(): real { (left + right) * 0.5 }
    function CenterY(): real { (top + bottom) * 0.5 }
  }

  /**
   * `Rect.scale(s)`: every edge moves inward by (1 - s) times the width (left
   * and right) or the height (top and bottom), so the result keeps the centre
   * and its width is w(2s - 1), not w s.
   */
  function Scale(r: Rect, s: real): (f: RectF)
    ensures f.Width() == r.Width() as real * (2.0 * s - 1.0)
    ensures f.Height() == r.Height() as real * (2.0 * s - 1.0)
    ensures f.CenterX() == r.ExactCenterX() && f.CenterY() == r.ExactCenterY()
  {
    var deltaX := r.Width() as real * (1.0 - s);
    var deltaY := r.Height() as real * (1.0 - s);
    RectF(r.left as real + deltaX, r.top as real + deltaY, r.right as real - deltaX, r.bottom as real - deltaY)
  }

  /** `bounds.scale(TAP_INDICATOR_SCALE).width() / 2`: with the factor 0.5 it is always 0. */
  function TapIndicatorRadius(bounds: Rect): (radius: real)
    ensures radius == 0.0
  {
    Scale(bounds, TAP_INDICATOR_SCALE).Width() / 2.0
  }

  /** `withinTapRegion`: the point lies in the closed disc of the given centre and radius. */
  function WithinTapRegion(x: int, y: int, centerX: real, centerY: real, radius: real): (inside: bool)
    // the centre is inside whatever the radius
    ensures x as real == centerX && y as real == centerY ==> inside
  {
    var dx := x as real - centerX;
    var dy := y as real - centerY;
    dx * dx + dy * dy <= radius * radius
  }

  lemma HalfSquare(a: int)
    ensures (a as real * 0.5) * (a as real * 0.5) == (a * a) as real * 0.25
  {
  }

  lemma ZeroSumOfSquares(a: int, b: int)
    ensures a * a + b * b <= 0 <==> a == 0 && b == 0
  {
    assert a * a >= 0 && b * b >= 0;
    assert a != 0 ==> a * a > 0;
    assert b != 0 ==> b * b > 0;
  }

  /**
   * With the radius 0 the face actually uses, a tap is inside the region only
   * at the exact centre of the bounds; when left + right (or top + bottom) is
   * odd, that centre is not a pixel and no tap is ever inside.
   */
  lemma ZeroRadiusRegionIsCentre(x: int, y: int, bounds: Rect)
    ensures WithinTapRegion(x, y, bounds.ExactCenterX(), bounds.ExactCenterY(), 0.0)
      <==> 2 * x == bounds.left + bounds.right && 2 * y == bounds.top + bounds.bottom
  {
    var a := 2 * x - (bounds.left + bounds.right);
    var c := 2 * y - (bounds.top + bounds.bottom);
    assert x as real - bounds.ExactCenterX() == a as real * 0.5;
    assert y as real - bounds.ExactCenterY() == c as real * 0.5;
    HalfSquare(a);
    HalfSquare(c);
    ZeroSumOfSquares(a, c);
    assert WithinTapRegion(x, y, bounds.ExactCenterX(), bounds.ExactCenterY(), 0.0)
      == ((a * a + c * c) as real * 0.25 <= 0.0);
  }

  // ---------------------------------------------------------------- labels

  /**
   * `combineAndTruncate(text1, text2)`, given the measured width of
   * `text1 + ": " + text2` and the width of the bounds. The text is kept
   * whole while it is narrower than 70% of the bounds; otherwise the first
   * nine characters of text1 are kept, followed by an ellipsis. `substring`
   * throws when text1 is shorter than nine characters: None.
   */
  function CombineAndTruncate(text1: string, text2: string, measuredWidth: int, boundsWidth: int): (r: Option<string>)
    ensures var wide := 10 * measuredWidth >= 7 * boundsWidth;
      (r.None? <==> wide && |text1| < KEPT_NAME_LENGTH)
      && (r.Some? ==>
            // text2 is kept intact, after ": "
            |r.value| >= |text2| + 2 && r.value[|r.value| - |text2| - 2..] == ": " + text2
            // and what stands before it is text1 itself, or its first nine characters and an ellipsis
            && r.value[..|r.value| - |text2| - 2] ==
                 (if wide then text1[..KEPT_NAME_LENGTH] + [ELLIPSIS] else text1))
  {
    var text := text1 + ": " + text2;
    if 10 * measuredWidth >= 7 * boundsWidth then
      if |text1| < KEPT_NAME_LENGTH then None
      else
        var t := text1[..KEPT_NAME_LENGTH] + [ELLIPSIS] + ": " + text2;
        assert t[..|t| - |text2| - 2] == text1[..KEPT_NAME_LENGTH] + [ELLIPSIS];
        Some(t)
    else
      assert text[..|text| - |text2| - 2] == text1;
      Some(text)
  }

  /**
   * Truncation makes the label shorter only for names of eleven characters or
   * more: a name of nine or ten characters gains the ellipsis and loses at
   * most one character.
   */
  lemma TruncationShortensOnlyLongNames(text1: string, text2: string, measuredWidth: int, boundsWidth: int)
    requires CombineAndTruncate(text1, text2, measuredWidth, boundsWidth).Some?
    ensures |CombineAndTruncate(text1, text2, measuredWidth, boundsWidth).value| < |text1 + ": " + text2|
      <==> 10 * measuredWidth >= 7 * boundsWidth && |text1| > KEPT_NAME_LENGTH + 1
  {
  }

  /** The percent label's value: the rounded whole percentage and "%". */
  function PercentText(n: nat): (s: string)
    ensures |s| >= 2 && s[|s| - 1] == '%'
    ensures IsDigits(s[..|s| - 1]) && DecimalValue(s[..|s| - 1]) == n
  {
    var digits := NatToString(n);
    NatToStringRoundTrip(n);
    assert (digits + "%")[..|digits|] == digits;
    digits + "%"
  }

  // ---------------------------------------------------------------- the plan

  datatype Background = SolidBlack | BackgroundPaint

  /** A paint colour: an ARGB value, or the `school_ring` colour resource. */
  datatype Colour = Argb(value: int) | SchoolRingResource

  /** `drawArc(oval, -90, 360 * percent, ...)`; the sweep is None where the percent is NaN. */
  datatype Arc = Arc(oval: RectF, startAngle: real, sweep: Option<real>, colour: Colour)

  datatype Circle = Circle(centerX: real, centerY: real, radius: real)

  datatype DrawPlan = DrawPlan(
    background: Background,
    tapIndicator: Option<Circle>,
    timeText: Option<string>,
    schoolRing: Option<Arc>,
    classRing: Option<Arc>,
    nextClassLabel: Option<string>,
    percentLabel: Option<string>)

  /** Why a frame throws: `substring(0..8)` on a short name, or `roundToInt()` on NaN. */
  datatype Fault = SubstringOutOfRange | RoundNaN

  datatype Frame = Drawn(plan: DrawPlan) | Crashed(fault: Fault)

  /** The engine fields `onDraw` reads. */
  datatype FaceState = FaceState(
    ambient: bool,
    showTapIndicator: bool,
    showLunch: bool,
    schoolToday: bool,
    classes: seq<ScheduleClass>,
    schoolEnd: TimeOfDay,
    ringColour: Colour)

  function Sweep(percent: Option<real>): Option<real>
  {
    if percent.Some? then Some(360.0 * percent.value) else None
  }

  /** `combineAndTruncate` as `onDraw` calls it: the combined text measured at the small size. */
  function Label(text1: string, text2: string, bounds: Rect, measure: string -> nat): Option<string>
  {
    CombineAndTruncate(text1, text2, measure(text1 + ": " + text2), bounds.Width())
  }

  /** Where the school ring starts: the first class's start, else the default start of the day. */
  function SchoolStart(classes: seq<ScheduleClass>, wednesday: bool): (start: TimeOfDay)
    ensures classes == [] ==> start == At(if wednesday then 9 else 8, 0)
    ensures classes != [] ==> start == classes[0].start
  {
    if classes == [] then DefaultSchoolStart(wednesday) else classes[0].start
  }

  /** The class `onDraw` finds in progress; it searches only a non-empty list. */
  function Current(st: FaceState, now: TimeOfDay): Option<ScheduleClass>
  {
    if st.classes == [] then None else CurrentClass(st.classes, now)
  }

  /** The class the next-class label would announce; it is looked up only when not showing lunch. */
  function Next(st: FaceState, now: TimeOfDay): Option<ScheduleClass>
  {
    if st.classes != [] && !st.showLunch then NextClass(st.classes, now) else None
  }

  /** The percent shown by the label and the class ring: the current class's, else the school day's. */
  function ShownPercent(st: FaceState, now: TimeOfDay, wednesday: bool): Option<real>
  {
    var current := Current(st, now);
    if current.Some? then GetPercent(now, current.value.start, current.value.end)
    else GetPercent(now, SchoolStart(st.classes, wednesday), st.schoolEnd)
  }

  /** The name in the percent label: the current class's, else "School". */
  function PercentClassName(st: FaceState, now: TimeOfDay): string
  {
    var current := Current(st, now);
    if current.Some? then current.value.name else SCHOOL
  }

  /** The next-class label is due and `combineAndTruncate` throws on it. */
  predicate NextLabelFails(st: FaceState, bounds: Rect, now: TimeOfDay, measure: string -> nat)
  {
    var next := Next(st, now);
    !st.ambient && next.Some? && Label(next.value.name, FormatTime(next.value.start), bounds, measure).None?
  }

  /** Whether the percent label is drawn at all. */
  predicate ShowsPercentLabel(st: FaceState)
  {
    !st.ambient && !st.showLunch
  }

  /** The drawing decisions of `onDraw`, in the order the source takes them. */
  function Plan(st: FaceState, bounds: Rect, now: TimeOfDay, wednesday: bool, measure: string -> nat): (frame: Frame)
    // a frame throws only while the labels are drawn: never in ambient mode or the lunch view
    ensures frame.Crashed? ==> ShowsPercentLabel(st)
  {
    var centerX := bounds.ExactCenterX();
    var centerY := bounds.ExactCenterY();
    var background := if st.ambient then SolidBlack else BackgroundPaint;
    var tapIndicator :=
      if st.showTapIndicator then Some(Circle(centerX, centerY, TapIndicatorRadius(bounds))) else None;
    var timeText := if !st.showLunch then Some(FormatTime(now)) else None;
    var schoolPercent := GetPercent(now, SchoolStart(st.classes, wednesday), st.schoolEnd);
    var schoolRing :=
      if st.schoolToday then Some(Arc(Scale(bounds, SCHOOL_RING_SCALE), RING_START_ANGLE, Sweep(schoolPercent), st.ringColour))
      else None;
    var current := Current(st, now);
    var percent := ShownPercent(st, now, wednesday);
    var classRing :=
      if current.Some? then
        Some(Arc(Scale(bounds, CLASS_RING_SCALE), RING_START_ANGLE, Sweep(percent),
                 Argb(if st.ambient then LTGRAY else current.value.color)))
      else None;
    var className := PercentClassName(st, now);
    var next := Next(st, now);
    var nextLabel :=
      if next.Some? && !st.ambient then Some(Label(next.value.name, FormatTime(next.value.start), bounds, measure))
      else None;
    if nextLabel.Some? && nextLabel.value.None? then Crashed(SubstringOutOfRange)
    else if ShowsPercentLabel(st) && st.schoolToday && percent.None? then Crashed(RoundNaN)
    else
      var percentLabel :=
        if !ShowsPercentLabel(st) then None
        else if !st.schoolToday then Some(NO_SCHOOL)
        else Label(className, PercentText(PercentNumber(percent.value)), bounds, measure);
      if ShowsPercentLabel(st) && percentLabel.None? then Crashed(SubstringOutOfRange)
      else
        Drawn(DrawPlan(background, tapIndicator, timeText, schoolRing, classRing,
                       if nextLabel.Some? then nextLabel.value else None, percentLabel))
  }

  /** Which elements a drawn frame contains, each under exactly the condition `onDraw` tests. */
  lemma PlanGating(st: FaceState, bounds: Rect, now: TimeOfDay, wednesday: bool, measure: string -> nat)
    requires Plan(st, bounds, now, wednesday, measure).Drawn?
    ensures var plan := Plan(st, bounds, now, wednesday, measure).plan;
      (plan.background == SolidBlack <==> st.ambient)
      && (plan.tapIndicator.Some? <==> st.showTapIndicator)
      && (plan.tapIndicator.Some? ==> plan.tapIndicator.value.radius == 0.0)
      && plan.timeText == (if st.showLunch then None else Some(FormatTime(now)))
      && (plan.schoolRing.Some? <==> st.schoolToday)
      && (plan.classRing.Some? <==> st.classes != [] && CurrentClass(st.classes, now).Some?)
      && (plan.classRing.Some? && st.ambient ==> plan.classRing.value.colour == Argb(LTGRAY))
      && (plan.classRing.Some? && !st.ambient ==>
            plan.classRing.value.colour == Argb(CurrentClass(st.classes, now).value.color))
      && (plan.nextClassLabel.Some? <==>
            st.classes != [] && !st.showLunch && NextClass(st.classes, now).Some? && !st.ambient)
      && (plan.percentLabel.Some? <==> !st.ambient && !st.showLunch)
      && (plan.percentLabel.Some? && !st.schoolToday ==> plan.percentLabel.value == NO_SCHOOL)
  {
  }

  /** The day ring's fraction runs from the first class's start, or the default start, to the end of the day. */
  lemma SchoolRingSweep(st: FaceState, bounds: Rect, now: TimeOfDay, wednesday: bool, measure: string -> nat)
    requires Plan(st, bounds, now, wednesday, measure).Drawn? && st.schoolToday
    ensures var ring := Plan(st, bounds, now, wednesday, measure).plan.schoolRing.value;
      ring.sweep == Sweep(GetPercent(now, if st.classes == [] then DefaultSchoolStart(wednesday) else st.classes[0].start, st.schoolEnd))
      && ring.startAngle == -90.0 && ring.colour == st.ringColour
      && ring.oval.CenterX() == bounds.ExactCenterX() && ring.oval.Width() == bounds.Width() as real * 0.95
  {
  }

  /**
   * An ambient frame never throws: it draws no label, so neither `substring`
   * nor `roundToInt` is reached; the background is black and a class ring is
   * light grey.
   */
  lemma AmbientFrameNeverCrashes(st: FaceState, bounds: Rect, now: TimeOfDay, wednesday: bool, measure: string -> nat)
    requires st.ambient
    ensures Plan(st, bounds, now, wednesday, measure).Drawn?
    ensures var plan := Plan(st, bounds, now, wednesday, measure).plan;
      plan.background == SolidBlack && plan.nextClassLabel.None? && plan.percentLabel.None?
      && (plan.classRing.Some? ==> plan.classRing.value.colour == Argb(LTGRAY))
  {
  }

  /**
   * Exactly when a frame throws: `substring` throws when the next-class label
   * is due and must truncate a name shorter than nine characters, or when the
   * percent label on a school day must; failing that, `roundToInt` throws when
   * the percent shown on a school day is NaN.
   */
  lemma CrashConditions(st: FaceState, bounds: Rect, now: TimeOfDay, wednesday: bool, measure: string -> nat)
    ensures var percent := ShownPercent(st, now, wednesday);
      Plan(st, bounds, now, wednesday, measure) == Crashed(SubstringOutOfRange) <==>
        NextLabelFails(st, bounds, now, measure)
        || (ShowsPercentLabel(st) && st.schoolToday && percent.Some?
            && Label(PercentClassName(st, now), PercentText(PercentNumber(percent.value)), bounds, measure).None?)
    ensures Plan(st, bounds, now, wednesday, measure) == Crashed(RoundNaN) <==>
      !NextLabelFails(st, bounds, now, measure)
      && ShowsPercentLabel(st) && st.schoolToday && ShownPercent(st, now, wednesday).None?
  {
  }

  /** The class ring of a drawn frame sweeps the current class's percent, from 12 o'clock. */
  lemma ClassRingSweep(st: FaceState, bounds: Rect, now: TimeOfDay, wednesday: bool, measure: string -> nat)
    requires Plan(st, bounds, now, wednesday, measure).Drawn?
    ensures var plan := Plan(st, bounds, now, wednesday, measure).plan;
      var current := CurrentClass(st.classes, now);
      plan.classRing.Some? ==>
        plan.classRing.value.sweep == Sweep(GetPercent(now, current.value.start, current.value.end))
        && plan.classRing.value.oval == Scale(bounds, CLASS_RING_SCALE)
        && plan.classRing.value.startAngle == RING_START_ANGLE
  {
  }

  /** The next-class label of a drawn frame is the class's name and the `h:mm` of its start. */
  lemma NextClassLabelText(st: FaceState, bounds: Rect, now: TimeOfDay, wednesday: bool, measure: string -> nat)
    requires Plan(st, bounds, now, wednesday, measure).Drawn?
    ensures var plan := Plan(st, bounds, now, wednesday, measure).plan;
      var next := NextClass(st.classes, now);
      plan.nextClassLabel.Some? ==>
        var text := plan.nextClassLabel.value; var time := FormatTime(next.value.start);
        plan.nextClassLabel == Label(next.value.name, time, bounds, measure)
        && |text| >= |time| + 2 && text[|text| - |time| - 2..] == ": " + time
  {
  }

  /**
   * The percent label of a drawn frame on a school day is the current class's
   * name, or "School", and the rounded percent with "%".
   */
  lemma PercentLabelText(st: FaceState, bounds: Rect, now: TimeOfDay, wednesday: bool, measure: string -> nat)
    requires Plan(st, bounds, now, wednesday, measure).Drawn?
    requires Plan(st, bounds, now, wednesday, measure).plan.percentLabel.Some? && st.schoolToday
    ensures ShownPercent(st, now, wednesday).Some?
    ensures var plan := Plan(st, bounds, now, wednesday, measure).plan;
      var value := PercentText(PercentNumber(ShownPercent(st, now, wednesday).value));
      var text := plan.percentLabel.value;
      plan.percentLabel == Label(PercentClassName(st, now), value, bounds, measure)
      && |text| >= 1 && text[|text| - 1] == '%'
    ensures PercentClassName(st, now) == (if Current(st, now).Some? then Current(st, now).value.name else SCHOOL)
  {
    var plan := Plan(st, bounds, now, wednesday, measure).plan;
    var value := PercentText(PercentNumber(ShownPercent(st, now, wednesday).value));
    var text := plan.percentLabel.value;
    assert text[|text| - |value| - 2..] == ": " + value;
    assert text[|text| - 1] == (": " + value)[|value| + 1];
  }

  /**
   * A class of zero length that starts as the next one starts (two raw
   * classes 10:00-10:00 and 10:00-11:00) is current at 10:00, its percent is
   * 0 / 0, and the interactive frame throws in `roundToInt`.
   */
  lemma ZeroLengthClassCrashesFrame(z: ScheduleClass, b: ScheduleClass, bounds: Rect, measure: string -> nat)
    requires z.start == z.end == At(10, 0) && b.start == At(10, 0) && b.end == At(11, 0)
    ensures var st := FaceState(false, false, false, true, Normalized([z, b]), EffectiveEnd(Normalized([z, b])), SchoolRingResource);
      Plan(st, bounds, At(10, 0), false, measure) == Crashed(RoundNaN)
  {
    var raw := [z, b];
    assert Normalized(raw) == Prefix(raw, 0) + PairOutput(z, b) == [z, b];
    assert NextClass([z, b], At(10, 0)).None?;
  }

}
