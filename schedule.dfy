/**
 * The schedule normaliser: the success listener of the schedule request turns
 * the day's raw class list into the list the face draws from, and sets the
 * end of the school day.
 *
 * The listener walks the raw list in adjacent pairs (c[i], c[i+1]) for
 * i = 0 .. n-2 and appends c[i], then a grey "Break" when the two are not back
 * to back, then c[i+1]. As written, each interior class is therefore appended
 * twice (once as the second of a pair, once as the first of the next), and a
 * list of fewer than two classes yields the empty list.
 */
module Schedule {

  import opened Clock

  /** `Color.GRAY` (0xFF888888) as the signed 32-bit `@ColorInt` the source stores. */
  const GRAY: int := 0xFF88_8888 - 0x1_0000_0000

  const BREAK_NAME: string := "Break"

  /** `ScheduleClass(name, start, end, color)`. */
  datatype ScheduleClass = ScheduleClass(name: string, start: TimeOfDay, end: TimeOfDay, color: int)

  /** The synthetic class that fills the gap between two raw classes. */
  function BreakBetween(c1: ScheduleClass, c2: ScheduleClass): (b: ScheduleClass)
    ensures b.name == BREAK_NAME && b.color == GRAY
    ensures b.start == c1.end && b.end == c2.start
  {
    ScheduleClass(BREAK_NAME, c1.end, c2.start, GRAY)
  }

  /** What one pass of the loop appends for the pair (c1, c2). */
  function PairOutput(c1: ScheduleClass, c2: ScheduleClass): (p: seq<ScheduleClass>)
    ensures |p| == (if c1.end != c2.start then 3 else 2)
    ensures p[0] == c1 && p[|p| - 1] == c2
    ensures |p| == 3 ==> p[1] == BreakBetween(c1, c2)
    // within one pair's output each element ends where the next one starts
    ensures forall j :: 0 <= j < |p| - 1 ==> p[j].end == p[j + 1].start
  {
    [c1] + (if c1.end != c2.start then [BreakBetween(c1, c2)] else []) + [c2]
  }

  /** The list after the first k passes of the loop. */
  function Prefix(raw: seq<ScheduleClass>, k: nat): seq<ScheduleClass>
    requires k == 0 || k < |raw|
  {
    if k == 0 then [] else Prefix(raw, k - 1) + PairOutput(raw[k - 1], raw[k])
  }

  /** The list the listener builds from the raw classes. */
  function Normalized(raw: seq<ScheduleClass>): seq<ScheduleClass>
  {
    if |raw| < 2 then [] else Prefix(raw, |raw| - 1)
  }

  /** The loop of the listener: `for (i in 0 until classesArray.length() - 1)`. */
  method BuildSchedule(raw: seq<ScheduleClass>) returns (classes: seq<ScheduleClass>)
    ensures classes == Normalized(raw)
  {
    classes := [];
    var i := 0;
    while i < |raw| - 1
      invariant i == 0 || i < |raw|
      invariant classes == Prefix(raw, i)
    {
      var class1 := raw[i];
      var class2 := raw[i + 1];
      classes := classes + [class1];
      if class1.end != class2.start {
        classes := classes + [ScheduleClass(BREAK_NAME, class1.end, class2.start, GRAY)];
      }
      classes := classes + [class2];
      i := i + 1;
    }
  }

  /** The number of adjacent raw pairs, among the first k, that are not back to back. */
  function Gaps(raw: seq<ScheduleClass>, k: nat): (g: nat)
    requires k == 0 || k < |raw|
    ensures g <= k
  {
    if k == 0 then 0 else Gaps(raw, k - 1) + (if raw[k - 1].end != raw[k].start then 1 else 0)
  }

  /** Two entries per pair plus one Break per gap. */
  lemma {:induction false} PrefixLength(raw: seq<ScheduleClass>, k: nat)
    requires k == 0 || k < |raw|
    ensures |Prefix(raw, k)| == 2 * k + Gaps(raw, k)
  {
    if k > 0 {
      PrefixLength(raw, k - 1);
    }
  }

  /** Prefixes of the output grow by appending: earlier passes are never rewritten. */
  lemma {:induction false} PrefixExtends(raw: seq<ScheduleClass>, k: nat, m: nat)
    requires k <= m && (m == 0 || m < |raw|)
    ensures |Prefix(raw, k)| <= |Prefix(raw, m)|
    ensures Prefix(raw, m)[..|Prefix(raw, k)|] == Prefix(raw, k)
    decreases m - k
  {
    if k < m {
      PrefixExtends(raw, k, m - 1);
      var a := Prefix(raw, k);
      var b := Prefix(raw, m - 1);
      assert Prefix(raw, m) == b + PairOutput(raw[m - 1], raw[m]);
      assert Prefix(raw, m)[..|b|] == b;
    }
  }

  /**
   * The output is the concatenation of the pairs' outputs: entry j of pass i's
   * output sits at position |Prefix(raw, i)| + j.
   */
  lemma PairAt(raw: seq<ScheduleClass>, i: nat, j: nat)
    requires i + 1 < |raw| && j < |PairOutput(raw[i], raw[i + 1])|
    ensures |Prefix(raw, i)| + j < |Normalized(raw)|
    ensures Normalized(raw)[|Prefix(raw, i)| + j] == PairOutput(raw[i], raw[i + 1])[j]
  {
    var pre := Prefix(raw, i);
    var q := PairOutput(raw[i], raw[i + 1]);
    var upto := Prefix(raw, i + 1);
    assert upto == pre + q;
    assert upto[|pre| + j] == q[j];
    PrefixExtends(raw, i + 1, |raw| - 1);
    var whole := Prefix(raw, |raw| - 1);
    assert whole[..|upto|] == upto;
    assert whole[|pre| + j] == whole[..|upto|][|pre| + j];
  }

  /** The output has 2(n-1) entries plus one Break per gap; n < 2 classes give none. */
  lemma NormalizedLength(raw: seq<ScheduleClass>)
    ensures |raw| < 2 ==> Normalized(raw) == []
    ensures |raw| >= 2 ==> |Normalized(raw)| == 2 * (|raw| - 1) + Gaps(raw, |raw| - 1)
  {
    if |raw| >= 2 {
      PrefixLength(raw, |raw| - 1);
    }
  }

  /** For n >= 2 the output starts with the first raw class and ends with the last. */
  lemma NormalizedEnds(raw: seq<ScheduleClass>)
    requires |raw| >= 2
    ensures |Normalized(raw)| >= 2
    ensures Normalized(raw)[0] == raw[0]
    ensures Normalized(raw)[|Normalized(raw)| - 1] == raw[|raw| - 1]
  {
    PairAt(raw, 0, 0);
    var n := |raw|;
    var q := PairOutput(raw[n - 2], raw[n - 1]);
    assert Normalized(raw) == Prefix(raw, n - 2) + q;
  }

  /**
   * Pass i emits raw[i], then the Break exactly when raw[i] and raw[i+1] are
   * not back to back, then raw[i+1].
   */
  lemma BreakExactlyAtGaps(raw: seq<ScheduleClass>, i: nat)
    requires i + 1 < |raw|
    ensures var p := |Prefix(raw, i)|; var out := Normalized(raw);
      p + 1 < |out| && out[p] == raw[i]
      && (raw[i].end != raw[i + 1].start ==>
            p + 2 < |out| && out[p + 1] == BreakBetween(raw[i], raw[i + 1]) && out[p + 2] == raw[i + 1])
      && (raw[i].end == raw[i + 1].start ==> out[p + 1] == raw[i + 1])
  {
    PairAt(raw, i, 0);
    PairAt(raw, i, 1);
    if raw[i].end != raw[i + 1].start {
      PairAt(raw, i, 2);
    }
  }

  /**
   * Every interior raw class (0 < i < n-1) is emitted twice, at two adjacent
   * positions: last of pass i-1 and first of pass i.
   */
  lemma InteriorClassEmittedTwice(raw: seq<ScheduleClass>, i: nat)
    requires 0 < i && i + 1 < |raw|
    ensures var p := |Prefix(raw, i)|;
      0 < p < |Normalized(raw)| && Normalized(raw)[p - 1] == raw[i] && Normalized(raw)[p] == raw[i]
  {
    var q := PairOutput(raw[i - 1], raw[i]);
    assert Prefix(raw, i) == Prefix(raw, i - 1) + q;
    PairAt(raw, i - 1, |q| - 1);
    PairAt(raw, i, 0);
  }

  /** `mSchoolEnd`: 15:15 for an empty list, else the earlier of the last class's end and 15:15. */
  function EffectiveEnd(classes: seq<ScheduleClass>): (e: TimeOfDay)
    ensures e <= DEFAULT_SCHOOL_END
    ensures classes == [] ==> e == DEFAULT_SCHOOL_END
    ensures classes != [] ==> e <= classes[|classes| - 1].end
    ensures classes != [] ==> e == classes[|classes| - 1].end || e == DEFAULT_SCHOOL_END
  {
    if classes == [] then DEFAULT_SCHOOL_END
    else if classes[|classes| - 1].end < DEFAULT_SCHOOL_END then classes[|classes| - 1].end
    else DEFAULT_SCHOOL_END
  }

  /** The end of the day follows the LAST raw class, and only when there are at least two. */
  lemma EffectiveEndOfNormalized(raw: seq<ScheduleClass>)
    ensures |raw| < 2 ==> EffectiveEnd(Normalized(raw)) == DEFAULT_SCHOOL_END
    ensures |raw| >= 2 ==>
      EffectiveEnd(Normalized(raw)) ==
        (if raw[|raw| - 1].end < DEFAULT_SCHOOL_END then raw[|raw| - 1].end else DEFAULT_SCHOOL_END)
  {
    if |raw| >= 2 {
      NormalizedEnds(raw);
    }
  }

  /** Classes A 8:00-8:50 and B 9:00-9:50 become [A, Break 8:50-9:00, B]; the day ends at 9:50. */
  lemma TwoClassScenario(a: ScheduleClass, b: ScheduleClass)
    requires a.start == At(8, 0) && a.end == At(8, 50)
    requires b.start == At(9, 0) && b.end == At(9, 50)
    ensures Normalized([a, b]) == [a, ScheduleClass(BREAK_NAME, At(8, 50), At(9, 0), GRAY), b]
    ensures EffectiveEnd(Normalized([a, b])) == At(9, 50)
  {
    assert Normalized([a, b]) == Prefix([a, b], 0) + PairOutput(a, b);
  }

  /** Three back-to-back classes: the middle one appears twice, and no Break is added. */
  lemma ThreeClassScenario(a: ScheduleClass, b: ScheduleClass, c: ScheduleClass)
    requires a.end == b.start && b.end == c.start
    ensures Normalized([a, b, c]) == [a, b, b, c]
  {
    var raw := [a, b, c];
    assert Prefix(raw, 1) == PairOutput(a, b) == [a, b];
    assert Prefix(raw, 2) == [a, b] + PairOutput(b, c);
  }

}
