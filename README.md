# MyMICDS watch face engine, in Dafny

This project models the engine of the MyMICDS Wear OS watch face
(`MyMICDSWatchFace.Engine`) and proves properties of the model. The engine
draws the time, a ring for the school day and a ring for the class in
progress. It also labels the current and the next class, and it keeps its
data fresh with two polling timers and a one-second redraw timer.

The model has six modules:

- `Optional`: the `Option` type.
- `Clock`: times of day in whole seconds, the fixed school-day times, and
  the `h:mm` text with its read-back.
- `Schedule`: the `ScheduleClass` record and the schedule normaliser, i.e. the
  loop in the schedule response listener. It is a loop method, proved equal
  to a recursive specification, plus lemmas about that specification.
- `Progress`: `getPercent` with Kotlin's float-division edge cases,
  `roundToInt`, and the two lookups, the current class and the next class.
- `Render`: what one `onDraw` call decides, as a `DrawPlan`, or the exception
  it throws. It also holds `Rect.scale`, the tap region and
  `combineAndTruncate`.
- `WatchFace`: the `Engine` class. Its fields are the engine's fields. Its
  methods are the lifecycle, tap, timer, network-response and data-event
  callbacks, each with a `modifies` frame. Its invariant `Valid()` holds
  between callbacks.

The code has these quirks, and the model keeps them:

- The normaliser appends both classes of every adjacent pair. So each
  interior class appears twice in a row (`InteriorClassEmittedTwice`,
  `ThreeClassScenario`). A list of fewer than two classes gives the empty
  list, not the input.
- `getPercent` has no guard for a zero-length interval. A non-zero
  numerator gives 0 or 1 through the clamp of an infinity. `0/0` gives NaN
  (`None`), and `roundToInt` then throws while the percent label is drawn.
  A 10:00-10:00 class followed by a 10:00-11:00 class makes the frame drawn
  at 10:00:00 exactly throw (`ZeroLengthClassCrashesFrame`).
- At the instant a Break ends and the next class starts, the current class
  is the Break, because the earlier interval wins (`BoundaryScenario`).
- The tick delay is 1000 ms when the clock is exactly on a second
  boundary (`TickDelay`).
- `onDestroy` removes only the tick messages and the data listener. The two
  polling runnables stay posted, and network responses keep updating the
  fields.
- A token that arrives after the schedule runnable has stopped makes one
  schedule request but does not restart hourly polling
  (`LateTokenDoesNotResumePolling`).
- The tap radius is `bounds.scale(0.5).width() / 2`, which is always 0.
  `Scale` moves each edge inward by `(1-s)` of the whole width. So a tap
  opens the lunch view only at the exact centre pixel of the last frame
  drawn, and nothing closes the lunch view again. Before the first frame
  the centre is (0, 0), so a tap at (0, 0) opens it.
- While the first schedule response has not arrived, `mSchoolToday` is
  already true.

## Model

| member | source | states |
|---|---|---|
| Clock.At | wearable/src/main/java/net/mymicds/watchface/MyMICDSWatchFace.kt:387 | `LocalTime.of(hour, minute)` is the time whose hour, minute and second fields are hour, minute and 0 |
| Clock.DefaultSchoolStart | wearable/src/main/java/net/mymicds/watchface/MyMICDSWatchFace.kt:387 | the day starts at 9:00 on Wednesdays and at 8:00 on other days |
| Clock.NatToString | wearable/src/main/java/net/mymicds/watchface/MyMICDSWatchFace.kt:433 | the decimal text of a number is non-empty digits with no leading zero, one digit exactly below 10 |
| Clock.NatToStringRoundTrip | wearable/src/main/java/net/mymicds/watchface/MyMICDSWatchFace.kt:433 | reading the decimal text back gives the number |
| Clock.Hour12 | wearable/src/main/java/net/mymicds/watchface/MyMICDSWatchFace.kt:356-357 | the `h` field lies in 1..12 and agrees with the hour of day modulo 12 |
| Clock.Minute | wearable/src/main/java/net/mymicds/watchface/MyMICDSWatchFace.kt:356-357 | the `mm` field lies in 0..59 and is the minute within the hour of t |
| Clock.FormatTime | wearable/src/main/java/net/mymicds/watchface/MyMICDSWatchFace.kt:356-357 | `h:mm` text is four or five characters: hour digits, a colon, two minute digits |
| Clock.FormatTimeReadsBack | wearable/src/main/java/net/mymicds/watchface/MyMICDSWatchFace.kt:356-357 | `h:mm` text is 1 or 2 hour digits with no leading zero, a colon, then 2 minute digits, and both fields read back as the time's hour and minute |
| Clock.FormatTimeExamples | wearable/src/main/java/net/mymicds/watchface/MyMICDSWatchFace.kt:356-357 | midnight reads 12:00 and 13:05 reads 1:05 |
| Schedule.BreakBetween | wearable/src/main/java/net/mymicds/watchface/MyMICDSWatchFace.kt:580-585 | the synthetic class is named Break, is grey, and spans from the first class's end to the second's start |
| Schedule.PairOutput | wearable/src/main/java/net/mymicds/watchface/MyMICDSWatchFace.kt:576-586 | one pass appends c1, then the Break between them exactly when c1 and c2 are not back to back, then c2; each appended class ends where the next starts |
| Schedule.BuildSchedule | wearable/src/main/java/net/mymicds/watchface/MyMICDSWatchFace.kt:570-590 | the loop over `0 until n-1` builds exactly the normalised list |
| Schedule.PairAt | wearable/src/main/java/net/mymicds/watchface/MyMICDSWatchFace.kt:573-587 | the output is the concatenation of the passes' outputs, in order |
| Schedule.NormalizedLength | wearable/src/main/java/net/mymicds/watchface/MyMICDSWatchFace.kt:573-590 | fewer than two raw classes give no classes; otherwise 2(n-1) classes plus one Break per gap |
| Schedule.NormalizedEnds | wearable/src/main/java/net/mymicds/watchface/MyMICDSWatchFace.kt:573-590 | for two or more classes the output starts with the first raw class and ends with the last |
| Schedule.BreakExactlyAtGaps | wearable/src/main/java/net/mymicds/watchface/MyMICDSWatchFace.kt:576-586 | pass i puts a Break between raw classes i and i+1 if and only if they are not back to back |
| Schedule.InteriorClassEmittedTwice | wearable/src/main/java/net/mymicds/watchface/MyMICDSWatchFace.kt:573-587 | every interior raw class is emitted at two adjacent positions |
| Schedule.EffectiveEnd | wearable/src/main/java/net/mymicds/watchface/MyMICDSWatchFace.kt:593-597 | the end of the day is 15:15 for no classes, else the earlier of the last class's end and 15:15 |
| Schedule.EffectiveEndOfNormalized | wearable/src/main/java/net/mymicds/watchface/MyMICDSWatchFace.kt:590-597 | after a response, the day's end follows the last raw class, and only when there are at least two |
| Schedule.TwoClassScenario | wearable/src/main/java/net/mymicds/watchface/MyMICDSWatchFace.kt:573-597 | A 8:00-8:50 and B 9:00-9:50 normalise to [A, Break 8:50-9:00, B], and the day ends at 9:50 |
| Schedule.ThreeClassScenario | wearable/src/main/java/net/mymicds/watchface/MyMICDSWatchFace.kt:573-587 | three back-to-back classes normalise to [a, b, b, c] |
| Progress.Clamp | wearable/src/main/java/net/mymicds/watchface/MyMICDSWatchFace.kt:464 | `MathUtils.clamp` stays within the bounds and is the identity inside them |
| Progress.GetPercent | wearable/src/main/java/net/mymicds/watchface/MyMICDSWatchFace.kt:460-465 | the percent is NaN exactly for `0/0`, else lies in [0, 1]; it is 0 before the interval starts and 1 once it has ended, also for a zero-length interval |
| Progress.PercentInside | wearable/src/main/java/net/mymicds/watchface/MyMICDSWatchFace.kt:460-465 | strictly inside an interval, percent times length equals elapsed time |
| Progress.PercentMonotone | wearable/src/main/java/net/mymicds/watchface/MyMICDSWatchFace.kt:460-465 | over a proper interval the percent never decreases as time goes on |
| Progress.RoundToInt | wearable/src/main/java/net/mymicds/watchface/MyMICDSWatchFace.kt:433 | `roundToInt` returns the nearest integer, rounding halves up |
| Progress.PercentNumber | wearable/src/main/java/net/mymicds/watchface/MyMICDSWatchFace.kt:433 | the shown percentage is within 0..100, within half a unit of 100p, and exact at 0 and 1 |
| Progress.Covers | wearable/src/main/java/net/mymicds/watchface/MyMICDSWatchFace.kt:402 | a class covers an instant only if its start is not after its end |
| Progress.CurrentClass | wearable/src/main/java/net/mymicds/watchface/MyMICDSWatchFace.kt:402 | `find` returns the first class whose closed range holds now, and None exactly when no class does |
| Progress.SharedBoundaryEarlierWins | wearable/src/main/java/net/mymicds/watchface/MyMICDSWatchFace.kt:402 | at a shared boundary instant the earlier of two neighbouring classes is current |
| Progress.NextClass | wearable/src/main/java/net/mymicds/watchface/MyMICDSWatchFace.kt:416 | the first class that starts later and is not a Break; never a Break; None exactly when no class qualifies |
| Progress.Upcoming | wearable/src/main/java/net/mymicds/watchface/MyMICDSWatchFace.kt:416 | a class that is still to start is not the class in progress |
| Progress.BoundaryScenario | wearable/src/main/java/net/mymicds/watchface/MyMICDSWatchFace.kt:402-416 | with [A, Break, B], A is current at 8:50, the Break is current at 9:00, and B is announced next |
| Render.Scale | wearable/src/main/java/net/mymicds/watchface/MyMICDSWatchFace.kt:445-455 | `Rect.scale(s)` keeps the centre, and both sides become (2s-1) times their original length |
| Render.TapIndicatorRadius | wearable/src/main/java/net/mymicds/watchface/MyMICDSWatchFace.kt:373-375 | the tap indicator's radius is always 0 |
| Render.WithinTapRegion | wearable/src/main/java/net/mymicds/watchface/MyMICDSWatchFace.kt:332-335 | the tap region always contains its own centre |
| Render.ZeroRadiusRegionIsCentre | wearable/src/main/java/net/mymicds/watchface/MyMICDSWatchFace.kt:332-335 | with radius 0, a tap is inside the tap region if and only if it is at the exact centre of the bounds |
| Render.CombineAndTruncate | wearable/src/main/java/net/mymicds/watchface/MyMICDSWatchFace.kt:341-352 | the label keeps ": text2"; the head is text1 when the label is narrower than 70% of the bounds, else text1's first nine characters and an ellipsis; it throws exactly when truncating a text1 shorter than nine characters |
| Render.TruncationShortensOnlyLongNames | wearable/src/main/java/net/mymicds/watchface/MyMICDSWatchFace.kt:341-352 | truncation shortens the label if and only if it applies and the name has more than ten characters |
| Render.PercentText | wearable/src/main/java/net/mymicds/watchface/MyMICDSWatchFace.kt:433 | the percent label's value is the decimal number followed by % |
| Render.SchoolStart | wearable/src/main/java/net/mymicds/watchface/MyMICDSWatchFace.kt:387-388 | the school ring starts at the first class's start, else at 9:00 on Wednesdays and 8:00 otherwise |
| Render.Plan | wearable/src/main/java/net/mymicds/watchface/MyMICDSWatchFace.kt:337-439 | a frame throws only while labels are drawn, never in ambient mode or with the lunch view open |
| Render.PlanGating | wearable/src/main/java/net/mymicds/watchface/MyMICDSWatchFace.kt:363-439 | each element of a drawn frame appears under exactly the condition onDraw tests: the black background, tap indicator, time, both rings and their colours, and both labels |
| Render.ClassRingSweep | wearable/src/main/java/net/mymicds/watchface/MyMICDSWatchFace.kt:402-410 | the class ring sweeps 360 times the current class's percent, from -90 degrees, on the oval scaled by 0.935 |
| Render.NextClassLabelText | wearable/src/main/java/net/mymicds/watchface/MyMICDSWatchFace.kt:415-424 | the next-class label is `combineAndTruncate` of the class's name and the `h:mm` of its start, and ends with ": " and that time |
| Render.PercentLabelText | wearable/src/main/java/net/mymicds/watchface/MyMICDSWatchFace.kt:398-435 | on a school day the percent label is `combineAndTruncate` of the current class's name, or "School", and the rounded percent, and ends with "%" |
| Render.SchoolRingSweep | wearable/src/main/java/net/mymicds/watchface/MyMICDSWatchFace.kt:387-392 | the school ring sweeps 360 times the day's percent, from the first class's start or the default start; it starts at -90 degrees and is 0.95 of the bounds wide |
| Render.AmbientFrameNeverCrashes | wearable/src/main/java/net/mymicds/watchface/MyMICDSWatchFace.kt:363-439 | an ambient frame always draws, on black, with no labels and a grey class ring |
| Render.CrashConditions | wearable/src/main/java/net/mymicds/watchface/MyMICDSWatchFace.kt:341-352 | a frame throws in `substring` exactly when the next-class label is due and must truncate a name shorter than nine characters, or the school-day percent label must; otherwise it throws in `roundToInt` exactly when the school-day percent shown is NaN |
| Render.ZeroLengthClassCrashesFrame | wearable/src/main/java/net/mymicds/watchface/MyMICDSWatchFace.kt:460-465 | a 10:00-10:00 class followed by a 10:00-11:00 class makes the interactive frame at 10:00:00 exactly throw |
| WatchFace.TickDelay | wearable/src/main/java/net/mymicds/watchface/MyMICDSWatchFace.kt:545-551 | the delay lies in 1..1000, ends exactly on a second boundary, and is the smallest positive delay that does |
| WatchFace.TickDelayExample | wearable/src/main/java/net/mymicds/watchface/MyMICDSWatchFace.kt:548-549 | 350 ms past a second, the next tick is 650 ms away |
| WatchFace.LeadingChanged | wearable/src/main/java/net/mymicds/watchface/MyMICDSWatchFace.kt:641-647 | counts the events before the first one that is not of type changed |
| WatchFace.CountTask | wearable/src/main/java/net/mymicds/watchface/MyMICDSWatchFace.kt:218-234 | the count of pending runnables of one kind is at most the queue's length, and 0 exactly when none of that kind is pending |
| WatchFace.CopyDishes | wearable/src/main/java/net/mymicds/watchface/MyMICDSWatchFace.kt:625-631 | the dish list is today's main dishes, in order |
| WatchFace.Engine.constructor | wearable/src/main/java/net/mymicds/watchface/MyMICDSWatchFace.kt:143-234 | initial fields; onCreate registers the data listener and posts both polling runnables with no delay |
| WatchFace.Engine.OnPropertiesChanged | wearable/src/main/java/net/mymicds/watchface/MyMICDSWatchFace.kt:279-287 | the low-bit and burn-in flags are taken from the properties |
| WatchFace.Engine.OnTimeTick | wearable/src/main/java/net/mymicds/watchface/MyMICDSWatchFace.kt:289-292 | one redraw |
| WatchFace.Engine.ShouldTimerBeRunning | wearable/src/main/java/net/mymicds/watchface/MyMICDSWatchFace.kt:538-540 | while the invariant holds, a pending tick means the face is visible and interactive |
| WatchFace.Engine.UpdateTimer | wearable/src/main/java/net/mymicds/watchface/MyMICDSWatchFace.kt:527-540 | pending ticks are dropped and one immediate tick is sent exactly when the face is visible and interactive |
| WatchFace.Engine.OnAmbientModeChanged | wearable/src/main/java/net/mymicds/watchface/MyMICDSWatchFace.kt:294-312 | the ring is light grey exactly in ambient mode; anti-aliasing follows the mode only on low-bit displays; the tick timer restarts or stops |
| WatchFace.Engine.OnTapCommand | wearable/src/main/java/net/mymicds/watchface/MyMICDSWatchFace.kt:314-335 | a tap hides the indicator and opens lunch inside the region; a touch shows it inside; a cancel hides it; lunch never closes, and opens only at the exact centre |
| WatchFace.Engine.RegisterReceiver | wearable/src/main/java/net/mymicds/watchface/MyMICDSWatchFace.kt:483-490 | only an unregistered receiver is registered with the platform |
| WatchFace.Engine.UnregisterReceiver | wearable/src/main/java/net/mymicds/watchface/MyMICDSWatchFace.kt:492-498 | only a registered receiver is unregistered |
| WatchFace.Engine.OnVisibilityChanged | wearable/src/main/java/net/mymicds/watchface/MyMICDSWatchFace.kt:467-481 | registration follows visibility with no duplicate platform call; a redraw when shown; the tick timer follows visibility and mode |
| WatchFace.Engine.OnDestroy | wearable/src/main/java/net/mymicds/watchface/MyMICDSWatchFace.kt:273-277 | the data listener is removed and pending ticks are dropped; the polling runnables stay |
| WatchFace.Engine.HandleUpdateTimeMessage | wearable/src/main/java/net/mymicds/watchface/MyMICDSWatchFace.kt:545-551 | a redraw, and a next tick on the next second boundary exactly when the timer should run |
| WatchFace.Engine.DeliverTick | wearable/src/main/java/net/mymicds/watchface/MyMICDSWatchFace.kt:121-132 | the pending tick is consumed, and handled only while the weak reference reaches the engine |
| WatchFace.Engine.RunTimedTask | wearable/src/main/java/net/mymicds/watchface/MyMICDSWatchFace.kt:218-234 | schedule polling requests and re-arms for an hour only with a token, otherwise it ends for good; lunch always requests and re-arms for six hours |
| WatchFace.Engine.MakeScheduleRequest | wearable/src/main/java/net/mymicds/watchface/MyMICDSWatchFace.kt:554-607 | one schedule request joins the request queue |
| WatchFace.Engine.MakeLunchRequest | wearable/src/main/java/net/mymicds/watchface/MyMICDSWatchFace.kt:609-639 | one lunch request joins the request queue |
| WatchFace.Engine.OnScheduleResponse | wearable/src/main/java/net/mymicds/watchface/MyMICDSWatchFace.kt:561-597 | the session flag follows the day entry; the classes are the normalised list; the end of day follows them |
| WatchFace.Engine.OnLunchResponse | wearable/src/main/java/net/mymicds/watchface/MyMICDSWatchFace.kt:614-631 | the dishes replace the lunch list |
| WatchFace.Engine.DataItemCallback | wearable/src/main/java/net/mymicds/watchface/MyMICDSWatchFace.kt:650-655 | the token is stored and one schedule request is made; polling is not re-armed |
| WatchFace.Engine.OnDataChanged | wearable/src/main/java/net/mymicds/watchface/MyMICDSWatchFace.kt:641-648 | delivered only while the engine listens; one schedule request per leading changed event; the token is the last of those events' tokens; the first other event ends the call |
| WatchFace.Engine.OnDraw | wearable/src/main/java/net/mymicds/watchface/MyMICDSWatchFace.kt:337-439 | the centre is the bounds' exact centre; the frame is the plan of the fields onDraw reads |
| WatchFace.LateTokenDoesNotResumePolling | wearable/src/main/java/net/mymicds/watchface/MyMICDSWatchFace.kt:218-226 | once the schedule runnable is gone, a later token gives one request, and hourly polling does not resume |

## Left out

- Network and JSON: the Volley request queue, the URLs, the Authorization
  header and JSON parsing are left out. A response reaches the model as the
  already-parsed day-present flag and class list, or the list of dishes. A
  malformed payload, or an error listener that only logs, is out of the model.
- `ScheduleClass.fromJSON`: ISO time parsing, zone conversion and
  `Color.parseColor` are left out. Its classes enter as values.
- Token retrieval over the capability and data clients: its success
  listener is `DataItemCallback`, which callers invoke with the token or None.
- Render.CombineAndTruncate: names are sequences of Unicode scalar values,
  while Kotlin's `length` and `substring(0..8)` count UTF-16 code units. A
  name with characters outside the Basic Multilingual Plane (emoji, for
  example) may therefore be truncated where the model throws: "🎨 Drawin" is
  eight scalar values but nine code units. The code can also split a
  surrogate pair, which a Dafny string cannot hold.
- Pixels: text positions, text measurement and painting. The measured width
  of a label is a caller-supplied `measure` function.
- Floating point: the model computes percents and geometry in exact reals.
  Float rounding, and `0.7` as a double in the truncation test, are left out.
  NaN from `0/0` is modelled as `None`.
- Time: `LocalTime.now()`, `LocalDate.now()` and `System.currentTimeMillis()`
  are parameters (`now`, `wednesday`, `timeMs`). Times of day have whole-second
  precision; sub-second `LocalTime` precision is left out.
- Progress.CurrentClass, Progress.NextClass, Render.ZeroLengthClassCrashesFrame
  and Progress.BoundaryScenario describe the instant exactly on a whole
  second. The code compares full-precision times in the lookups
  (`mNow in it.start..it.end`, `mNow < it.start`) but truncates to seconds in
  `getPercent`. So at 10:00:00.4 the 10:00-10:00 class is not current, the
  10:00-11:00 class is, and nothing throws. A boundary shared by two classes
  lasts one instant, not one second.
- Handler dispatch order: which pending message or runnable the looper runs
  next, and after what delay, is the caller's choice (`DeliverTick`,
  `RunTimedTask(k)`). Queues keep the delays as values.
- The `WeakReference` in `EngineHandler` is modelled as the flag
  `engineReachable` of `DeliverTick`.
- `onApplyWindowInsets`, the x/y text offsets, text sizes and typefaces do
  not change any modelled decision.
- The time-zone broadcast receiver's body (`invalidate`) is left out.
- Calls to the watch-face base class (`super`) are left out. Only the values
  they set, `isVisible` and `isInAmbientMode`, are modelled.
- The companion phone app (`MainActivity`) is not part of this model.
