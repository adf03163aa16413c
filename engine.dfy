/**
 * The watch-face engine (`MyMICDSWatchFace.Engine`): the state its lifecycle,
 * tap and network callbacks update in place, the two handler queues its
 * timers live on, and the order in which it issues requests.
 *
 * The platform delivers every callback on one thread, so each method below
 * runs to completion before the next begins. Pending handler messages are
 * kept as sequences; which pending entry the looper delivers next is left
 * to the caller of the delivery methods.
 */
module WatchFace {

  import opened Optional
  import opened Clock
  import opened Schedule
  import opened Progress
  import opened Render

  const INTERACTIVE_UPDATE_RATE_MS: nat := 1000
  /** One hour, in milliseconds. */
  const SCHEDULE_API_INTERVAL: nat := 3_600_000
  /** Six hours, in milliseconds. */
  const LUNCH_API_INTERVAL: nat := 21_600_000

  /** `WatchFaceService.TAP_TYPE_*`. */
  const TAP_TYPE_TOUCH: int := 0
  const TAP_TYPE_TOUCH_CANCEL: int := 1
  const TAP_TYPE_TAP: int := 2

  const LUNCH_NOT_AVAILABLE: string := "Lunch Not Available"

  // ---------------------------------------------------------------- tick cadence

  predicate OnSecondBoundary(timeMs: int)
  {
    timeMs % INTERACTIVE_UPDATE_RATE_MS == 0
  }

  /**
   * The delay `handleUpdateTimeMessage` waits before the next tick,
   * `INTERACTIVE_UPDATE_RATE_MS - timeMs % INTERACTIVE_UPDATE_RATE_MS`: the
   * time to the next whole second strictly after timeMs. It is 1000, not 0,
   * when timeMs is itself on a boundary.
   */
  function TickDelay(timeMs: nat): (delay: nat)
    ensures 1 <= delay <= INTERACTIVE_UPDATE_RATE_MS
    ensures OnSecondBoundary(timeMs + delay)
    ensures forall t :: timeMs < t < timeMs + delay ==> !OnSecondBoundary(t)
  {
    var delay := INTERACTIVE_UPDATE_RATE_MS - timeMs % INTERACTIVE_UPDATE_RATE_MS;
    assert forall t :: timeMs < t < timeMs + delay ==> !OnSecondBoundary(t) by {
      forall t | timeMs < t < timeMs + delay ensures !OnSecondBoundary(t) {
        var q := timeMs / 1000;
        assert timeMs == 1000 * q + timeMs % 1000;
        assert 1000 * q < t < 1000 * q + 1000;
        assert t / 1000 == q;
      }
    }
    delay
  }

  /** At 350 ms past a second the next tick is 650 ms away. */
  lemma TickDelayExample()
    ensures TickDelay(1_700_000_000_350) == 650
  {
  }

  // ---------------------------------------------------------------- handler queues

  /** The two self-reposting runnables on `mTimedRequestHandler`. */
  datatype Task = ScheduleRunnable | LunchRunnable

  /** A runnable waiting on the handler, with the delay it was posted with. */
  datatype Posted = Posted(task: Task, delayMs: nat)

  /** A request handed to the request queue. */
  datatype Request = ScheduleRequest | LunchRequest

  /** A call into the platform's `registerReceiver` / `unregisterReceiver`. */
  datatype ReceiverCall = RegisterCall | UnregisterCall

  /**
   * One entry of a `DataEventBuffer`: whether its type is `TYPE_CHANGED`, and
   * the JWT string its item's data map holds (None when the key is absent).
   */
  datatype DataEvent = DataEvent(changed: bool, jwt: Option<string>)

  /** How many entries of q are the given runnable. */
  function CountTask(q: seq<Posted>, t: Task): (n: nat)
    ensures n <= |q|
    ensures n == 0 <==> forall i :: 0 <= i < |q| ==> q[i].task != t
  {
    if q == [] then 0 else CountTask(q[..|q| - 1], t) + (if q[|q| - 1].task == t then 1 else 0)
  }

  lemma {:induction false} CountTaskAppend(a: seq<Posted>, b: seq<Posted>, t: Task)
    ensures CountTask(a + b, t) == CountTask(a, t) + CountTask(b, t)
    decreases |b|
  {
    if b == [] {
      assert a + b == a;
    } else {
      assert (a + b)[..|a + b| - 1] == a + b[..|b| - 1];
      CountTaskAppend(a, b[..|b| - 1], t);
    }
  }

  lemma CountTaskPush(q: seq<Posted>, p: Posted, t: Task)
    ensures CountTask(q + [p], t) == CountTask(q, t) + (if p.task == t then 1 else 0)
  {
    assert (q + [p])[..|q + [p]| - 1] == q;
  }

  /** Taking entry k out of the queue removes one of its kind and leaves the rest. */
  lemma CountTaskRemove(q: seq<Posted>, k: nat, t: Task)
    requires k < |q|
    ensures CountTask(q[..k] + q[k + 1..], t) == CountTask(q, t) - (if q[k].task == t then 1 else 0)
  {
    assert q == q[..k] + [q[k]] + q[k + 1..];
    CountTaskAppend(q[..k] + [q[k]], q[k + 1..], t);
    CountTaskAppend(q[..k], [q[k]], t);
    CountTaskAppend(q[..k], q[k + 1..], t);
    assert CountTask([q[k]], t) == (if q[k].task == t then 1 else 0) by {
      assert [q[k]][..0] == [];
    }
  }

  /** The platform calls alternate, starting with a registration. */
  predicate Alternating(calls: seq<ReceiverCall>)
  {
    forall i :: 0 <= i < |calls| ==> calls[i] == (if i % 2 == 0 then RegisterCall else UnregisterCall)
  }

  /** The number of leading events of type `TYPE_CHANGED`; `onDataChanged` stops at the first other one. */
  function LeadingChanged(events: seq<DataEvent>): (k: nat)
    ensures k <= |events|
    ensures forall i :: 0 <= i < k ==> events[i].changed
    ensures k < |events| ==> !events[k].changed
  {
    if events == [] || !events[0].changed then 0
    else
      var k := LeadingChanged(events[1..]);
      assert forall i :: 1 <= i < k + 1 ==> events[i] == events[1..][i - 1];
      1 + k
  }

  function Repeat<T>(x: T, n: nat): (s: seq<T>)
    ensures |s| == n && forall i :: 0 <= i < n ==> s[i] == x
  {
    seq(n, _ => x)
  }

  /** The dish loop of the lunch listener: `for (i in 0 until todaysLunch.length()) dishes.add(...)`. */
  method CopyDishes(todaysLunch: seq<string>) returns (dishes: seq<string>)
    ensures dishes == todaysLunch
  {
    dishes := [];
    var i := 0;
    while i < |todaysLunch|
      invariant 0 <= i <= |todaysLunch|
      invariant dishes == todaysLunch[..i]
    {
      dishes := dishes + [todaysLunch[i]];
      i := i + 1;
    }
  }

  // ---------------------------------------------------------------- the engine

  class Engine {

    var requestJwt: Option<string>
    var schoolToday: bool
    var scheduleClasses: seq<ScheduleClass>
    var schoolEnd: TimeOfDay
    var showLunch: bool
    var lunchDishes: seq<string>
    var registeredTimeZoneReceiver: bool
    /** The platform's receiver registrations and unregistrations, in order. */
    var receiverCalls: seq<ReceiverCall>
    var centerX: real
    var centerY: real
    /** The bounds of the last frame drawn, whose centre `centerX`, `centerY` hold. */
    ghost var lastBounds: Rect
    var showTapIndicator: bool
    var tapIndicatorRadius: real
    var lowBitAmbient: bool
    var burnInProtection: bool
    /** `mAmbient`, which always equals the base engine's `isInAmbientMode`. */
    var ambient: bool
    /** The base engine's `isVisible`. */
    var visible: bool
    /** `mRingPaint.color`. */
    var ringColour: Colour
    var timeAntiAlias: bool
    var ringAntiAlias: bool
    /** Whether the engine is registered as the data client's listener. */
    var listening: bool
    /** Pending `MSG_UPDATE_TIME` messages on `mUpdateTimeHandler`, by delay. */
    var ticks: seq<nat>
    /** Runnables pending on `mTimedRequestHandler`. */
    var timedTasks: seq<Posted>
    /** Requests added to the request queue, in order. */
    var requests: seq<Request>
    /** `invalidate()` calls. */
    var redraws: nat

    /**
     * What every callback preserves: the tap radius is 0; at most one tick is
     * pending, and only while the face is visible and interactive; the ring
     * paint is light grey exactly in ambient mode; the end of the day agrees
     * with the class list; exactly one lunch runnable and at most one schedule
     * runnable are pending; the receiver is registered exactly when the
     * platform calls, which alternate, end with a registration.
     */
    ghost predicate Valid()
      reads this
    {
      && tapIndicatorRadius == 0.0
      && centerX == lastBounds.ExactCenterX() && centerY == lastBounds.ExactCenterY()
      && |ticks| <= 1 && (ticks != [] ==> visible && !ambient)
      && ringColour == (if ambient then Argb(LTGRAY) else SchoolRingResource)
      && schoolEnd == EffectiveEnd(scheduleClasses)
      && CountTask(timedTasks, LunchRunnable) == 1
      && CountTask(timedTasks, ScheduleRunnable) <= 1
      && ReceiverConsistent()
    }

    /** The receiver is registered exactly when the alternating platform calls end with a registration. */
    ghost predicate ReceiverConsistent()
      reads this
    {
      Alternating(receiverCalls) && registeredTimeZoneReceiver == (|receiverCalls| % 2 == 1)
    }

    /** The field initialisers and `onCreate`: both request runnables are posted at once. */
    constructor ()
      ensures Valid()
      ensures requestJwt == None && schoolToday && scheduleClasses == [] && schoolEnd == DEFAULT_SCHOOL_END
      ensures !showLunch && lunchDishes == [LUNCH_NOT_AVAILABLE]
      ensures !registeredTimeZoneReceiver && receiverCalls == []
      ensures centerX == 0.0 && centerY == 0.0 && !showTapIndicator && tapIndicatorRadius == 0.0
      ensures !lowBitAmbient && !burnInProtection && !ambient && !visible
      ensures ringColour == SchoolRingResource && timeAntiAlias && ringAntiAlias
      ensures listening && ticks == [] && requests == [] && redraws == 0
      ensures timedTasks == [Posted(ScheduleRunnable, 0), Posted(LunchRunnable, 0)]
    {
      requestJwt := None;
      schoolToday := true;
      scheduleClasses := [];
      schoolEnd := DEFAULT_SCHOOL_END;
      showLunch := false;
      lunchDishes := [LUNCH_NOT_AVAILABLE];
      registeredTimeZoneReceiver := false;
      receiverCalls := [];
      centerX, centerY := 0.0, 0.0;
      lastBounds := Rect(0, 0, 0, 0);
      showTapIndicator := false;
      tapIndicatorRadius := 0.0;
      lowBitAmbient, burnInProtection, ambient, visible := false, false, false, false;
      ringColour := SchoolRingResource;
      timeAntiAlias, ringAntiAlias := true, true;
      listening := true;
      ticks := [];
      timedTasks := [Posted(ScheduleRunnable, 0), Posted(LunchRunnable, 0)];
      requests := [];
      redraws := 0;
      new;
      assert timedTasks[..1] == [Posted(ScheduleRunnable, 0)];
      assert timedTasks[..1][..0] == [];
    }

    /** The snapshot of the fields `onDraw` reads. */
    function Face(): FaceState
      reads this
    {
      FaceState(ambient, showTapIndicator, showLunch, schoolToday, scheduleClasses, schoolEnd, ringColour)
    }

    /** Whether ticks should flow; a pending tick means they should. */
    function ShouldTimerBeRunning(): (running: bool)
      reads this
      ensures Valid() && ticks != [] ==> running
    {
      visible && !ambient
    }

    function WithinTap(x: int, y: int): bool
      reads this
    {
      WithinTapRegion(x, y, centerX, centerY, tapIndicatorRadius)
    }

    method Invalidate()
      modifies this`redraws
      ensures redraws == old(redraws) + 1
    {
      redraws := redraws + 1;
    }

    method OnPropertiesChanged(lowBit: bool, burnIn: bool)
      requires Valid()
      modifies this`lowBitAmbient, this`burnInProtection
      ensures Valid()
      ensures lowBitAmbient == lowBit && burnInProtection == burnIn
    {
      lowBitAmbient := lowBit;
      burnInProtection := burnIn;
    }

    method OnTimeTick()
      requires Valid()
      modifies this`redraws
      ensures Valid()
      ensures redraws == old(redraws) + 1
    {
      Invalidate();
    }

    /** `updateTimer`: drop every pending tick, then send one for now if the timer should run. */
    method UpdateTimer()
      modifies this`ticks
      ensures ticks == if ShouldTimerBeRunning() then [0] else []
    {
      ticks := [];
      if ShouldTimerBeRunning() {
        ticks := ticks + [0];
      }
    }

    /**
     * `onAmbientModeChanged`: the ring turns light grey in ambient mode; text
     * and ring anti-aliasing follow the mode only on low-bit displays; the
     * tick timer restarts or stops.
     */
    method OnAmbientModeChanged(inAmbientMode: bool)
      requires Valid()
      modifies this`ambient, this`ringColour, this`timeAntiAlias, this`ringAntiAlias, this`ticks
      ensures Valid()
      ensures ambient == inAmbientMode
      ensures ringColour == if inAmbientMode then Argb(LTGRAY) else SchoolRingResource
      ensures lowBitAmbient ==> timeAntiAlias == !inAmbientMode && ringAntiAlias == !inAmbientMode
      ensures !lowBitAmbient ==> timeAntiAlias == old(timeAntiAlias) && ringAntiAlias == old(ringAntiAlias)
      ensures ticks == if visible && !inAmbientMode then [0] else []
    {
      ambient := inAmbientMode;
      if inAmbientMode {
        ringColour := Argb(LTGRAY);
      } else {
        ringColour := SchoolRingResource;
      }
      if lowBitAmbient {
        timeAntiAlias := !inAmbientMode;
        ringAntiAlias := !inAmbientMode;
      }
      UpdateTimer();
    }

    /**
     * `onTapCommand`: a tap hides the indicator and opens the lunch view when
     * inside the region; a touch shows the indicator when inside; a cancelled
     * touch hides it. Nothing closes the lunch view again, and since the
     * radius is 0 a tap opens it only at the exact centre of the last frame.
     */
    method OnTapCommand(tapType: int, x: int, y: int)
      requires Valid()
      modifies this`showTapIndicator, this`showLunch
      ensures Valid()
      ensures tapType == TAP_TYPE_TAP ==>
        !showTapIndicator && showLunch == (old(showLunch) || WithinTap(x, y))
      ensures tapType == TAP_TYPE_TOUCH ==>
        showTapIndicator == (old(showTapIndicator) || WithinTap(x, y)) && showLunch == old(showLunch)
      ensures tapType == TAP_TYPE_TOUCH_CANCEL ==> !showTapIndicator && showLunch == old(showLunch)
      ensures tapType !in {TAP_TYPE_TAP, TAP_TYPE_TOUCH, TAP_TYPE_TOUCH_CANCEL} ==>
        showTapIndicator == old(showTapIndicator) && showLunch == old(showLunch)
      ensures old(showLunch) ==> showLunch
      ensures showLunch && !old(showLunch) ==>
        2 * x == lastBounds.left + lastBounds.right && 2 * y == lastBounds.top + lastBounds.bottom
    {
      ZeroRadiusRegionIsCentre(x, y, lastBounds);
      if tapType == TAP_TYPE_TAP {
        showTapIndicator := false;
        if WithinTap(x, y) {
          showLunch := true;
        }
      } else if tapType == TAP_TYPE_TOUCH {
        if WithinTap(x, y) {
          showTapIndicator := true;
        }
      } else if tapType == TAP_TYPE_TOUCH_CANCEL {
        showTapIndicator := false;
      }
    }

    /** `registerReceiver`: only the first of several calls reaches the platform. */
    method RegisterReceiver()
      requires ReceiverConsistent()
      modifies this`registeredTimeZoneReceiver, this`receiverCalls
      ensures ReceiverConsistent()
      ensures registeredTimeZoneReceiver
      ensures receiverCalls == if old(registeredTimeZoneReceiver) then old(receiverCalls) else old(receiverCalls) + [RegisterCall]
    {
      if registeredTimeZoneReceiver {
        return;
      }
      registeredTimeZoneReceiver := true;
      receiverCalls := receiverCalls + [RegisterCall];
    }

    /** `unregisterReceiver`: only a registered receiver is unregistered. */
    method UnregisterReceiver()
      requires ReceiverConsistent()
      modifies this`registeredTimeZoneReceiver, this`receiverCalls
      ensures ReceiverConsistent()
      ensures !registeredTimeZoneReceiver
      ensures receiverCalls == if old(registeredTimeZoneReceiver) then old(receiverCalls) + [UnregisterCall] else old(receiverCalls)
    {
      if !registeredTimeZoneReceiver {
        return;
      }
      registeredTimeZoneReceiver := false;
      receiverCalls := receiverCalls + [UnregisterCall];
    }

    /** `onVisibilityChanged`: (un)register the time-zone receiver, redraw when shown, update the timer. */
    method OnVisibilityChanged(isVisible: bool)
      requires Valid()
      modifies this`visible, this`registeredTimeZoneReceiver, this`receiverCalls, this`redraws, this`ticks
      ensures Valid()
      ensures visible == isVisible && registeredTimeZoneReceiver == isVisible
      ensures receiverCalls ==
        if isVisible == old(registeredTimeZoneReceiver) then old(receiverCalls)
        else old(receiverCalls) + [if isVisible then RegisterCall else UnregisterCall]
      ensures redraws == old(redraws) + (if isVisible then 1 else 0)
      ensures ticks == if isVisible && !ambient then [0] else []
    {
      visible := isVisible;
      if isVisible {
        RegisterReceiver();
        Invalidate();
      } else {
        UnregisterReceiver();
      }
      UpdateTimer();
    }

    /** `onDestroy`: stop listening and drop pending ticks; the request runnables stay posted. */
    method OnDestroy()
      requires Valid()
      modifies this`listening, this`ticks
      ensures Valid()
      ensures !listening && ticks == []
    {
      listening := false;
      ticks := [];
    }

    /**
     * `handleUpdateTimeMessage`, run when the handler has taken the pending
     * tick: redraw, and if the timer should still run, send the next tick for
     * the next whole second.
     */
    method HandleUpdateTimeMessage(timeMs: nat)
      requires Valid() && ticks == []
      modifies this`redraws, this`ticks
      ensures Valid()
      ensures redraws == old(redraws) + 1
      ensures ticks == if ShouldTimerBeRunning() then [TickDelay(timeMs)] else []
    {
      Invalidate();
      if ShouldTimerBeRunning() {
        var delayMs := INTERACTIVE_UPDATE_RATE_MS - timeMs % INTERACTIVE_UPDATE_RATE_MS;
        ticks := ticks + [delayMs];
      }
    }

    /**
     * `EngineHandler.handleMessage`: the pending tick is taken from the queue
     * and handled if the handler's weak reference still reaches the engine.
     */
    method DeliverTick(engineReachable: bool, timeMs: nat)
      requires Valid() && ticks != []
      modifies this`redraws, this`ticks
      ensures Valid()
      ensures redraws == old(redraws) + (if engineReachable then 1 else 0)
      ensures ticks == if engineReachable && ShouldTimerBeRunning() then [TickDelay(timeMs)] else []
    {
      ticks := ticks[1..];
      if engineReachable {
        HandleUpdateTimeMessage(timeMs);
      }
    }

    method MakeScheduleRequest()
      modifies this`requests
      ensures requests == old(requests) + [ScheduleRequest]
    {
      requests := requests + [ScheduleRequest];
    }

    method MakeLunchRequest()
      modifies this`requests
      ensures requests == old(requests) + [LunchRequest]
    {
      requests := requests + [LunchRequest];
    }

    /**
     * The handler runs pending runnable k. The schedule runnable requests and
     * re-arms for an hour only if a JWT is held when it runs; otherwise it
     * does nothing and is gone. The lunch runnable always requests and
     * re-arms for six hours.
     */
    method RunTimedTask(k: nat)
      requires Valid() && k < |timedTasks|
      modifies this`timedTasks, this`requests
      ensures Valid()
      ensures var rest := old(timedTasks[..k] + timedTasks[k + 1..]);
        match old(timedTasks[k].task)
        case ScheduleRunnable =>
          if old(requestJwt).Some? then
            requests == old(requests) + [ScheduleRequest]
            && timedTasks == rest + [Posted(ScheduleRunnable, SCHEDULE_API_INTERVAL)]
          else
            requests == old(requests) && timedTasks == rest
        case LunchRunnable =>
          requests == old(requests) + [LunchRequest]
          && timedTasks == rest + [Posted(LunchRunnable, LUNCH_API_INTERVAL)]
      ensures old(CountTask(timedTasks, ScheduleRunnable)) == 0 ==> CountTask(timedTasks, ScheduleRunnable) == 0
    {
      var task := timedTasks[k].task;
      var rest := timedTasks[..k] + timedTasks[k + 1..];
      CountTaskRemove(timedTasks, k, ScheduleRunnable);
      CountTaskRemove(timedTasks, k, LunchRunnable);
      timedTasks := rest;
      match task
      case ScheduleRunnable =>
        if requestJwt.Some? {
          MakeScheduleRequest();
          Repost(Posted(ScheduleRunnable, SCHEDULE_API_INTERVAL));
        }
      case LunchRunnable =>
        MakeLunchRequest();
        Repost(Posted(LunchRunnable, LUNCH_API_INTERVAL));
    }

    /** `postDelayed`: the runnable joins the pending ones. */
    method Repost(p: Posted)
      modifies this`timedTasks
      ensures timedTasks == old(timedTasks) + [p]
      ensures CountTask(timedTasks, LunchRunnable) == old(CountTask(timedTasks, LunchRunnable)) + (if p.task == LunchRunnable then 1 else 0)
      ensures CountTask(timedTasks, ScheduleRunnable) == old(CountTask(timedTasks, ScheduleRunnable)) + (if p.task == ScheduleRunnable then 1 else 0)
    {
      CountTaskPush(timedTasks, p, LunchRunnable);
      CountTaskPush(timedTasks, p, ScheduleRunnable);
      timedTasks := timedTasks + [p];
    }

    /**
     * The schedule response listener: the session flag follows `day`, the
     * class list is rebuilt from the raw classes and the end of the day
     * follows the new list.
     */
    method OnScheduleResponse(dayPresent: bool, raw: seq<ScheduleClass>)
      requires Valid()
      modifies this`schoolToday, this`scheduleClasses, this`schoolEnd
      ensures Valid()
      ensures schoolToday == dayPresent
      ensures scheduleClasses == Normalized(raw)
      ensures schoolEnd == EffectiveEnd(Normalized(raw))
    {
      schoolToday := dayPresent;
      var classes := BuildSchedule(raw);
      scheduleClasses := classes;
      if scheduleClasses == [] {
        schoolEnd := DEFAULT_SCHOOL_END;
      } else if scheduleClasses[|scheduleClasses| - 1].end < DEFAULT_SCHOOL_END {
        schoolEnd := scheduleClasses[|scheduleClasses| - 1].end;
      } else {
        schoolEnd := DEFAULT_SCHOOL_END;
      }
    }

    /** The lunch response listener: today's main dishes replace the list. */
    method OnLunchResponse(todaysLunch: seq<string>)
      requires Valid()
      modifies this`lunchDishes
      ensures Valid()
      ensures lunchDishes == todaysLunch
    {
      var dishes := CopyDishes(todaysLunch);
      lunchDishes := dishes;
    }

    /**
     * `dataItemCallback`: store the item's JWT (None when it holds none) and
     * make one schedule request. The schedule runnable is not reposted.
     */
    method DataItemCallback(jwt: Option<string>)
      requires Valid()
      modifies this`requestJwt, this`requests
      ensures Valid()
      ensures requestJwt == jwt
      ensures requests == old(requests) + [ScheduleRequest]
    {
      requestJwt := jwt;
      MakeScheduleRequest();
    }

    /**
     * `onDataChanged`: each leading changed event is handed to
     * `dataItemCallback`; the first event of another type ends the whole
     * call, so later changed events are dropped.
     */
    method OnDataChanged(events: seq<DataEvent>)
      requires Valid() && listening
      modifies this`requestJwt, this`requests
      ensures Valid()
      ensures var k := LeadingChanged(events);
        requests == old(requests) + Repeat(ScheduleRequest, k)
        && requestJwt == (if k == 0 then old(requestJwt) else events[k - 1].jwt)
    {
      var i := 0;
      while i < |events|
        invariant 0 <= i <= |events|
        invariant forall j :: 0 <= j < i ==> events[j].changed
        invariant requests == old(requests) + Repeat(ScheduleRequest, i)
        invariant requestJwt == (if i == 0 then old(requestJwt) else events[i - 1].jwt)
      {
        if !events[i].changed {
          return;
        }
        DataItemCallback(events[i].jwt);
        i := i + 1;
      }
    }

    /**
     * `onDraw`: record the centre of the bounds (and the tap radius while the
     * indicator shows), then draw the plan for the current state.
     */
    method OnDraw(bounds: Rect, now: TimeOfDay, wednesday: bool, measure: string -> nat) returns (frame: Frame)
      requires Valid()
      modifies this`centerX, this`centerY, this`lastBounds, this`tapIndicatorRadius
      ensures Valid()
      ensures centerX == bounds.ExactCenterX() && centerY == bounds.ExactCenterY() && lastBounds == bounds
      ensures frame == Plan(Face(), bounds, now, wednesday, measure)
    {
      centerX := bounds.ExactCenterX();
      centerY := bounds.ExactCenterY();
      lastBounds := bounds;
      if showTapIndicator {
        tapIndicatorRadius := TapIndicatorRadius(bounds);
      }
      frame := Plan(Face(), bounds, now, wednesday, measure);
    }
  }

  /** Entering ambient mode stops the tick timer; leaving it while visible restarts it at once. */
  method AmbientPausesTicks()
  {
    var e := new Engine();
    e.OnVisibilityChanged(true);
    assert e.ticks == [0];
    e.OnAmbientModeChanged(true);
    assert e.ticks == [];
    e.OnAmbientModeChanged(false);
    assert e.ticks == [0];
    e.DeliverTick(true, 1_700_000_000_350);
    assert e.ticks == [650];
    e.OnVisibilityChanged(false);
    assert e.ticks == [] && !e.registeredTimeZoneReceiver && e.receiverCalls == [RegisterCall, UnregisterCall];
  }

  /** Without a JWT when it first runs, the schedule runnable does nothing and is gone. */
  method PollingStopsWithoutToken()
  {
    var e := new Engine();
    assert e.timedTasks[0].task == ScheduleRunnable;
    e.RunTimedTask(0);
    assert e.requests == [] && |e.timedTasks| == 1;
    assert CountTask(e.timedTasks, ScheduleRunnable) == 0;
  }

  /**
   * Once the schedule runnable is gone, a JWT arriving later makes a single
   * request, and whatever the handler runs next, hourly polling does not resume.
   */
  method LateTokenDoesNotResumePolling(e: Engine, k: nat, jwt: string)
    requires e.Valid() && CountTask(e.timedTasks, ScheduleRunnable) == 0 && k < |e.timedTasks|
    modifies e
    ensures e.Valid() && CountTask(e.timedTasks, ScheduleRunnable) == 0
    ensures e.requests == old(e.requests) + [ScheduleRequest, LunchRequest]
  {
    e.DataItemCallback(Some(jwt));
    assert e.timedTasks[k].task == LunchRunnable;
    e.RunTimedTask(k);
  }

}
