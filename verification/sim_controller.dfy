/**
 Small gameplay rules of the simulation controller, each driven by one key or event: the
 race timer, camera field-of-view stepping, the simulation-pace reset, the blinkers,
 screenshot numbering, the debug-statistics overlay, the video cameras as the player
 toggles them or gets in and out of a vehicle, and entering or leaving the nearest vehicle.
 */
module SimController {
  import opened Common
  import opened GfxActor

  // ---------------------------------------------------------------------------------------
  // Race timer

  /** The controller's clock (seconds since it started) and its race bookkeeping. */
  datatype RaceTimer = RaceTimer(time: real, startTime: int, inProgress: bool, bestLap: real)

  const InitialRaceTimer := RaceTimer(0.0, 0, false, 0.0)

  /** The controller's clock after `dt` seconds more of frames. */
  function AdvanceClock(t: RaceTimer, dt: real): RaceTimer {
    t.(time := t.time + dt)
  }

  /** `StartRaceTimer` as written: the start is the clock truncated to whole seconds. */
  function StartRaceTimerAsWritten(t: RaceTimer): (r: RaceTimer)
    ensures r.inProgress && r.time == t.time && r.bestLap == t.bestLap
    ensures t.time >= 0.0 ==> r.startTime as real <= t.time < r.startTime as real + 1.0
  {
    t.(startTime := Trunc(t.time), inProgress := true)
  }

  /** `StopRaceTimer`: the lap is recorded only if a race was running; the best lap is returned. */
  function StopRaceTimer(t: RaceTimer): (r: (RaceTimer, real))
    ensures !r.0.inProgress && r.0.startTime == 0 && r.0.time == t.time
    ensures t.inProgress ==> r.0.bestLap == t.time - t.startTime as real
    ensures !t.inProgress ==> r.0.bestLap == t.bestLap
    ensures r.1 == r.0.bestLap
  {
    var best := if t.inProgress then t.time - t.startTime as real else t.bestLap;
    (t.(startTime := 0, inProgress := false, bestLap := best), best)
  }

  /** The lap a race of `elapsed` seconds started at clock `start` records, as written. */
  function LapAsWritten(start: real, elapsed: real): real {
    StopRaceTimer(AdvanceClock(StartRaceTimerAsWritten(InitialRaceTimer.(time := start)), elapsed)).1
  }

  /** As written, the lap is too long by the fraction of a second at which the race started. */
  lemma LapAsWrittenOvercounts(start: real, elapsed: real)
    requires start >= 0.0
    ensures elapsed <= LapAsWritten(start, elapsed) < elapsed + 1.0
    ensures LapAsWritten(start, elapsed) == elapsed + (start - start.Floor as real)
  {
  }

  /** A race started at 0.9 s and stopped at once records 0.9 s. */
  lemma LapAsWrittenExample()
    ensures LapAsWritten(0.9, 0.0) == 0.9
  {
    assert Trunc(0.9) == 0;
  }

  /** The race timer with the start kept exactly. */
  datatype PreciseRaceTimer = PreciseRaceTimer(time: real, startTime: real, inProgress: bool, bestLap: real)

  function StartRaceTimer(t: PreciseRaceTimer): (r: PreciseRaceTimer)
    ensures r.inProgress && r.startTime == t.time && r.time == t.time && r.bestLap == t.bestLap
  {
    t.(startTime := t.time, inProgress := true)
  }

  function StopPreciseRaceTimer(t: PreciseRaceTimer): (r: (PreciseRaceTimer, real))
    ensures !r.0.inProgress && r.0.startTime == 0.0 && r.0.time == t.time
    ensures t.inProgress ==> r.0.bestLap == t.time - t.startTime
    ensures !t.inProgress ==> r.0.bestLap == t.bestLap
    ensures r.1 == r.0.bestLap
  {
    var best := if t.inProgress then t.time - t.startTime else t.bestLap;
    (t.(startTime := 0.0, inProgress := false, bestLap := best), best)
  }

  /** With the exact start, a race records exactly the time it lasted. */
  lemma LapIsElapsedTime(t: PreciseRaceTimer, elapsed: real)
    ensures StopPreciseRaceTimer(StartRaceTimer(t).(time := t.time + elapsed)).1 == elapsed
  {
  }

  /** Stopping when no race runs changes only the start time and reports the old best lap. */
  lemma StopWithoutRaceKeepsBestLap(t: RaceTimer)
    requires !t.inProgress
    ensures StopRaceTimer(t) == (t.(startTime := 0), t.bestLap)
  {
  }

  // ---------------------------------------------------------------------------------------
  // Field of view

  /** The camera's vertical field of view and the two saved settings, in degrees. */
  datatype FovSettings = FovSettings(cameraFov: real, fovInternal: real, fovExternal: real)

  datatype FovNotice = FovChanged(fov: int) | FovLimitReached

  const FOV_MIN: int := 10
  const FOV_MAX: int := 160

  /**
   The FOV keys: one degree narrower ("less" wins) or wider, rounded; applied and saved
   (as the interior setting under the cinecam, the exterior one otherwise) only within
   10 to 160 degrees, otherwise only announced as the limit.
   */
  function StepFov(s: FovSettings, less: bool, more: bool, cinecam: bool): (r: (FovSettings, Option<FovNotice>))
    ensures !less && !more ==> r == (s, None)
    ensures less || more ==>
      var target := Round(if less then s.cameraFov - 1.0 else s.cameraFov + 1.0);
      if FOV_MIN <= target <= FOV_MAX then
        && r.0.cameraFov == target as real
        && r.1 == Some(FovChanged(target))
        && (cinecam ==> r.0.fovInternal == target as real && r.0.fovExternal == s.fovExternal)
        && (!cinecam ==> r.0.fovExternal == target as real && r.0.fovInternal == s.fovInternal)
      else r == (s, Some(FovLimitReached))
  {
    if !less && !more then (s, None)
    else
      var fov := Round(if less then s.cameraFov - 1.0 else s.cameraFov + 1.0);
      if fov >= 10 && fov <= 160 then
        var saved := if cinecam then s.(fovInternal := fov as real) else s.(fovExternal := fov as real);
        (saved.(cameraFov := fov as real), Some(FovChanged(fov)))
      else (s, Some(FovLimitReached))
  }

  /** A changed field of view is always within the limits, and within 1.5 degrees of the old one. */
  lemma StepFovBounds(s: FovSettings, less: bool, more: bool, cinecam: bool)
    requires StepFov(s, less, more, cinecam).0 != s
    ensures FOV_MIN as real <= StepFov(s, less, more, cinecam).0.cameraFov <= FOV_MAX as real
    ensures -1.5 <= StepFov(s, less, more, cinecam).0.cameraFov - s.cameraFov <= 1.5
  {
  }

  /** From a whole-degree field of view strictly inside the limits, wider then narrower returns. */
  lemma {:induction false} StepFovRoundTrip(s: FovSettings, k: int, cinecam: bool)
    requires s.cameraFov == k as real && FOV_MIN < k < FOV_MAX
    ensures StepFov(StepFov(s, false, true, cinecam).0, true, false, cinecam).0.cameraFov == s.cameraFov
  {
    RoundOfInteger(k + 1);
    assert (k + 1) as real == k as real + 1.0;
    RoundOfInteger(k);
    assert k as real == (k + 1) as real - 1.0;
  }

  // ---------------------------------------------------------------------------------------
  // Simulation pace reset

  /** The simulation speed, the speed to restore, and whether the reset key was down last frame. */
  datatype Pace = Pace(speed: real, lastSpeed: real, resetPressed: bool)

  function InitialPace(speed: real): (p: Pace)
    ensures p.speed == speed && p.lastSpeed == 0.1 && !p.resetPressed
  {
    Pace(speed, 0.1, false)
  }

  /**
   The pace-reset key, acting on the frame it goes down: a speed other than 1 is
   remembered and replaced by 1; at speed 1 a remembered speed other than 1 comes back.
   */
  function PaceReset(p: Pace, keyDown: bool): (r: Pace)
    ensures r.resetPressed == keyDown
    ensures !(keyDown && !p.resetPressed) ==> r == p.(resetPressed := keyDown)
    ensures keyDown && !p.resetPressed && p.speed != 1.0 ==> r == Pace(1.0, p.speed, true)
    ensures keyDown && !p.resetPressed && p.speed == 1.0 ==> r == Pace(p.lastSpeed, p.lastSpeed, true)
  {
    if keyDown then
      var p1 := if !p.resetPressed then
                  if p.speed != 1.0 then p.(lastSpeed := p.speed, speed := 1.0)
                  else if p.lastSpeed != 1.0 then p.(speed := p.lastSpeed)
                  else p
                else p;
      p1.(resetPressed := true)
    else p.(resetPressed := false)
  }

  /** Holding the key down does nothing after the first frame. */
  lemma PaceResetHeld(p: Pace)
    ensures PaceReset(PaceReset(p, true), true) == PaceReset(p, true)
  {
  }

  /** Press, release, press: back to the speed one started with. */
  lemma PaceResetRestores(p: Pace)
    requires !p.resetPressed && p.speed != 1.0
    ensures PaceReset(PaceReset(PaceReset(p, true), false), true).speed == p.speed
  {
  }

  // ---------------------------------------------------------------------------------------
  // Blinkers

  datatype BlinkType = BlinkNone | BlinkLeft | BlinkRight | BlinkWarn

  /** A blinker key switches its own blinker off if it is on, and on otherwise. */
  function ToggleBlink(current: BlinkType, key: BlinkType): (r: BlinkType)
    requires key != BlinkNone
    ensures r == BlinkNone <==> current == key
    ensures r != BlinkNone ==> r == key
  {
    if current == key then BlinkNone else key
  }

  /** The three blinker keys of one frame, handled left, right, warning. */
  function BlinkerKeys(current: BlinkType, left: bool, right: bool, warn: bool): (r: BlinkType)
    ensures !left && !right && !warn ==> r == current
    ensures warn ==> r == BlinkNone || r == BlinkWarn
    ensures !warn && right ==> r == BlinkNone || r == BlinkRight
    ensures !warn && !right && left ==> r == ToggleBlink(current, BlinkLeft)
    ensures r != BlinkNone ==>
              r == current || (r == BlinkLeft && left) || (r == BlinkRight && right) || (r == BlinkWarn && warn)
  {
    var b1 := if left then ToggleBlink(current, BlinkLeft) else current;
    var b2 := if right then ToggleBlink(b1, BlinkRight) else b1;
    if warn then ToggleBlink(b2, BlinkWarn) else b2
  }

  /** Pressing the same key twice restores the blinker unless another one was on. */
  lemma ToggleBlinkTwice(current: BlinkType, key: BlinkType)
    requires key != BlinkNone
    ensures current == BlinkNone || current == key ==> ToggleBlink(ToggleBlink(current, key), key) == current
    ensures current != BlinkNone && current != key ==> ToggleBlink(ToggleBlink(current, key), key) == BlinkNone
  {
  }

  /** With one key pressed, the blinkers follow that key's toggle. */
  lemma BlinkerSingleKey(current: BlinkType)
    ensures BlinkerKeys(current, true, false, false) == ToggleBlink(current, BlinkLeft)
    ensures BlinkerKeys(current, false, true, false) == ToggleBlink(current, BlinkRight)
    ensures BlinkerKeys(current, false, false, true) == ToggleBlink(current, BlinkWarn)
  {
  }

  /** With all blinkers off, the last of several keys pressed in one frame decides. */
  lemma BlinkerLastKeyWins(left: bool, right: bool)
    ensures BlinkerKeys(BlinkNone, left, right, true) == BlinkWarn
    ensures BlinkerKeys(BlinkNone, left, true, false) == BlinkRight
  {
  }

  // ---------------------------------------------------------------------------------------
  // Screenshot numbering

  /** The date stamp of the last screenshot and its number within that stamp. */
  datatype ShotCounter = ShotCounter(lastDate: string, lastId: int)

  const InitialShotCounter := ShotCounter("", 1)

  /** A screenshot taken at `date` (to the second): numbered on from the last one with the same stamp, else 1. */
  function TakeScreenshot(c: ShotCounter, date: string): (r: ShotCounter)
    ensures r.lastDate == date
    ensures date == c.lastDate ==> r.lastId == c.lastId + 1
    ensures date != c.lastDate ==> r.lastId == 1
  {
    if c.lastDate == date then c.(lastId := c.lastId + 1, lastDate := date) else ShotCounter(date, 1)
  }

  function TakeScreenshots(c: ShotCounter, dates: seq<string>): ShotCounter
    decreases |dates|
  {
    if |dates| == 0 then c else TakeScreenshot(TakeScreenshots(c, dates[..|dates| - 1]), dates[|dates| - 1])
  }

  /** How many of the last elements equal the last one. */
  function TrailingRun(dates: seq<string>): nat
    decreases |dates|
  {
    if |dates| <= 1 then |dates|
    else if dates[|dates| - 2] == dates[|dates| - 1] then TrailingRun(dates[..|dates| - 1]) + 1
    else 1
  }

  /** A screenshot's number counts the screenshots taken so far with the same stamp, itself included. */
  lemma {:induction false} ScreenshotIdCountsRun(dates: seq<string>)
    requires |dates| > 0
    requires forall i :: 0 <= i < |dates| ==> dates[i] != ""
    ensures TakeScreenshots(InitialShotCounter, dates) == ShotCounter(dates[|dates| - 1], TrailingRun(dates))
    decreases |dates|
  {
    if |dates| > 1 {
      var prefix := dates[..|dates| - 1];
      assert forall i :: 0 <= i < |prefix| ==> prefix[i] == dates[i];
      ScreenshotIdCountsRun(prefix);
    }
  }

  // ---------------------------------------------------------------------------------------
  // Debug statistics overlay

  /** The debug-overlay key: 0 or 1 show it (2), 2 hides it (0); other values stay. */
  function ToggleStats(stats: int): (r: int)
    ensures (stats == 0 || stats == 1) ==> r == 2
    ensures stats == 2 ==> r == 0
    ensures !(0 <= stats <= 2) ==> r == stats
  {
    if stats == 0 then 2 else if stats == 1 then 2 else if stats == 2 then 0 else stats
  }

  /** From the initial 0 the overlay alternates between shown and hidden and never returns to 1. */
  lemma ToggleStatsAlternates(stats: int)
    requires stats == 0 || stats == 2
    ensures ToggleStats(stats) != stats && ToggleStats(ToggleStats(stats)) == stats
    ensures ToggleStats(stats) == 0 || ToggleStats(stats) == 2
  {
  }

  // ---------------------------------------------------------------------------------------
  // Video cameras of the player's vehicle

  /** The video-camera key: disabled cameras come on (online), any other state disables them. */
  function ToggleVideoCameras(vc: VideoCams): (r: VideoCams)
    ensures vc.state == VcDisabled ==> r == SetVideoCamState(vc, VcEnabledOnline)
    ensures vc.state != VcDisabled ==> r == SetVideoCamState(vc, VcDisabled)
  {
    SetVideoCamState(vc, if vc.state == VcDisabled then VcEnabledOnline else VcDisabled)
  }

  /** Leaving a vehicle takes its live cameras offline. */
  function LeaveVehicleCameras(vc: VideoCams): (r: VideoCams)
    ensures vc.state == VcEnabledOnline ==> r == SetVideoCamState(vc, VcEnabledOffline)
    ensures vc.state != VcEnabledOnline ==> r == vc
  {
    if vc.state == VcEnabledOnline then SetVideoCamState(vc, VcEnabledOffline) else vc
  }

  /** Entering a vehicle brings its offline cameras back online. */
  function EnterVehicleCameras(vc: VideoCams): (r: VideoCams)
    ensures vc.state == VcEnabledOffline ==> r == SetVideoCamState(vc, VcEnabledOnline)
    ensures vc.state != VcEnabledOffline ==> r == vc
  {
    if vc.state == VcEnabledOffline then SetVideoCamState(vc, VcEnabledOnline) else vc
  }

  /** The video-camera key alternates between disabled and online. */
  lemma ToggleVideoCamerasAlternates(vc: VideoCams)
    ensures ToggleVideoCameras(vc).state != VcEnabledOffline
    ensures vc.state == VcDisabled ==> ToggleVideoCameras(vc).state == VcEnabledOnline
    ensures vc.state != VcDisabled ==> ToggleVideoCameras(vc).state == VcDisabled
  {
  }

  /** Each camera as the online state shows it: rendering, and showing its live texture. */
  ghost predicate CamerasLive(vc: VideoCams) {
    forall i :: 0 <= i < |vc.cams| ==>
      (vc.cams[i].hasRenderTarget ==> vc.cams[i].targetActive && vc.cams[i].shownTexture == vc.cams[i].liveTextureName)
      && (!vc.cams[i].hasRenderTarget && vc.cams[i].hasRenderWindow ==> vc.cams[i].windowActive)
  }

  /** Getting out and back in restores live cameras exactly; disabled ones stay disabled. */
  lemma {:induction false} LeaveThenEnterRestores(vc: VideoCams)
    requires vc.state != VcEnabledOffline
    requires vc.state == VcEnabledOnline ==> CamerasLive(vc)
    ensures EnterVehicleCameras(LeaveVehicleCameras(vc)) == vc
  {
    if vc.state == VcEnabledOnline {
      var r := EnterVehicleCameras(LeaveVehicleCameras(vc));
      assert |r.cams| == |vc.cams|;
      forall i | 0 <= i < |vc.cams|
        ensures r.cams[i] == vc.cams[i]
      {
      }
    }
  }

  // ---------------------------------------------------------------------------------------
  // Entering and leaving vehicles

  /**
   A vehicle the character might enter: whether it is driveable, whether it has a cinecam,
   and the distance from its first cinecam node to a point 2 m above the character.
   */
  datatype VehicleCandidate = VehicleCandidate(driveable: bool, hasCinecam: bool, cinecamDistance: real)

  const ENTER_SEARCH_START: real := 1000.0
  const ENTER_RADIUS: real := 20.0
  /** Delay before the enter/exit key is honoured again, seconds. */
  const TOGGLE_DELAY: real := 0.5

  predicate Enterable(v: VehicleCandidate) {
    v.driveable && v.hasCinecam
  }

  /** The distance the search uses: 0 when there is no character. */
  function EntryDistance(v: VehicleCandidate, hasCharacter: bool): real {
    if hasCharacter then v.cinecamDistance else 0.0
  }

  /** The vehicle at `k` is the first enterable one at the smallest distance, and it is within reach. */
  ghost predicate NearestEnterable(vs: seq<VehicleCandidate>, hasCharacter: bool, k: int) {
    && 0 <= k < |vs|
    && Enterable(vs[k])
    && EntryDistance(vs[k], hasCharacter) < ENTER_RADIUS
    && (forall j :: 0 <= j < |vs| && Enterable(vs[j]) ==> EntryDistance(vs[k], hasCharacter) <= EntryDistance(vs[j], hasCharacter))
    && (forall j :: 0 <= j < k && Enterable(vs[j]) ==> EntryDistance(vs[k], hasCharacter) < EntryDistance(vs[j], hasCharacter))
  }

  /** The search for the vehicle to enter: the nearest enterable one, if it is closer than 20 m. */
  method NearestVehicle(vs: seq<VehicleCandidate>, hasCharacter: bool) returns (pick: Option<nat>)
    ensures pick.Some? <==> exists j :: 0 <= j < |vs| && Enterable(vs[j]) && EntryDistance(vs[j], hasCharacter) < ENTER_RADIUS
    ensures pick.Some? ==> NearestEnterable(vs, hasCharacter, pick.value)
  {
    var minDist := ENTER_SEARCH_START;
    var nearest: Option<nat> := None;
    var i := 0;
    while i < |vs|
      invariant 0 <= i <= |vs|
      invariant nearest.None? ==> minDist == ENTER_SEARCH_START
      invariant nearest.None? ==> forall j :: 0 <= j < i && Enterable(vs[j]) ==> EntryDistance(vs[j], hasCharacter) >= ENTER_SEARCH_START
      invariant nearest.Some? ==> nearest.value < i && Enterable(vs[nearest.value])
                                  && minDist == EntryDistance(vs[nearest.value], hasCharacter) < ENTER_SEARCH_START
      invariant forall j :: 0 <= j < i && Enterable(vs[j]) ==> minDist <= EntryDistance(vs[j], hasCharacter)
      invariant nearest.Some? ==> forall j :: 0 <= j < nearest.value && Enterable(vs[j]) ==> minDist < EntryDistance(vs[j], hasCharacter)
    {
      if Enterable(vs[i]) {
        var len := if hasCharacter then vs[i].cinecamDistance else 0.0;
        if len < minDist {
          minDist := len;
          nearest := Some(i);
        }
      }
      i := i + 1;
    }
    if minDist < 20.0 {
      pick := nearest;
    } else {
      pick := None;
    }
  }

  /** What the player's vehicle reports to the enter/exit key: its speed and its brake force. */
  datatype PlayerVehicle = PlayerVehicle(speed: real, brakeForce: real)

  datatype EntryOutcome =
    | NoToggle
    | Enter(vehicle: nat)
    | NothingInReach
    | Leave
    | Brake(brake: real)

  /**
   The enter/exit key, honoured when the toggle delay has run out: on foot it enters the
   nearest vehicle in reach; in a vehicle slower than 1 m/s it gets out; otherwise it
   brakes at two thirds of the brake force and clears the delay.
   */
  method EnterOrExitVehicle(delay: real, keyDown: bool, player: Option<PlayerVehicle>, vs: seq<VehicleCandidate>,
                            hasCharacter: bool) returns (delay': real, outcome: EntryOutcome)
    ensures !(keyDown && delay <= 0.0) ==> delay' == delay && outcome == NoToggle
    ensures keyDown && delay <= 0.0 && player.None? ==>
      && delay' == TOGGLE_DELAY
      && (outcome.Enter? || outcome == NothingInReach)
      && (outcome.Enter? ==> NearestEnterable(vs, hasCharacter, outcome.vehicle))
      && (outcome == NothingInReach <==>
            forall j :: 0 <= j < |vs| && Enterable(vs[j]) ==> EntryDistance(vs[j], hasCharacter) >= ENTER_RADIUS)
    ensures keyDown && delay <= 0.0 && player.Some? && player.value.speed < 1.0 ==> delay' == TOGGLE_DELAY && outcome == Leave
    ensures keyDown && delay <= 0.0 && player.Some? && player.value.speed >= 1.0 ==>
      delay' == 0.0 && outcome == Brake(player.value.brakeForce * 0.66)
  {
    if !(keyDown && delay <= 0.0) {
      return delay, NoToggle;
    }
    delay' := 0.5;
    match player {
      case None =>
        var pick := NearestVehicle(vs, hasCharacter);
        outcome := if pick.Some? then Enter(pick.value) else NothingInReach;
      case Some(p) =>
        if p.speed < 1.0 {
          outcome := Leave;
        } else {
          outcome := Brake(p.brakeForce * 0.66);
          delay' := 0.0;
        }
    }
  }

  /** The end of each input update counts the toggle delay down while it is not negative. */
  function CountDownToggleDelay(delay: real, dt: real): (r: real)
    ensures delay >= 0.0 ==> r == delay - dt
    ensures delay < 0.0 ==> r == delay
  {
    if delay >= 0.0 then delay - dt else delay
  }

  /** After a toggle the key is ignored until the countdown has passed half a second. */
  lemma ToggleDelayBlocksHalfSecond(dt: real, frames: nat)
    requires dt > 0.0 && frames as real * dt < TOGGLE_DELAY
    ensures CountDownFrames(TOGGLE_DELAY, dt, frames) > 0.0
  {
    CountDownFromPositive(TOGGLE_DELAY, dt, frames);
  }

  function CountDownFrames(delay: real, dt: real, frames: nat): real
    decreases frames
  {
    if frames == 0 then delay else CountDownFrames(CountDownToggleDelay(delay, dt), dt, frames - 1)
  }

  lemma {:induction false} CountDownFromPositive(delay: real, dt: real, frames: nat)
    requires dt > 0.0 && frames as real * dt < delay
    ensures CountDownFrames(delay, dt, frames) == delay - frames as real * dt
    decreases frames
  {
    if frames > 0 {
      assert (frames - 1) as real * dt == frames as real * dt - dt;
      assert delay >= 0.0;
      CountDownFromPositive(delay - dt, dt, frames - 1);
    }
  }
}
