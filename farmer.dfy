/**
 * The farming program: the skill loop that presses and releases controller
 * buttons step by step, the return-to-origin loop that steers the left stick
 * back to the recorded origin, and the F7-F10 hotkey handlers.
 *
 * Time, cancellation and the screen are inputs: the return loop reads one
 * Tick per iteration (the clock, the token, the window handle, the capture),
 * and delays appear in the skill trace as Delay actions rather than waits.
 */
module Farmer {
  import opened Wrappers
  import opened Text
  import opened VisualPosition
  import opened VirtualController

  // ---------------------------------------------------------------------------
  // Configuration
  // ---------------------------------------------------------------------------

  /** One skill: its buttons (None when the list is missing), the hold time and the cooldown. */
  datatype SkillStep = SkillStep(
    note: string, buttons: Option<seq<string>>, pressDurationMs: int, coolDownMs: int, isSequential: bool)

  datatype ScriptConfig = ScriptConfig(loopDelayMs: int, enableAutoReturn: bool, skills: seq<SkillStep>)

  function TwoButtonStep(note: string, first: string, second: string, pressDurationMs: int): SkillStep {
    SkillStep(note, Some([first, second]), pressDurationMs, 300, true)
  }

  /** The profile written when no configuration file exists. */
  const DefaultProfile: ScriptConfig := ScriptConfig(0, false, [
    TwoButtonStep("Q", "LB", "X", 100),
    TwoButtonStep("W", "LB", "Y", 50),
    TwoButtonStep("E", "LB", "B", 50),
    TwoButtonStep("R", "LB", "A", 50),
    TwoButtonStep("F1\U{559D}\U{6C34}", "RB", "X", 50),
    TwoButtonStep("A", "LT", "X", 50),
    TwoButtonStep("S", "LT", "Y", 50),
    TwoButtonStep("D", "LT", "B", 50),
    TwoButtonStep("F", "LT", "A", 50)
  ])

  // ---------------------------------------------------------------------------
  // The skill trace
  // ---------------------------------------------------------------------------

  /** What the skill loop does, in order: SendInput(key, true), SendInput(key, false), or a delay. */
  datatype Action = Press(key: string) | Release(key: string) | Delay(ms: int)

  const SequentialGapMs := 200

  function Buttons(step: SkillStep): seq<string> {
    if step.buttons.Some? then step.buttons.value else []
  }

  /** The 200 ms pause after each press applies only to sequential steps with more than one button. */
  predicate HasGaps(step: SkillStep) {
    step.isSequential && |Buttons(step)| > 1
  }

  /** Each button pressed in list order, each press followed by the gap when there is one. */
  function PressAll(bs: seq<string>, gaps: bool): seq<Action> {
    if bs == [] then []
    else PressAll(bs[..|bs| - 1], gaps) + [Press(bs[|bs| - 1])] + (if gaps then [Delay(SequentialGapMs)] else [])
  }

  /** Each button released, last one first. */
  function ReleaseAll(bs: seq<string>): (r: seq<Action>)
    ensures forall i | 0 <= i < |r| :: r[i].Release? && r[i].key in bs
  {
    if bs == [] then [] else ReleaseAll(bs[1..]) + [Release(bs[0])]
  }

  function Cooldown(step: SkillStep): seq<Action> {
    if step.coolDownMs > 0 then [Delay(step.coolDownMs)] else []
  }

  /** The whole of one skill step. */
  function StepActions(step: SkillStep): seq<Action> {
    PressAll(Buttons(step), HasGaps(step)) + [Delay(step.pressDurationMs)] + ReleaseAll(Buttons(step)) + Cooldown(step)
  }

  /** The skill loop over a list of steps: each step's actions, in list order. */
  function SkillsTrace(skills: seq<SkillStep>): seq<Action> {
    if skills == [] then [] else SkillsTrace(skills[..|skills| - 1]) + StepActions(skills[|skills| - 1])
  }

  function PressedKeys(t: seq<Action>): seq<string> {
    if t == [] then []
    else PressedKeys(t[..|t| - 1]) + (if t[|t| - 1].Press? then [t[|t| - 1].key] else [])
  }

  function ReleasedKeys(t: seq<Action>): seq<string> {
    if t == [] then []
    else ReleasedKeys(t[..|t| - 1]) + (if t[|t| - 1].Release? then [t[|t| - 1].key] else [])
  }

  function Delays(t: seq<Action>): seq<int> {
    if t == [] then []
    else Delays(t[..|t| - 1]) + (if t[|t| - 1].Delay? then [t[|t| - 1].ms] else [])
  }

  function Reverse<T>(s: seq<T>): (r: seq<T>)
    ensures |r| == |s| && forall i | 0 <= i < |s| :: r[i] == s[|s| - 1 - i]
  {
    if s == [] then [] else Reverse(s[1..]) + [s[0]]
  }

  function Repeat<T>(x: T, n: nat): (r: seq<T>)
    ensures |r| == n && forall i | 0 <= i < n :: r[i] == x
  {
    seq(n, _ => x)
  }

  // ---------------------------------------------------------------------------
  // The skill trace on the controller
  // ---------------------------------------------------------------------------

  function Apply(p: Pad, a: Action): Pad {
    match a
    case Press(k) => KeyEffect(p, k, true)
    case Release(k) => KeyEffect(p, k, false)
    case Delay(_) => p
  }

  /** The pad after a trace of actions. */
  function Replay(p: Pad, t: seq<Action>): Pad {
    if t == [] then p else Apply(Replay(p, t[..|t| - 1]), t[|t| - 1])
  }

  function ReplayOn(c: Option<Pad>, t: seq<Action>): Option<Pad> {
    match c
    case None => None
    case Some(p) => Some(Replay(p, t))
  }

  /** The control a key drives, if any. */
  function BoundControl(key: string): Option<Control> {
    if IsNullOrWhiteSpace(key) then None
    else match Binding(Normalize(key))
      case None => None
      case Some((c, _)) => Some(c)
  }

  /** Some key of the list drives control c. */
  predicate Drives(bs: seq<string>, c: Control) {
    exists i | 0 <= i < |bs| :: BoundControl(bs[i]) == Some(c)
  }

  // ---------------------------------------------------------------------------
  // The return-to-origin loop
  // ---------------------------------------------------------------------------

  const ReturnTimeoutMs := 3000
  const CorrectionIntervalMs := 50

  /**
   * What one iteration of the return loop observes: the clock at the loop
   * test, whether the token is cancelled there, the game window handle, the
   * capture (None when it failed), and whether the 50 ms delay is cancelled.
   */
  datatype Tick = Tick(now: int, cancelled: bool, handle: int, capture: Option<Frame>, cancelledInDelay: bool)

  /** Why the loop ended; CancelledInDelay leaves by the delay's OperationCanceledException. */
  datatype ReturnOutcome = NoTarget | TimedOut | Cancelled | NoWindow | CaptureFailed | Arrived | CancelledInDelay

  predicate KeepsGoing(t: Tick, deadline: int) {
    t.now < deadline && !t.cancelled
  }

  /** A tick sequence the loop cannot run past: its last tick fails the loop test. */
  predicate EndsLoop(ticks: seq<Tick>, deadline: int) {
    |ticks| > 0 && !KeepsGoing(ticks[|ticks| - 1], deadline)
  }

  /** CalculateCorrectionVector with an origin set. */
  function CorrectionAt(target: Point, frame: Frame, sqrt: real -> real): Correction
    requires IsSqrt(sqrt)
  {
    match Locate(frame).center
    case None => NoCorrection
    case Some(p) => CorrectionFor(target, p, sqrt)
  }

  /** CalculateCorrectionVector for a fixed origin, as a function of the frame. */
  function Corrector(target: Point, sqrt: real -> real): Frame -> Correction
    requires IsSqrt(sqrt)
  {
    frame => CorrectionAt(target, frame, sqrt)
  }

  /** The arrival test: a zero distance or a neutral stick. */
  predicate IsArrival(c: Correction) {
    c.distance == 0.0 || (c.stickX == 0 && c.stickY == 0)
  }

  /**
   * The run of the loop over the ticks: why it stops and the stick writes it
   * makes before the final (0, 0). A tick sequence that runs out before the
   * loop ends is not one the loop is given (see EndsLoop).
   */
  function ReturnRun(target: Point, deadline: int, ticks: seq<Tick>, sqrt: real -> real): (ReturnOutcome, seq<(int, int)>)
    requires IsSqrt(sqrt)
  {
    ReturnRunFrom(Corrector(target, sqrt), deadline, ticks, 0)
  }

  /** What one iteration does up to its 50 ms delay: leave the loop, or write the stick. */
  datatype Step = Stop(outcome: ReturnOutcome) | Steer(x: int, y: int)

  /** One iteration up to its delay, where `correct` computes the correction of a frame. */
  function TickStep(correct: Frame -> Correction, deadline: int, t: Tick): Step {
    if !KeepsGoing(t, deadline) then Stop(if t.now >= deadline then TimedOut else Cancelled)
    else if t.handle == 0 then Stop(NoWindow)
    else if t.capture.None? then Stop(CaptureFailed)
    else
      var c := correct(t.capture.value);
      if IsArrival(c) then Stop(Arrived) else Steer(c.stickX, c.stickY)
  }

  /**
   * An iteration steers exactly when the loop test passes, the window and the
   * capture are there and the correction is not an arrival; it then writes
   * that correction, which is never (0, 0). It times out exactly when the
   * clock has reached the deadline.
   */
  lemma TickStepSteers(correct: Frame -> Correction, deadline: int, t: Tick)
    ensures var s := TickStep(correct, deadline, t);
      && (s.Steer? <==> KeepsGoing(t, deadline) && t.handle != 0 && t.capture.Some? && !IsArrival(correct(t.capture.value)))
      && (s.Steer? ==> (s.x, s.y) == (correct(t.capture.value).stickX, correct(t.capture.value).stickY) && (s.x, s.y) != (0, 0))
      && (s.Stop? ==> s.outcome != NoTarget && s.outcome != CancelledInDelay)
      && (s == Stop(TimedOut) <==> t.now >= deadline)
  {
  }

  /** The run of the loop from iteration k on. */
  function ReturnRunFrom(correct: Frame -> Correction, deadline: int, ticks: seq<Tick>, k: nat): (r: (ReturnOutcome, seq<(int, int)>))
    requires k <= |ticks|
    ensures |r.1| <= |ticks| - k
    decreases |ticks| - k
  {
    if k == |ticks| then (TimedOut, [])
    else
      match TickStep(correct, deadline, ticks[k])
      case Stop(outcome) => (outcome, [])
      case Steer(x, y) =>
        if ticks[k].cancelledInDelay then (CancelledInDelay, [(x, y)])
        else
          var rest := ReturnRunFrom(correct, deadline, ticks, k + 1);
          (rest.0, [(x, y)] + rest.1)
  }

  // ---------------------------------------------------------------------------
  // Hotkey handlers on the program's flags
  // ---------------------------------------------------------------------------

  /** The program's flags: running, overlay shown, and the current run's token (Some(cancelled) while a run exists). */
  datatype AppFlags = AppFlags(running: bool, overlayVisible: bool, cts: Option<bool>)

  /** F7. */
  function OverlayToggled(f: AppFlags): AppFlags {
    f.(overlayVisible := !f.overlayVisible)
  }

  /** F9: starts only when not already running. */
  function Started(f: AppFlags): AppFlags {
    if f.running then f else f.(running := true)
  }

  /** F10: stops and cancels the current run only when running. */
  function Stopped(f: AppFlags): AppFlags {
    if f.running then f.(running := false, cts := if f.cts.Some? then Some(true) else None) else f
  }

  /** The origin after CaptureAndSetOrigin: set when the window, the capture and the arrow are all there. */
  function Captured(target: Option<Point>, handle: int, capture: Option<Frame>): Option<Point> {
    if handle != 0 && capture.Some? && Locate(capture.value).center.Some? then Locate(capture.value).center
    else target
  }

  /** F8: clears an origin that is set, otherwise tries to capture one. */
  function ToggleOrigin(target: Option<Point>, handle: int, capture: Option<Frame>): (r: Option<Point>)
    ensures target.Some? ==> r == None
    ensures target.None? ==> (r.Some? <==> handle != 0 && capture.Some? && Locate(capture.value).center.Some?)
  {
    if target.Some? then None else Captured(target, handle, capture)
  }

  /** The skill-loop state of the controller keeps every button the dictionary does not name as it was. */
  predicate SameUnmapped(before: Option<Pad>, now: Option<Pad>) {
    && (before.None? <==> now.None?)
    && (before.Some? ==> now.value.pressed - MappedButtons() == before.value.pressed - MappedButtons())
  }

  /** Moving the left stick after a change that kept the unmapped buttons keeps them too. */
  lemma SameUnmappedAfterStick(before: Option<Pad>, mid: Option<Pad>, after: Option<Pad>)
    requires SameUnmapped(before, mid)
    requires after == mid || (mid.Some? && after == Some(mid.value.(leftThumbX := 0, leftThumbY := 0)))
    ensures SameUnmapped(before, after)
  {
  }

  /** One round's input to the return loop: the clock when it starts and its ticks. */
  datatype RoundInput = RoundInput(start: int, ticks: seq<Tick>)

  /** The outcomes that mean the token was cancelled, at the loop test or in the delay. */
  predicate StopsRun(outcome: ReturnOutcome) {
    outcome == Cancelled || outcome == CancelledInDelay
  }

  /** Whether the return of a round ends the run: an origin is set and the loop saw the token cancelled. */
  predicate ReturnStops(target: Option<Point>, round: RoundInput, sqrt: real -> real)
    requires IsSqrt(sqrt)
  {
    target.Some? && StopsRun(ReturnRun(target.value, round.start + ReturnTimeoutMs, round.ticks, sqrt).0)
  }

  // ---------------------------------------------------------------------------
  // The program
  // ---------------------------------------------------------------------------

  class FarmerProgram {
    var running: bool
    var overlayVisible: bool
    /** The current run's cancellation source: None between runs, Some(cancelled) during one. */
    var cts: Option<bool>
    const tracker: PositionTracker
    const controllerService: ControllerService

    constructor (tracker: PositionTracker, controllerService: ControllerService)
      ensures State() == AppFlags(false, true, None)
      ensures this.tracker == tracker && this.controllerService == controllerService
    {
      running, overlayVisible, cts := false, true, None;
      this.tracker := tracker;
      this.controllerService := controllerService;
    }

    function State(): AppFlags
      reads this
    {
      AppFlags(running, overlayVisible, cts)
    }

    method OnToggleOverlayRequested()
      modifies this
      ensures State() == OverlayToggled(old(State()))
    {
      overlayVisible := !overlayVisible;
    }

    method OnStartRequested()
      modifies this
      ensures State() == Started(old(State()))
    {
      if !running {
        running := true;
      }
    }

    method OnStopRequested()
      modifies this
      ensures State() == Stopped(old(State()))
    {
      if running {
        running := false;
        if cts.Some? {
          cts := Some(true);
        }
      }
    }

    /** Captures the game window and records the arrow as the origin; a missing window or capture does nothing. */
    method CaptureAndSetOrigin(handle: int, capture: Option<Frame>)
      modifies tracker
      ensures tracker.target == Captured(old(tracker.target), handle, capture)
    {
      if handle == 0 {
        return;
      }
      if capture.Some? {
        var found := tracker.SetCurrentAsTarget(capture.value);
      }
    }

    method OnSetOriginRequested(handle: int, capture: Option<Frame>)
      modifies tracker
      ensures tracker.target == ToggleOrigin(old(tracker.target), handle, capture)
    {
      if tracker.IsTargetSet() {
        tracker.ResetTarget();
      } else {
        CaptureAndSetOrigin(handle, capture);
      }
    }

    /** The press phase of a step: each button in order, with the gap after each press when it applies. */
    method PressButtons(step: SkillStep) returns (trace: seq<Action>)
      modifies controllerService
      ensures trace == PressAll(Buttons(step), HasGaps(step))
      ensures controllerService.controller == ReplayOn(old(controllerService.controller), trace)
    {
      trace := [];
      var bs := Buttons(step);
      var gaps := step.isSequential && |bs| > 1;
      for i := 0 to |bs|
        invariant trace == PressAll(bs[..i], gaps)
        invariant controllerService.controller == ReplayOn(old(controllerService.controller), trace)
      {
        controllerService.SendInput(bs[i], true);
        assert bs[..i + 1][..i] == bs[..i];
        ReplayOnStep(old(controllerService.controller), trace, Press(bs[i]));
        trace := trace + [Press(bs[i])];
        if gaps {
          ReplayOnStep(old(controllerService.controller), trace, Delay(SequentialGapMs));
          trace := trace + [Delay(SequentialGapMs)];
        }
      }
      assert bs[..|bs|] == bs;
    }

    /** The release phase of a step: the buttons from last to first. */
    method ReleaseButtons(step: SkillStep) returns (trace: seq<Action>)
      modifies controllerService
      ensures trace == ReleaseAll(Buttons(step))
      ensures controllerService.controller == ReplayOn(old(controllerService.controller), trace)
    {
      trace := [];
      var bs := Buttons(step);
      var i := |bs| - 1;
      while i >= 0
        invariant -1 <= i < |bs|
        invariant trace == ReleaseAll(bs[i + 1..])
        invariant controllerService.controller == ReplayOn(old(controllerService.controller), trace)
      {
        controllerService.SendInput(bs[i], false);
        ReleaseAllFrom(bs, i);
        ReplayOnStep(old(controllerService.controller), trace, Release(bs[i]));
        trace := trace + [Release(bs[i])];
        i := i - 1;
      }
      assert bs[0..] == bs;
    }

    /** One skill step: presses, the hold, releases in reverse, the cooldown. */
    method RunSkillStep(step: SkillStep) returns (trace: seq<Action>)
      modifies controllerService
      ensures trace == StepActions(step)
      ensures controllerService.controller == ReplayOn(old(controllerService.controller), trace)
    {
      var presses := PressButtons(step);
      ghost var afterPresses := controllerService.controller;
      var hold := [Delay(step.pressDurationMs)];
      var releases := ReleaseButtons(step);
      trace := presses + hold + releases + Cooldown(step);
      ReplayOnAppend(old(controllerService.controller), presses, hold);
      ReplayOnAppend(old(controllerService.controller), presses + hold, releases);
      ReplayOnAppend(old(controllerService.controller), presses + hold + releases, Cooldown(step));
      DelaysKeepPad(afterPresses, hold);
      DelaysKeepPad(controllerService.controller, Cooldown(step));
    }

    /**
     * One iteration of the return loop up to its delay: the loop test, the
     * window, the capture, the correction and the arrival test, then the
     * stick write when the loop goes on steering.
     */
    method SteerOnce(deadline: int, t: Tick, sqrt: real -> real) returns (step: Step)
      requires IsSqrt(sqrt) && tracker.target.Some?
      modifies controllerService
      ensures step == TickStep(Corrector(tracker.target.value, sqrt), deadline, t)
      ensures controllerService.controller ==
        (if step.Stop? || old(controllerService.controller).None? then old(controllerService.controller)
         else Some(old(controllerService.controller).value.(leftThumbX := step.x, leftThumbY := step.y)))
    {
      if !(t.now < deadline && !t.cancelled) {
        return Stop(if t.now >= deadline then TimedOut else Cancelled);
      }
      if t.handle == 0 {
        return Stop(NoWindow);
      }
      if t.capture.None? {
        return Stop(CaptureFailed);
      }
      var c := tracker.CalculateCorrectionVector(t.capture.value, sqrt);
      assert c == Corrector(tracker.target.value, sqrt)(t.capture.value);
      if c.distance == 0.0 || (c.stickX == 0 && c.stickY == 0) {
        return Stop(Arrived);
      }
      controllerService.SetLeftStick(c.stickX, c.stickY);
      step := Steer(c.stickX, c.stickY);
    }

    /**
     * The return-to-origin loop. With no origin it writes nothing. Otherwise
     * it steers until the 3 s deadline, cancellation, a lost window, a failed
     * capture or arrival, and its last write is always (0, 0).
     */
    method ExecuteReturnToOrigin(start: int, ticks: seq<Tick>, sqrt: real -> real)
      returns (outcome: ReturnOutcome, writes: seq<(int, int)>)
      requires IsSqrt(sqrt)
      requires EndsLoop(ticks, start + ReturnTimeoutMs)
      modifies controllerService
      ensures tracker.target.None? ==>
        outcome == NoTarget && writes == [] && controllerService.controller == old(controllerService.controller)
      ensures tracker.target.Some? ==>
        var run := ReturnRun(tracker.target.value, start + ReturnTimeoutMs, ticks, sqrt);
        && outcome == run.0 && writes == run.1 + [(0, 0)]
        && controllerService.controller ==
          (if old(controllerService.controller).None? then None
           else Some(old(controllerService.controller).value.(leftThumbX := 0, leftThumbY := 0)))
    {
      if !tracker.IsTargetSet() {
        return NoTarget, [];
      }
      var target := tracker.target.value;
      var deadline := start + ReturnTimeoutMs;
      ghost var correct := Corrector(target, sqrt);
      ghost var run := ReturnRun(target, deadline, ticks, sqrt);
      ghost var rest := Neutral(old(controllerService.controller));
      writes := [];
      var k := 0;
      while true
        invariant 0 <= k < |ticks|
        invariant run.0 == ReturnRunFrom(correct, deadline, ticks, k).0
        invariant run.1 == writes + ReturnRunFrom(correct, deadline, ticks, k).1
        invariant Neutral(controllerService.controller) == rest
        decreases |ticks| - k
      {
        var step := SteerOnce(deadline, ticks[k], sqrt);
        if step.Stop? {
          outcome := step.outcome;
          break;
        }
        writes := writes + [(step.x, step.y)];
        if ticks[k].cancelledInDelay {
          outcome := CancelledInDelay;
          break;
        }
        k := k + 1;
      }
      controllerService.SetLeftStick(0, 0);
      writes := writes + [(0, 0)];
    }

    /**
     * One run, from F9 until it is stopped: `rounds` full rounds of the skill
     * loop, each followed by the return to origin, then the stop, which lands
     * during the hold of skill `stoppedAt` of the next round (or after its
     * last skill). A return that sees the token cancelled, at its loop test
     * or in its delay, ends the run there: the LoopDelayMs wait that follows
     * throws, or the skill loop's own test fails. Whatever happened, the run
     * ends by releasing every input.
     */
    method RunSession(config: ScriptConfig, sqrt: real -> real, rounds: seq<RoundInput>, stoppedAt: nat)
      returns (roundsRun: nat, stoppedInReturn: bool)
      requires IsSqrt(sqrt)
      requires forall r | 0 <= r < |rounds| :: EndsLoop(rounds[r].ticks, rounds[r].start + ReturnTimeoutMs)
      modifies this, controllerService
      ensures roundsRun <= |rounds|
      ensures forall r | 0 <= r < roundsRun - 1 :: !ReturnStops(tracker.target, rounds[r], sqrt)
      ensures stoppedInReturn <==> 0 < roundsRun && ReturnStops(tracker.target, rounds[roundsRun - 1], sqrt)
      ensures !stoppedInReturn ==> roundsRun == |rounds|
      ensures running == old(running) && overlayVisible == old(overlayVisible) && cts == None
      ensures old(controllerService.controller).None? ==> controllerService.controller == None
      ensures old(controllerService.controller).Some? ==>
        controllerService.controller == Some(Neutralized(old(controllerService.controller).value))
    {
      cts := Some(false);
      roundsRun, stoppedInReturn := RunRounds(config, sqrt, rounds);
      if !stoppedInReturn {
        var _ := RunSkills(config.skills, stoppedAt);
        if stoppedAt < |config.skills| {
          ghost var before := controllerService.controller;
          var presses := PressButtons(config.skills[stoppedAt]);
          ReplayOnKeepsUnmapped(before, presses);
        }
      }
      ghost var last := controllerService.controller;
      controllerService.ResetAllInputs();
      cts := None;
      if last.Some? {
        assert Neutralized(last.value) == Neutralized(old(controllerService.controller).value);
      }
    }

    /** Full rounds, each a skill loop and a return, until a return sees the token cancelled. */
    method RunRounds(config: ScriptConfig, sqrt: real -> real, rounds: seq<RoundInput>)
      returns (roundsRun: nat, stoppedInReturn: bool)
      requires IsSqrt(sqrt)
      requires forall r | 0 <= r < |rounds| :: EndsLoop(rounds[r].ticks, rounds[r].start + ReturnTimeoutMs)
      modifies controllerService
      ensures roundsRun <= |rounds|
      ensures forall r | 0 <= r < roundsRun - 1 :: !ReturnStops(tracker.target, rounds[r], sqrt)
      ensures stoppedInReturn <==> 0 < roundsRun && ReturnStops(tracker.target, rounds[roundsRun - 1], sqrt)
      ensures !stoppedInReturn ==> roundsRun == |rounds|
      ensures SameUnmapped(old(controllerService.controller), controllerService.controller)
    {
      ghost var target := tracker.target;
      roundsRun, stoppedInReturn := 0, false;
      while roundsRun < |rounds| && !stoppedInReturn
        invariant 0 <= roundsRun <= |rounds|
        invariant tracker.target == target
        invariant forall r | 0 <= r < roundsRun - 1 :: !ReturnStops(target, rounds[r], sqrt)
        invariant stoppedInReturn <==> 0 < roundsRun && ReturnStops(target, rounds[roundsRun - 1], sqrt)
        invariant SameUnmapped(old(controllerService.controller), controllerService.controller)
      {
        assert forall r | 0 <= r < roundsRun :: !ReturnStops(target, rounds[r], sqrt);
        var _, stops := RunRound(config, sqrt, rounds[roundsRun]);
        stoppedInReturn := stops;
        roundsRun := roundsRun + 1;
      }
    }

    /**
     * One full round: every skill in order, then the return; true when the
     * return saw the token cancelled. Afterwards the controller is the skill
     * trace replayed, with the left stick centred if the return wrote to it.
     */
    method RunRound(config: ScriptConfig, sqrt: real -> real, round: RoundInput) returns (skillTrace: seq<Action>, stops: bool)
      requires IsSqrt(sqrt)
      requires EndsLoop(round.ticks, round.start + ReturnTimeoutMs)
      modifies controllerService
      ensures skillTrace == SkillsTrace(config.skills)
      ensures stops <==> ReturnStops(tracker.target, round, sqrt)
      ensures var afterSkills := ReplayOn(old(controllerService.controller), skillTrace);
        || controllerService.controller == afterSkills
        || (afterSkills.Some? && controllerService.controller == Some(afterSkills.value.(leftThumbX := 0, leftThumbY := 0)))
      ensures SameUnmapped(old(controllerService.controller), controllerService.controller)
    {
      skillTrace := RunSkills(config.skills, |config.skills|);
      assert config.skills[..|config.skills|] == config.skills;
      ghost var afterSkills := controllerService.controller;
      stops := ReturnOnce(sqrt, round);
      SameUnmappedAfterStick(old(controllerService.controller), afterSkills, controllerService.controller);
    }

    /** The return of one round; true when it saw the token cancelled. It moves the left stick at most. */
    method ReturnOnce(sqrt: real -> real, round: RoundInput) returns (stops: bool)
      requires IsSqrt(sqrt)
      requires EndsLoop(round.ticks, round.start + ReturnTimeoutMs)
      modifies controllerService
      ensures stops <==> ReturnStops(tracker.target, round, sqrt)
      ensures || controllerService.controller == old(controllerService.controller)
              || (&& old(controllerService.controller).Some?
                  && controllerService.controller ==
                     Some(old(controllerService.controller).value.(leftThumbX := 0, leftThumbY := 0)))
    {
      var outcome, _ := ExecuteReturnToOrigin(round.start, round.ticks, sqrt);
      stops := StopsRun(outcome);
      if tracker.target.Some? {
        assert outcome == ReturnRun(tracker.target.value, round.start + ReturnTimeoutMs, round.ticks, sqrt).0;
      }
    }

    /**
     * The first n skills of a round (all of them when n >= |skills|), each
     * run in full and in list order; the controller ends as their trace replayed.
     */
    method RunSkills(skills: seq<SkillStep>, n: nat) returns (trace: seq<Action>)
      modifies controllerService
      ensures trace == SkillsTrace(skills[..if n < |skills| then n else |skills|])
      ensures controllerService.controller == ReplayOn(old(controllerService.controller), trace)
      ensures SameUnmapped(old(controllerService.controller), controllerService.controller)
    {
      trace := [];
      var i := 0;
      while i < n && i < |skills|
        invariant i <= |skills| && (i <= n || i == 0)
        invariant trace == SkillsTrace(skills[..i])
        invariant controllerService.controller == ReplayOn(old(controllerService.controller), trace)
      {
        var t := RunSkillStep(skills[i]);
        ReplayOnAppend(old(controllerService.controller), trace, t);
        assert skills[..i + 1][..i] == skills[..i];
        trace := trace + t;
        i := i + 1;
      }
      ReplayOnKeepsUnmapped(old(controllerService.controller), trace);
    }
  }

  /** The pad with the left stick set aside: what SetLeftStick cannot change. */
  function Neutral(c: Option<Pad>): Option<Pad> {
    match c
    case None => None
    case Some(p) => Some(p.(leftThumbX := 0, leftThumbY := 0))
  }

  // ---------------------------------------------------------------------------
  // Properties of the skill trace
  // ---------------------------------------------------------------------------

  /** Each projection of a trace distributes over concatenation. */
  lemma ProjectionsAppend(a: seq<Action>, b: seq<Action>)
    ensures PressedKeys(a + b) == PressedKeys(a) + PressedKeys(b)
    ensures ReleasedKeys(a + b) == ReleasedKeys(a) + ReleasedKeys(b)
    ensures Delays(a + b) == Delays(a) + Delays(b)
  {
    PressedAppend(a, b);
    ReleasedAppend(a, b);
    DelaysAppend(a, b);
  }

  lemma {:induction false} PressedAppend(a: seq<Action>, b: seq<Action>)
    ensures PressedKeys(a + b) == PressedKeys(a) + PressedKeys(b)
    decreases |b|
  {
    if b == [] {
      assert a + b == a;
    } else {
      assert (a + b)[..|a + b| - 1] == a + b[..|b| - 1];
      PressedAppend(a, b[..|b| - 1]);
    }
  }

  lemma {:induction false} ReleasedAppend(a: seq<Action>, b: seq<Action>)
    ensures ReleasedKeys(a + b) == ReleasedKeys(a) + ReleasedKeys(b)
    decreases |b|
  {
    if b == [] {
      assert a + b == a;
    } else {
      assert (a + b)[..|a + b| - 1] == a + b[..|b| - 1];
      ReleasedAppend(a, b[..|b| - 1]);
    }
  }

  lemma {:induction false} DelaysAppend(a: seq<Action>, b: seq<Action>)
    ensures Delays(a + b) == Delays(a) + Delays(b)
    decreases |b|
  {
    if b == [] {
      assert a + b == a;
    } else {
      assert (a + b)[..|a + b| - 1] == a + b[..|b| - 1];
      DelaysAppend(a, b[..|b| - 1]);
    }
  }

  /** The actions PressAll adds for one key: the press, then the gap when there is one. */
  function PressTail(key: string, gaps: bool): seq<Action> {
    [Press(key)] + (if gaps then [Delay(SequentialGapMs)] else [])
  }

  lemma OneActionProjections(a: Action)
    ensures PressedKeys([a]) == if a.Press? then [a.key] else []
    ensures ReleasedKeys([a]) == if a.Release? then [a.key] else []
    ensures Delays([a]) == if a.Delay? then [a.ms] else []
  {
    assert [a][..0] == [];
  }

  lemma PressTailProjections(key: string, gaps: bool)
    ensures PressedKeys(PressTail(key, gaps)) == [key]
    ensures ReleasedKeys(PressTail(key, gaps)) == []
    ensures Delays(PressTail(key, gaps)) == if gaps then [SequentialGapMs] else []
  {
    OneActionProjections(Press(key));
    if gaps {
      OneActionProjections(Delay(SequentialGapMs));
      ProjectionsAppend([Press(key)], [Delay(SequentialGapMs)]);
    } else {
      assert PressTail(key, gaps) == [Press(key)];
    }
  }

  /** PressAll, split at its last key. */
  lemma PressAllSnoc(bs: seq<string>, gaps: bool)
    requires bs != []
    ensures PressAll(bs, gaps) == PressAll(bs[..|bs| - 1], gaps) + PressTail(bs[|bs| - 1], gaps)
  {
  }

  /** PressAll presses the keys in list order. */
  lemma {:induction false} PressAllKeys(bs: seq<string>, gaps: bool)
    ensures PressedKeys(PressAll(bs, gaps)) == bs
    decreases |bs|
  {
    if bs != [] {
      var init := bs[..|bs| - 1];
      var key := bs[|bs| - 1];
      PressAllKeys(init, gaps);
      PressAllSnoc(bs, gaps);
      ProjectionsAppend(PressAll(init, gaps), PressTail(key, gaps));
      PressTailProjections(key, gaps);
      assert init + [key] == bs;
    }
  }

  /** PressAll releases nothing: it holds no Release action at all. */
  lemma PressAllReleasesNothing(bs: seq<string>, gaps: bool)
    ensures ReleasedKeys(PressAll(bs, gaps)) == []
  {
    PressAllHasNoRelease(bs, gaps);
    NoReleaseNoReleasedKeys(PressAll(bs, gaps));
  }

  /** The buttons of a list of steps, step after step. */
  function AllButtons(skills: seq<SkillStep>): seq<string> {
    if skills == [] then [] else AllButtons(skills[..|skills| - 1]) + Buttons(skills[|skills| - 1])
  }

  /** Over a whole skill loop the presses are every step's buttons, the steps in list order. */
  lemma {:induction false} SkillsPressOrder(skills: seq<SkillStep>)
    ensures PressedKeys(SkillsTrace(skills)) == AllButtons(skills)
  {
    if skills != [] {
      var init := skills[..|skills| - 1];
      var last := skills[|skills| - 1];
      SkillsPressOrder(init);
      PressedAppend(SkillsTrace(init), StepActions(last));
      StepOrder(last);
    }
  }

  /** A trace without Release actions releases no key. */
  lemma {:induction false} NoReleaseNoReleasedKeys(t: seq<Action>)
    requires forall i | 0 <= i < |t| :: !t[i].Release?
    ensures ReleasedKeys(t) == []
  {
    if t != [] {
      NoReleaseNoReleasedKeys(t[..|t| - 1]);
    }
  }

  /** PressAll waits the gap once per key when there are gaps, and never otherwise. */
  lemma {:induction false} PressAllDelays(bs: seq<string>, gaps: bool)
    ensures Delays(PressAll(bs, gaps)) == if gaps then Repeat(SequentialGapMs, |bs|) else []
    decreases |bs|
  {
    if bs != [] {
      var init := bs[..|bs| - 1];
      var key := bs[|bs| - 1];
      var before := PressAll(init, gaps);
      PressAllDelays(init, gaps);
      PressAllSnoc(bs, gaps);
      ProjectionsAppend(before, PressTail(key, gaps));
      PressTailProjections(key, gaps);
    }
  }

  lemma {:induction false} ReleaseAllProjections(bs: seq<string>)
    ensures PressedKeys(ReleaseAll(bs)) == []
    ensures ReleasedKeys(ReleaseAll(bs)) == Reverse(bs)
    ensures Delays(ReleaseAll(bs)) == []
    decreases |bs|
  {
    if bs != [] {
      ReleaseAllProjections(bs[1..]);
      ProjectionsAppend(ReleaseAll(bs[1..]), [Release(bs[0])]);
      assert ReleasedKeys([Release(bs[0])]) == [bs[0]];
    }
  }

  /** The projections of a step's trace, part by part: presses, hold, releases, cooldown. */
  lemma StepProjections(step: SkillStep)
    ensures var bs := Buttons(step);
      var parts := [PressAll(bs, HasGaps(step)), [Delay(step.pressDurationMs)], ReleaseAll(bs), Cooldown(step)];
      && PressedKeys(StepActions(step)) ==
        PressedKeys(parts[0]) + PressedKeys(parts[1]) + PressedKeys(parts[2]) + PressedKeys(parts[3])
      && ReleasedKeys(StepActions(step)) ==
        ReleasedKeys(parts[0]) + ReleasedKeys(parts[1]) + ReleasedKeys(parts[2]) + ReleasedKeys(parts[3])
      && Delays(StepActions(step)) == Delays(parts[0]) + Delays(parts[1]) + Delays(parts[2]) + Delays(parts[3])
  {
    var bs := Buttons(step);
    var presses := PressAll(bs, HasGaps(step));
    var hold := [Delay(step.pressDurationMs)];
    ProjectionsAppend(presses, hold);
    ProjectionsAppend(presses + hold, ReleaseAll(bs));
    ProjectionsAppend(presses + hold + ReleaseAll(bs), Cooldown(step));
  }

  /** The cooldown part of a step: one delay when positive, nothing otherwise. */
  lemma CooldownProjections(step: SkillStep)
    ensures PressedKeys(Cooldown(step)) == [] && ReleasedKeys(Cooldown(step)) == []
    ensures Delays(Cooldown(step)) == if step.coolDownMs > 0 then [step.coolDownMs] else []
  {
    if step.coolDownMs > 0 {
      OneActionProjections(Delay(step.coolDownMs));
    }
  }

  /** Buttons are pressed in list order and released in exactly the reverse order; a missing list presses nothing. */
  lemma StepOrder(step: SkillStep)
    ensures PressedKeys(StepActions(step)) == Buttons(step)
    ensures ReleasedKeys(StepActions(step)) == Reverse(Buttons(step))
    ensures step.buttons.None? ==> PressedKeys(StepActions(step)) == [] && ReleasedKeys(StepActions(step)) == []
  {
    StepProjections(step);
    StepPressedParts(step);
    StepReleasedParts(step);
  }

  lemma StepPressedParts(step: SkillStep)
    ensures var bs := Buttons(step);
      PressedKeys(PressAll(bs, HasGaps(step))) + PressedKeys([Delay(step.pressDurationMs)])
        + PressedKeys(ReleaseAll(bs)) + PressedKeys(Cooldown(step)) == bs
  {
    var bs := Buttons(step);
    PressAllKeys(bs, HasGaps(step));
    ReleaseAllProjections(bs);
    OneActionProjections(Delay(step.pressDurationMs));
    CooldownProjections(step);
    assert bs + [] + [] + [] == bs;
  }

  lemma StepReleasedParts(step: SkillStep)
    ensures var bs := Buttons(step);
      ReleasedKeys(PressAll(bs, HasGaps(step))) + ReleasedKeys([Delay(step.pressDurationMs)])
        + ReleasedKeys(ReleaseAll(bs)) + ReleasedKeys(Cooldown(step)) == Reverse(bs)
  {
    var bs := Buttons(step);
    PressAllReleasesNothing(bs, HasGaps(step));
    ReleaseAllProjections(bs);
    OneActionProjections(Delay(step.pressDurationMs));
    CooldownProjections(step);
    assert [] + [] + Reverse(bs) + [] == Reverse(bs);
  }

  /**
   * The delays of a step: 200 ms after every press only for a sequential step
   * with more than one button, then the hold, then the cooldown only when positive.
   */
  lemma StepDelays(step: SkillStep)
    ensures Delays(StepActions(step)) ==
      (if HasGaps(step) then Repeat(SequentialGapMs, |Buttons(step)|) else [])
      + [step.pressDurationMs]
      + (if step.coolDownMs > 0 then [step.coolDownMs] else [])
  {
    StepProjections(step);
    StepDelayParts(step);
  }

  lemma StepDelayParts(step: SkillStep)
    ensures var bs := Buttons(step);
      Delays(PressAll(bs, HasGaps(step))) + Delays([Delay(step.pressDurationMs)]) + Delays(ReleaseAll(bs)) + Delays(Cooldown(step))
      == (if HasGaps(step) then Repeat(SequentialGapMs, |bs|) else [])
        + [step.pressDurationMs]
        + (if step.coolDownMs > 0 then [step.coolDownMs] else [])
  {
    var bs := Buttons(step);
    PressAllDelays(bs, HasGaps(step));
    ReleaseAllProjections(bs);
    OneActionProjections(Delay(step.pressDurationMs));
    CooldownProjections(step);
    DropEmpty(if HasGaps(step) then Repeat(SequentialGapMs, |bs|) else [], [step.pressDurationMs],
      if step.coolDownMs > 0 then [step.coolDownMs] else []);
  }

  lemma DropEmpty<T>(a: seq<T>, b: seq<T>, c: seq<T>)
    ensures a + b + [] + c == a + b + c
  {
  }

  lemma {:induction false} PressAllHasNoRelease(bs: seq<string>, gaps: bool)
    ensures forall i | 0 <= i < |PressAll(bs, gaps)| :: !PressAll(bs, gaps)[i].Release?
    decreases |bs|
  {
    if bs != [] {
      PressAllHasNoRelease(bs[..|bs| - 1], gaps);
    }
  }

  /** No release comes before a press within a step. */
  lemma PressesBeforeReleases(step: SkillStep)
    ensures var t := StepActions(step);
      forall i, j | 0 <= i < j < |t| :: !(t[i].Release? && t[j].Press?)
  {
    var bs := Buttons(step);
    var presses := PressAll(bs, HasGaps(step));
    PressAllHasNoRelease(bs, HasGaps(step));
    var t := StepActions(step);
    var rest := [Delay(step.pressDurationMs)] + ReleaseAll(bs) + Cooldown(step);
    assert t == presses + rest;
    forall i, j | 0 <= i < j < |t| && t[i].Release?
      ensures !t[j].Press?
    {
      assert i >= |presses|;
      assert t[j] == rest[j - |presses|];
    }
  }

  // ---------------------------------------------------------------------------
  // Properties of the trace on the controller
  // ---------------------------------------------------------------------------

  lemma {:induction false} ReplayAppend(p: Pad, a: seq<Action>, b: seq<Action>)
    ensures Replay(p, a + b) == Replay(Replay(p, a), b)
    decreases |b|
  {
    if b == [] {
      assert a + b == a;
    } else {
      assert (a + b)[..|a + b| - 1] == a + b[..|b| - 1];
      ReplayAppend(p, a, b[..|b| - 1]);
    }
  }

  /** ReleaseAll from position i: the keys after i released, then key i. */
  lemma ReleaseAllFrom(bs: seq<string>, i: nat)
    requires i < |bs|
    ensures ReleaseAll(bs[i..]) == ReleaseAll(bs[i + 1..]) + [Release(bs[i])]
  {
    assert bs[i..][1..] == bs[i + 1..];
  }

  lemma ReplayOnStep(c: Option<Pad>, t: seq<Action>, a: Action)
    ensures ReplayOn(c, t + [a]) == if c.None? then None else Some(Apply(Replay(c.value, t), a))
  {
    assert (t + [a])[..|t|] == t;
  }

  lemma ReplayOnAppend(c: Option<Pad>, a: seq<Action>, b: seq<Action>)
    ensures ReplayOn(c, a + b) == ReplayOn(ReplayOn(c, a), b)
  {
    if c.Some? {
      ReplayAppend(c.value, a, b);
    }
  }

  lemma {:induction false} DelaysKeepPad(c: Option<Pad>, t: seq<Action>)
    requires forall i | 0 <= i < |t| :: t[i].Delay?
    ensures ReplayOn(c, t) == c
    decreases |t|
  {
    if t != [] && c.Some? {
      DelaysKeepPad(c, t[..|t| - 1]);
    }
  }

  /** A key press or release never touches a button the dictionary does not name. */
  lemma KeyEffectKeepsUnmapped(p: Pad, key: string, isDown: bool)
    ensures KeyEffect(p, key, isDown).pressed - MappedButtons() == p.pressed - MappedButtons()
  {
    var q := KeyEffect(p, key, isDown);
    var binding := Binding(Normalize(key));
    if !IsNullOrWhiteSpace(key) && binding.Some? {
      BindingMapped(Normalize(key));
      forall b: Button | b !in MappedButtons()
        ensures b in q.pressed <==> b in p.pressed
      {
        assert ButtonControl(b) != binding.value.0;
        assert Value(q, ButtonControl(b)) == Value(p, ButtonControl(b));
      }
    }
  }

  lemma {:induction false} ReplayKeepsUnmapped(p: Pad, t: seq<Action>)
    ensures Replay(p, t).pressed - MappedButtons() == p.pressed - MappedButtons()
    decreases |t|
  {
    if t != [] {
      ReplayKeepsUnmapped(p, t[..|t| - 1]);
      var q := Replay(p, t[..|t| - 1]);
      match t[|t| - 1]
      case Press(k) => KeyEffectKeepsUnmapped(q, k, true);
      case Release(k) => KeyEffectKeepsUnmapped(q, k, false);
      case Delay(_) =>
    }
  }

  lemma ReplayOnKeepsUnmapped(c: Option<Pad>, t: seq<Action>)
    ensures SameUnmapped(c, ReplayOn(c, t))
  {
    if c.Some? {
      ReplayKeepsUnmapped(c.value, t);
    }
  }

  /** Presses only move controls their keys are bound to. */
  lemma {:induction false} PressesTouchOnlyBound(p: Pad, bs: seq<string>, gaps: bool, c: Control)
    requires forall i | 0 <= i < |bs| :: BoundControl(bs[i]) != Some(c)
    ensures Value(Replay(p, PressAll(bs, gaps)), c) == Value(p, c)
    decreases |bs|
  {
    if bs != [] {
      var init := bs[..|bs| - 1];
      var key := bs[|bs| - 1];
      PressesTouchOnlyBound(p, init, gaps, c);
      var gap := if gaps then [Delay(SequentialGapMs)] else [];
      PressAllSnoc(bs, gaps);
      var q := Replay(p, PressAll(init, gaps));
      ReplayAppend(p, PressAll(init, gaps), PressTail(key, gaps));
      ReplayAppend(q, [Press(key)], gap);
      assert Replay(q, [Press(key)]) == KeyEffect(q, key, true) by {
        assert [Press(key)][..0] == [];
      }
      DelaysKeepPad(Some(KeyEffect(q, key, true)), gap);
    }
  }

  /** Drives, split at the first key. */
  lemma DrivesCons(bs: seq<string>, c: Control)
    requires bs != []
    ensures Drives(bs, c) <==> Drives(bs[1..], c) || BoundControl(bs[0]) == Some(c)
  {
    var rest := bs[1..];
    if Drives(rest, c) {
      var i :| 0 <= i < |rest| && BoundControl(rest[i]) == Some(c);
      assert bs[i + 1] == rest[i];
    }
    if Drives(bs, c) && BoundControl(bs[0]) != Some(c) {
      var i :| 0 <= i < |bs| && BoundControl(bs[i]) == Some(c);
      assert rest[i - 1] == bs[i];
    }
    if BoundControl(bs[0]) == Some(c) {
      assert 0 < |bs|;
    }
  }

  /** Releasing one key puts its control at rest and leaves every other control as it was. */
  lemma ReleaseOne(q: Pad, key: string, c: Control)
    ensures Value(KeyEffect(q, key, false), c) == if BoundControl(key) == Some(c) then 0 else Value(q, c)
  {
  }

  /** Releasing a list of keys leaves every control they drive at rest and every other control as it was. */
  lemma {:induction false} ReleasesRest(p: Pad, bs: seq<string>, c: Control)
    ensures Value(Replay(p, ReleaseAll(bs)), c) == if Drives(bs, c) then 0 else Value(p, c)
    decreases |bs|
  {
    if bs != [] {
      var rest := bs[1..];
      ReleasesRest(p, rest, c);
      var q := Replay(p, ReleaseAll(rest));
      assert ReleaseAll(bs) == ReleaseAll(rest) + [Release(bs[0])];
      assert ReleaseAll(bs)[..|ReleaseAll(bs)| - 1] == ReleaseAll(rest);
      assert Replay(p, ReleaseAll(bs)) == KeyEffect(q, bs[0], false);
      ReleaseOne(q, bs[0], c);
      DrivesCons(bs, c);
    }
  }

  /**
   * A skill step leaves every control its buttons drive at rest and every
   * other control as it found it.
   */
  lemma StepLeavesNothingHeld(p: Pad, step: SkillStep, c: Control)
    ensures Value(Replay(p, StepActions(step)), c) == if Drives(Buttons(step), c) then 0 else Value(p, c)
  {
    var bs := Buttons(step);
    var presses := PressAll(bs, HasGaps(step));
    var hold := [Delay(step.pressDurationMs)];
    ReplayAppend(p, presses, hold);
    ReplayAppend(p, presses + hold, ReleaseAll(bs));
    ReplayAppend(p, presses + hold + ReleaseAll(bs), Cooldown(step));
    var afterPresses := Replay(p, presses);
    DelaysKeepPad(Some(afterPresses), hold);
    var afterReleases := Replay(afterPresses, ReleaseAll(bs));
    DelaysKeepPad(Some(afterReleases), Cooldown(step));
    ReleasesRest(afterPresses, bs, c);
    if !Drives(bs, c) {
      PressesTouchOnlyBound(p, bs, HasGaps(step), c);
    }
  }

  // ---------------------------------------------------------------------------
  // Properties of the return loop
  // ---------------------------------------------------------------------------

  /**
   * The i-th stick write of the loop from iteration k is the correction of
   * tick k + i: that tick passed the loop test, had a window and a capture,
   * and its correction was not an arrival, so the write is not (0, 0).
   */
  lemma {:induction false} ReturnRunWrite(correct: Frame -> Correction, deadline: int, ticks: seq<Tick>, k: nat, i: nat)
    requires k <= |ticks| && i < |ReturnRunFrom(correct, deadline, ticks, k).1|
    ensures k + i < |ticks|
    ensures var t := ticks[k + i];
      && KeepsGoing(t, deadline) && t.handle != 0 && t.capture.Some?
      && !IsArrival(correct(t.capture.value))
      && ReturnRunFrom(correct, deadline, ticks, k).1[i] == (correct(t.capture.value).stickX, correct(t.capture.value).stickY)
      && ReturnRunFrom(correct, deadline, ticks, k).1[i] != (0, 0)
    decreases i
  {
    if i > 0 {
      var w := ReturnRunFrom(correct, deadline, ticks, k).1;
      var rest := ReturnRunFrom(correct, deadline, ticks, k + 1).1;
      assert w == [w[0]] + rest;
      ReturnRunWrite(correct, deadline, ticks, k + 1, i - 1);
      assert w[i] == rest[i - 1];
    }
  }

  /**
   * If the clock reads at least base + 50 (i - k) at iteration i, the loop
   * from iteration k writes only while 50 (writes - 1) < deadline - base.
   */
  lemma {:induction false} WritesWithinDeadline(correct: Frame -> Correction, deadline: int, base: int, ticks: seq<Tick>, k: nat)
    requires k <= |ticks|
    requires forall i | k <= i < |ticks| :: ticks[i].now >= base + CorrectionIntervalMs * (i - k)
    ensures var w := ReturnRunFrom(correct, deadline, ticks, k).1;
      |w| == 0 || CorrectionIntervalMs * (|w| - 1) < deadline - base
    decreases |ticks| - k
  {
    var w := ReturnRunFrom(correct, deadline, ticks, k).1;
    if |w| > 1 {
      forall i | k + 1 <= i < |ticks|
        ensures ticks[i].now >= base + CorrectionIntervalMs + CorrectionIntervalMs * (i - (k + 1))
      {
      }
      WritesWithinDeadline(correct, deadline, base + CorrectionIntervalMs, ticks, k + 1);
      assert w == [w[0]] + ReturnRunFrom(correct, deadline, ticks, k + 1).1;
    }
  }

  lemma {:induction false} ClockFloor(start: int, ticks: seq<Tick>, i: nat)
    requires i < |ticks|
    requires ticks[0].now >= start
    requires forall j | 0 <= j < |ticks| - 1 :: ticks[j + 1].now >= ticks[j].now + CorrectionIntervalMs
    ensures ticks[i].now >= start + CorrectionIntervalMs * i
  {
    if i > 0 {
      ClockFloor(start, ticks, i - 1);
    }
  }

  /**
   * When the clock advances at least 50 ms per iteration, the loop makes at
   * most 60 stick writes before its final (0, 0).
   */
  lemma AtMostSixtyWrites(target: Point, start: int, ticks: seq<Tick>, sqrt: real -> real)
    requires IsSqrt(sqrt)
    requires |ticks| > 0 && ticks[0].now >= start
    requires forall j | 0 <= j < |ticks| - 1 :: ticks[j + 1].now >= ticks[j].now + CorrectionIntervalMs
    ensures |ReturnRun(target, start + ReturnTimeoutMs, ticks, sqrt).1| <= ReturnTimeoutMs / CorrectionIntervalMs
  {
    forall i | 0 <= i < |ticks|
      ensures ticks[i].now >= start + CorrectionIntervalMs * i
    {
      ClockFloor(start, ticks, i);
    }
    WritesWithinDeadline(Corrector(target, sqrt), start + ReturnTimeoutMs, start, ticks, 0);
  }

  /**
   * Every stick write points from where the arrow is toward the origin: its
   * x follows the origin's x offset and its y the (screen-inverted) y offset.
   */
  lemma WritesSteerTowardOrigin(target: Point, deadline: int, ticks: seq<Tick>, sqrt: real -> real, i: nat)
    requires IsSqrt(sqrt)
    requires i < |ReturnRun(target, deadline, ticks, sqrt).1|
    ensures i < |ticks| && ticks[i].capture.Some?
    ensures i < |ticks| && ticks[i].capture.Some? &&
      var w := ReturnRun(target, deadline, ticks, sqrt).1[i];
      var here := Locate(ticks[i].capture.value).center;
      && here.Some?
      && SquaredDistance(target, here.value) >= 100
      && Follows(w.0, target.x - here.value.x) && Follows(w.1, here.value.y - target.y)
  {
    var w := ReturnRun(target, deadline, ticks, sqrt).1;
    ReturnRunWrite(Corrector(target, sqrt), deadline, ticks, 0, i);
    var frame := ticks[i].capture.value;
    var c := CorrectionAt(target, frame, sqrt);
    assert Corrector(target, sqrt)(frame) == c;
    assert w[i] == (c.stickX, c.stickY);
    SteeringCorrection(target, frame, sqrt);
  }

  /** A correction that is not an arrival comes from a visible arrow at least 10 pixels away and points back to the origin. */
  lemma SteeringCorrection(target: Point, frame: Frame, sqrt: real -> real)
    requires IsSqrt(sqrt)
    requires !IsArrival(CorrectionAt(target, frame, sqrt))
    ensures var here := Locate(frame).center;
      && here.Some?
      && SquaredDistance(target, here.value) >= 100
      && Follows(CorrectionAt(target, frame, sqrt).stickX, target.x - here.value.x)
      && Follows(CorrectionAt(target, frame, sqrt).stickY, here.value.y - target.y)
  {
    var here := Locate(frame).center;
    if here.Some? {
      var c := CorrectionFor(target, here.value, sqrt);
      assert CorrectionAt(target, frame, sqrt) == c;
      assert c.stickX != 0 || c.stickY != 0;
    }
  }

  /** The return loop reports arrival without writing when the arrow sits on the origin. */
  lemma OnOriginNoWrites(target: Point, deadline: int, ticks: seq<Tick>, sqrt: real -> real)
    requires IsSqrt(sqrt)
    requires |ticks| > 0 && KeepsGoing(ticks[0], deadline) && ticks[0].handle != 0 && ticks[0].capture.Some?
    requires Locate(ticks[0].capture.value).center == Some(target)
    ensures ReturnRun(target, deadline, ticks, sqrt) == (Arrived, [])
  {
    OriginRoundTrip(target, sqrt);
    assert Corrector(target, sqrt)(ticks[0].capture.value) == NoCorrection;
  }

  // ---------------------------------------------------------------------------
  // Properties of the handlers
  // ---------------------------------------------------------------------------

  /** F9 and F10 are idempotent; F7 twice restores the overlay. */
  lemma HandlersIdempotent(f: AppFlags)
    ensures Started(f).running && Started(Started(f)) == Started(f)
    ensures !Stopped(f).running && Stopped(Stopped(f)) == Stopped(f)
    ensures OverlayToggled(OverlayToggled(f)) == f
    ensures f.running && f.cts.Some? ==> Stopped(f).cts == Some(true)
    ensures !f.running ==> Stopped(f) == f
  {
  }

  /** F8 pressed twice with the arrow visible sets the origin back after clearing it. */
  lemma OriginToggleTwice(target: Point, handle: int, frame: Frame)
    requires handle != 0 && Locate(frame).center.Some?
    ensures ToggleOrigin(ToggleOrigin(Some(target), handle, Some(frame)), handle, Some(frame)) == Locate(frame).center
  {
  }
}
