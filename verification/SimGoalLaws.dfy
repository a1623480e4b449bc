/** What each command and callback shows and publishes, the speed limits, and how long the reverse escape may last. */
module SimGoalLaws {
  import opened Options
  import opened SimGoals
  import opened SimGoalRuns

  /** A requested speed is passed on when it is within the limit, and cut to the limit on its own side otherwise. */
  lemma ClampedSpeed(v: real, limit: real)
    requires limit >= 0.0
    ensures var r := Clamp(v, limit);
      && -limit <= r <= limit
      && (-limit <= v <= limit ==> r == v) && (v > limit ==> r == limit) && (v < -limit ==> r == -limit)
  {
  }

  /** The robot has been taken from whatever goal it had, and that goal's handle told to cancel. */
  ghost predicate GoalDropped(s: Robot, r: Robot) {
    && r.generation == s.generation + 1 && r.handle.None? && r.goal.None? && r.escape.None?
    && (s.handle.Some? ==> s.handle.value in r.server.cancelled)
    && r.server.requests == s.server.requests
  }

  /** An operator drive: the goal dropped, an escape halted, and the velocity passed on within the limits. */
  lemma DriveTakesOver(s: Robot, linear: real, angular: real, now: real)
    requires -0.45 <= linear <= 0.45 && -1.2 <= angular <= 1.2
    ensures var r := Drive(s, linear, angular, now);
      var moves := linear > 0.001 || linear < -0.001 || angular > 0.001 || angular < -0.001;
      && GoalDropped(s, r) && r.navStatus == "idle" && r.mode == (if moves then "teleop" else "idle")
      && r.lastDriveAt == (if moves then now else 0.0)
      && r.twists == s.twists + (if s.escape.Some? then [Twist(0.0, 0.0)] else []) + [Twist(linear, angular)]
  {
    assert s.twists + [] == s.twists;
  }

  /** Stop, cancel and reset drop the goal and publish a zero; they differ in what is shown. */
  lemma HaltsDropGoal(s: Robot)
    ensures forall r :: r in [Stop(s), Cancel(s), Reset(s)] ==>
      && GoalDropped(s, r)
      && r.twists == s.twists + (if s.escape.Some? then [Twist(0.0, 0.0)] else []) + [Twist(0.0, 0.0)]
    ensures Stop(s).navStatus == "idle" && Stop(s).mode == "estop" && Stop(s).lastDriveAt == s.lastDriveAt
    ensures Cancel(s).navStatus == "cancelled" && Cancel(s).mode == "idle" && Cancel(s).lastDriveAt == s.lastDriveAt
    ensures Reset(s).navStatus == "idle" && Reset(s).mode == "idle" && Reset(s).lastDriveAt == 0.0
  {
    assert s.twists + [] == s.twists;
  }

  /** A new goal drops the old one; without a server it has failed already, otherwise its request is out. */
  lemma NewGoalSent(s: Robot, goal: Goal, serverReady: bool)
    ensures var r := NavigateTo(s, Some(goal), serverReady);
      && GoalDropped(s, r.(goal := None, server := r.server.(requests := s.server.requests)))
      && (if serverReady then
            && r.goal == Some(goal) && r.navStatus == "active" && r.mode == "nav"
            && r.server.requests == s.server.requests[s.server.nextRequest := s.generation + 1]
          else r.goal.None? && r.navStatus == "failed" && r.mode == "idle" && r.server.requests == s.server.requests)
  {
  }

  /** A goal that failed: shown, and the escape armed at the pose and time read then. */
  ghost predicate FailedAt(r: Robot, at: Reading) {
    && r.navStatus == "failed" && r.mode == "recover" && r.escape == Some(Escape(at.x, at.y, at.now, at.now))
    && r.goal.None? && r.handle.None?
  }

  /** How the current goal ends: by its result, where anything but success or cancellation is a failure. */
  lemma ResultEndsGoal(s: Robot, h: Handle, outcome: ResultOutcome, at: Reading)
    requires h in s.server.accepted && s.server.accepted[h] == s.generation
    ensures var r := OnResult(s, h, outcome, at);
      match outcome
      case Succeeded => r.navStatus == "succeeded" && r.mode == "idle" && r.goal.None? && r.escape == s.escape
      case Canceled => r.navStatus == "cancelled" && r.mode == "idle" && r.goal.None? && r.escape == s.escape
      case _ => FailedAt(r, at)
  {
  }

  /** Or by its request being turned down; an accepted one is kept, and its result awaited. */
  lemma ResponseDecides(s: Robot, request: nat, outcome: ResponseOutcome, at: Reading)
    requires request in s.server.requests && s.server.requests[request] == s.generation
    ensures var r := OnResponse(s, request, outcome, at);
      if outcome == Accepted then
        && r.handle == Some(s.server.nextHandle) && s.server.nextHandle in r.server.awaited
        && r.navStatus == s.navStatus && r.mode == s.mode && r.goal == s.goal && r.escape == s.escape
      else FailedAt(r, at)
  {
  }

  /** The drive watchdog stops a teleop that has not been refreshed in time, and nothing else. */
  lemma WatchdogStopsTeleop(s: Robot, now: real, timeout: real)
    ensures var r := DriveWatchdog(s, now, timeout);
      if s.mode == "teleop" && now - s.lastDriveAt > timeout
      then r == s.(twists := s.twists + [Twist(0.0, 0.0)], lastDriveAt := 0.0, mode := "idle")
      else r == s
  {
  }

  // ---- speed limits

  ghost predicate WithinLimits(twists: seq<Twist>) {
    forall k :: 0 <= k < |twists| ==> -0.45 <= twists[k].linear <= 0.45 && -1.2 <= twists[k].angular <= 1.2
  }

  lemma StepWithinLimits(s: Robot, step: Step)
    requires WithinLimits(s.twists)
    ensures WithinLimits(Next(s, step).twists)
  {
    if step.DriveStep? {
      ClampedSpeed(step.linear, 0.45);
      ClampedSpeed(step.angular, 1.2);
    }
  }

  lemma {:induction false} RunWithinLimits(s: Robot, steps: seq<Step>)
    requires WithinLimits(s.twists)
    ensures WithinLimits(Run(s, steps).twists)
    decreases steps
  {
    if steps != [] {
      StepWithinLimits(s, steps[0]);
      RunWithinLimits(Next(s, steps[0]), steps[1..]);
    }
  }

  /** In every run, whatever the operator asks for, no velocity beyond 0.45 m/s or 1.2 rad/s is published. */
  lemma SpeedsBounded(steps: seq<Step>)
    ensures forall t :: t in Run(INITIALLY, steps).twists ==> -0.45 <= t.linear <= 0.45 && -1.2 <= t.angular <= 1.2
  {
    RunWithinLimits(INITIALLY, steps);
  }

  // ---- the escape

  /** The escape goes on: less than 0.45 m back, at most 15 s old, and off the spot or given 2.5 s to get off it. */
  ghost predicate GoesOn(e: Escape, moved: real, now: real) {
    && moved < 0.45 && now - e.startedAt <= 15.0
    && (moved > 0.05 || now - e.progressAt <= 2.5)
  }

  lemma EscapeTickExactly(s: Robot, moved: real, now: real)
    requires s.escape.Some?
    ensures var r, e := EscapeTick(s, moved, now), s.escape.value;
      if GoesOn(e, moved, now) then
        r == s.(twists := s.twists + [Twist(-0.15, 0.0)],
                escape := Some(Escape(e.x, e.y, e.startedAt, if moved > 0.05 then now else e.progressAt)))
      else
        r == s.(twists := s.twists + [Twist(0.0, 0.0)], escape := None,
                mode := if s.mode == "recover" then "idle" else s.mode)
  {
  }

  function Reversing(n: nat): seq<Twist> {
    if n == 0 then [] else [Twist(-0.15, 0.0)] + Reversing(n - 1)
  }

  /**
   * Left alone, an escape is over at the first tick more than 15 s after the goal failed: some ticks of reverse, one
   * zero, and nothing afterwards however many ticks follow.
   */
  lemma {:induction false} EscapeEnds(s: Robot, steps: seq<Step>, k: nat) returns (n: nat)
    requires s.escape.Some? && k < |steps| && forall j :: 0 <= j < |steps| ==> steps[j].EscapeStep?
    requires steps[k].now - s.escape.value.startedAt > 15.0
    ensures n <= k && Run(s, steps).escape.None?
    ensures Run(s, steps).twists == s.twists + Reversing(n) + [Twist(0.0, 0.0)]
    decreases steps
  {
    var step, rest := steps[0], steps[1..];
    EscapeTickExactly(s, step.moved, step.now);
    var m := EscapeTick(s, step.moved, step.now);
    if GoesOn(s.escape.value, step.moved, step.now) {
      n := EscapeEnds(m, rest, k - 1);
      assert s.twists + [Twist(-0.15, 0.0)] + Reversing(n) == s.twists + ([Twist(-0.15, 0.0)] + Reversing(n));
      n := n + 1;
    } else {
      n := 0;
      NoEscapeTicks(m, rest);
      assert s.twists + [] == s.twists;
    }
  }

  lemma {:induction false} NoEscapeTicks(s: Robot, steps: seq<Step>)
    requires s.escape.None? && forall j :: 0 <= j < |steps| ==> steps[j].EscapeStep?
    ensures Run(s, steps) == s
    decreases steps
  {
    if steps != [] {
      NoEscapeTicks(s, steps[1..]);
    }
  }
}
