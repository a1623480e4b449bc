/** The status the operator sees, against what is really under way, in every run of the trajectory bridge. */
module TrajectoryStatus {
  import opened Options
  import opened Trajectory
  import opened TrajectoryRuns

  /** A goal request or a result of the current generation is still to come. */
  ghost predicate SomePending(s: Bridge) {
    || (exists r :: r in s.requests && s.requests[r] == s.generation)
    || (exists h :: h in s.awaited && s.awaited[h] == s.generation)
  }

  ghost predicate ActiveIsPending(s: Bridge) {
    s.navStatus == "active" ==> SomePending(s)
  }

  lemma SendPends(s: Bridge, step: string, raises: bool)
    ensures ActiveIsPending(Send(s, s.generation, step, raises))
  {
    if !raises {
      var n := Send(s, s.generation, step, raises);
      assert |s.sent| in n.requests && n.requests[|s.sent|] == n.generation;
    }
  }

  lemma ContinuePends(s: Bridge, cfg: Config, reading: Option<Relative>, raises: bool)
    requires s.target.Some?
    ensures ActiveIsPending(Continue(s, cfg, s.generation, reading, raises))
  {
    if reading.Some? {
      var order := NextOrder(cfg, s.target.value, reading.value);
      SendPends(TakeStep(s, order, raises), order.step, raises);
    }
  }

  lemma NavigatePends(s: Bridge, cfg: Config, goal: Target, env: NavigateEnv)
    ensures ActiveIsPending(Navigate(s, cfg, goal, env))
  {
    var b := Begin(s, goal, cfg.differential);
    if cfg.differential {
      ContinuePends(b, cfg, env.reading, env.raises);
    } else {
      SendPends(b, "holonomic", env.raises);
    }
  }

  lemma ResponsePends(s: Bridge, request: nat, response: Response)
    requires ActiveIsPending(s) && request in s.requests
    ensures ActiveIsPending(OnResponse(s, request, response))
  {
    var n := OnResponse(s, request, response);
    if s.requests[request] == s.generation {
      assert response.Accepted? ==> request in n.awaited && n.awaited[request] == n.generation;
    } else if n.navStatus == "active" {
      if r :| r in s.requests && s.requests[r] == s.generation {
        assert r in n.requests && n.requests[r] == n.generation;
      }
    }
  }

  lemma ResultPends(s: Bridge, cfg: Config, h: Handle, outcome: Outcome, progress: Option<Relative>,
                    reading: Option<Relative>, raises: bool)
    requires ActiveIsPending(s) && h in s.awaited
    ensures ActiveIsPending(OnResult(s, cfg, h, outcome, progress, reading, raises))
  {
    if s.awaited[h] != s.generation {
      StaleResultPends(s, h);
    } else if s.target.Some? {
      ContinuePends(s.(awaited := s.awaited - {h}, handle := None), cfg, reading, raises);
    }
  }

  lemma StaleResultPends(s: Bridge, h: Handle)
    requires ActiveIsPending(s) && h in s.awaited && s.awaited[h] != s.generation
    ensures ActiveIsPending(s.(awaited := s.awaited - {h}))
  {
    var n := s.(awaited := s.awaited - {h});
    if k :| k in s.awaited && s.awaited[k] == s.generation {
      assert k in n.awaited && n.awaited[k] == n.generation;
    }
  }

  lemma NextPends(s: Bridge, cfg: Config, step: Step)
    requires ActiveIsPending(s)
    ensures ActiveIsPending(Next(s, cfg, step))
  {
    match step {
      case NavigateStep(goal, env) => NavigatePends(s, cfg, goal, env);
      case ResponseStep(request, response) =>
        if request in s.requests {
          ResponsePends(s, request, response);
        }
      case ResultStep(h, outcome, progress, reading, raises) =>
        if h in s.awaited {
          ResultPends(s, cfg, h, outcome, progress, reading, raises);
        }
      case _ =>
    }
  }

  lemma {:induction false} RunPends(s: Bridge, cfg: Config, steps: seq<Step>)
    requires ActiveIsPending(s)
    ensures ActiveIsPending(Run(s, cfg, steps))
    decreases steps
  {
    if steps != [] {
      NextPends(s, cfg, steps[0]);
      RunPends(Next(s, cfg, steps[0]), cfg, steps[1..]);
    }
  }

  /** In every run, a goal shown as active is one the action server still owes an answer for: none is forgotten. */
  lemma ActiveGoalIsOwed(cfg: Config, steps: seq<Step>)
    requires Run(INITIALLY, cfg, steps).navStatus == "active"
    ensures SomePending(Run(INITIALLY, cfg, steps))
  {
    RunPends(INITIALLY, cfg, steps);
  }

  // ---- cancelling

  /** Nothing is under way and nothing is to come. */
  ghost predicate AtRest(s: Bridge) {
    NonePending(s) && s.target.None? && s.handle.None? && s.navStatus != "active"
  }

  lemma CancelRests(s: Bridge, cfg: Config)
    requires Inv(s, cfg)
    ensures AtRest(Cancel(s)) && Cancel(s).navStatus == "cancelled" && Cancel(s).sent == s.sent
    ensures s.handle.Some? ==> s.handle.value in Cancel(s).cancelled
  {
    NewGeneration(s, Cancel(s), cfg);
  }

  lemma RestIsKept(s: Bridge, cfg: Config, step: Step)
    requires AtRest(s) && !step.NavigateStep? && !step.CancelStep?
    ensures AtRest(Next(s, cfg, step))
    ensures Next(s, cfg, step).sent == s.sent && Next(s, cfg, step).navStatus == s.navStatus
  {
  }

  lemma {:induction false} RestLasts(s: Bridge, cfg: Config, steps: seq<Step>)
    requires AtRest(s) && forall k :: 0 <= k < |steps| ==> !steps[k].NavigateStep? && !steps[k].CancelStep?
    ensures Run(s, cfg, steps).sent == s.sent && Run(s, cfg, steps).navStatus == s.navStatus
    decreases steps
  {
    if steps != [] {
      RestIsKept(s, cfg, steps[0]);
      RestLasts(Next(s, cfg, steps[0]), cfg, steps[1..]);
    }
  }

  /**
   * A cancel is final: whatever answers and results come in afterwards, no
   * Trajectory goal is sent and the status stays "cancelled" until a new goal is given.
   */
  lemma CancelIsFinal(cfg: Config, before: seq<Step>, after: seq<Step>)
    requires forall k :: 0 <= k < |after| ==> !after[k].NavigateStep? && !after[k].CancelStep?
    ensures var s := Run(INITIALLY, cfg, before);
      var r := Run(Next(s, cfg, CancelStep), cfg, after);
      r.sent == s.sent && r.navStatus == "cancelled"
  {
    RunKeepsInv(INITIALLY, cfg, before);
    CancelledLasts(Run(INITIALLY, cfg, before), cfg, after);
  }

  lemma CancelledLasts(s: Bridge, cfg: Config, after: seq<Step>)
    requires Inv(s, cfg) && forall k :: 0 <= k < |after| ==> !after[k].NavigateStep? && !after[k].CancelStep?
    ensures var r := Run(Next(s, cfg, CancelStep), cfg, after); r.sent == s.sent && r.navStatus == "cancelled"
  {
    var c := Next(s, cfg, CancelStep);
    CancelRests(s, cfg);
    RestLasts(c, cfg, after);
  }

  /** Operator motion ends what is under way exactly when the status still says so. */
  lemma DrivePreemptsExactly(cfg: Config, steps: seq<Step>)
    ensures var s := Run(INITIALLY, cfg, steps);
      var r := Drive(s, true);
      && (SomePending(r) <==> SomePending(s) && s.navStatus != "active")
      && r.mode == "teleop" && r.sent == s.sent
  {
    RunKeepsInv(INITIALLY, cfg, steps);
    DrivePreempts(Run(INITIALLY, cfg, steps), cfg);
  }

  lemma DrivePreempts(s: Bridge, cfg: Config)
    requires Inv(s, cfg)
    ensures var r := Drive(s, true);
      && (SomePending(r) <==> SomePending(s) && s.navStatus != "active")
      && r.mode == "teleop" && r.sent == s.sent
  {
    var r := Drive(s, true);
    if s.navStatus == "active" {
      CancelRests(s, cfg);
      assert NonePending(r);
    } else {
      assert r == s.(mode := "teleop");
    }
  }

  const STRAIGHT := Config(true, 8, 0.15, 0.08, 0.03, 0.02)

  lemma FirstStep(s: Bridge, cfg: Config, a: Step, rest: seq<Step>)
    ensures Run(s, cfg, [a] + rest) == Run(Next(s, cfg, a), cfg, rest)
  {
    assert ([a] + rest)[1..] == rest;
  }

  lemma FourSteps(s: Bridge, cfg: Config, a: Step, b: Step, c: Step, d: Step)
    ensures Run(s, cfg, [a, b, c, d]) == Next(Next(Next(Next(s, cfg, a), cfg, b), cfg, c), cfg, d)
  {
    var s1 := Next(s, cfg, a);
    var s2 := Next(s1, cfg, b);
    var s3 := Next(s2, cfg, c);
    FirstStep(s, cfg, a, [b, c, d]);
    FirstStep(s1, cfg, b, [c, d]);
    FirstStep(s2, cfg, c, [d]);
    FirstStep(s3, cfg, d, []);
    assert [a, b, c, d] == [a] + [b, c, d] && [b, c, d] == [b] + [c, d] && [c, d] == [c] + [d] && [d] == [d] + [];
  }

  /** A goal refused while another is executing hides that one: operator motion no longer preempts it. */
  lemma RefusedGoalHidesRunning()
    ensures var near := Relative(1.0, 0.0, 1.0, 0.0, 0.0);
      var first := NavigateStep(Target(1.0, 0.0, None), NavigateEnv(true, true, true, Some(near), false));
      var refused := NavigateStep(Target(2.0, 0.0, None), NavigateEnv(false, true, true, None, false));
      var s := Run(INITIALLY, STRAIGHT, [first, ResponseStep(0, Accepted), refused, DriveStep(true)]);
      SomePending(s) && s.handle == Some(0) && s.cancelled == {} && s.navStatus == "failed"
  {
    var near := Relative(1.0, 0.0, 1.0, 0.0, 0.0);
    var first := NavigateStep(Target(1.0, 0.0, None), NavigateEnv(true, true, true, Some(near), false));
    var refused := NavigateStep(Target(2.0, 0.0, None), NavigateEnv(false, true, true, None, false));
    var a := Next(INITIALLY, STRAIGHT, first);
    assert a.requests == map[0 := 1] && a.navStatus == "active";
    var b := Next(a, STRAIGHT, ResponseStep(0, Accepted));
    assert b.awaited == map[0 := 1] && b.handle == Some(0);
    var d := Next(Next(b, STRAIGHT, refused), STRAIGHT, DriveStep(true));
    assert 0 in d.awaited && d.awaited[0] == d.generation;
    FourSteps(INITIALLY, STRAIGHT, first, ResponseStep(0, Accepted), refused, DriveStep(true));
  }

  /** How a result of the current generation ends a goal that is not driven step by step. */
  lemma PlainResult(s: Bridge, cfg: Config, h: Handle, outcome: Outcome, progress: Option<Relative>,
                    reading: Option<Relative>, raises: bool)
    requires h in s.awaited && s.awaited[h] == s.generation && s.target.None?
    ensures var r := OnResult(s, cfg, h, outcome, progress, reading, raises);
      && r.mode == "idle" && r.handle.None? && r.sent == s.sent
      && r.navStatus == (
        if outcome.Outcome? && outcome.status == "succeeded" && outcome.success then "succeeded"
        else if outcome.Outcome? && outcome.status == "canceled" then "cancelled"
        else "failed")
  {
  }

  /** A cancel clears everything shown of the goal and opens a new generation. */
  lemma CancelClears(s: Bridge)
    ensures Cancel(s) == s.(generation := s.generation + 1, handle := None, navStatus := "cancelled", mode := "idle",
        target := None, step := "", stepCount := 0, stepError := None,
        cancelled := s.cancelled + if s.handle.Some? then {s.handle.value} else {})
  {
    assert s.cancelled + {} == s.cancelled;
  }

  /** The goal is over: reported once under its own generation, and nothing of it is left. */
  ghost predicate OverAs(s: Bridge, r: Bridge, status: string) {
    && r.navStatus == status && r.mode == "idle" && r.handle.None? && r.target.None? && r.step == "" && r.stepCount == 0
    && r.stepError.None? && r.generation == s.generation && r.sent == s.sent && r.cancelled == s.cancelled
    && |r.reports| == |s.reports| + 1 && r.reports[..|s.reports|] == s.reports
    && r.reports[|s.reports|].generation == s.generation && r.reports[|s.reports|].status == status
  }

  lemma FinishIsOver(s: Bridge, status: string, proof: Option<(Target, Relative)>)
    ensures OverAs(s, Finish(s, status, proof), status)
  {
  }

  /** The remaining error is within the tolerances, never taken below a centimetre and a hundredth of a radian. */
  ghost predicate Arrived(cfg: Config, target: Target, r: Relative) {
    && r.distance <= (if cfg.positionTolerance < 0.01 then 0.01 else cfg.positionTolerance)
    && (target.yaw.Some? ==>
          var aligned := if cfg.headingTolerance < 0.01 then 0.01 else cfg.headingTolerance;
          -aligned <= r.yaw <= aligned)
  }

  /**
   * The next step of a target: sent exactly when the budget allows one, the error is known and not yet small enough and
   * sending does not raise; an error small enough within the budget is success; anything else is failure.
   */
  lemma ContinueDecides(s: Bridge, cfg: Config, reading: Option<Relative>, raises: bool)
    requires s.target.Some?
    ensures var r := Continue(s, cfg, s.generation, reading, raises);
      var left := s.stepCount < (if cfg.maxSteps > 1 then cfg.maxSteps else 1);
      if left && reading.Some? && !Arrived(cfg, s.target.value, reading.value) && !raises then
        && r.sent == s.sent + [s.generation] && r.stepCount == s.stepCount + 1
        && r.target == s.target && r.navStatus == s.navStatus && r.mode == s.mode && r.reports == s.reports
      else
        var arrived := left && reading.Some? && Arrived(cfg, s.target.value, reading.value);
        OverAs(s, r, if arrived then "succeeded" else "failed")
  {
    if reading.Some? {
      var order := NextOrder(cfg, s.target.value, reading.value);
      var t := TakeStep(s, order, raises).(step := order.step);
      FinishIsOver(t, "failed", None);
      FinishIsOver(s, "succeeded", Some((s.target.value, reading.value)));
    }
    FinishIsOver(s, "failed", None);
  }

  /** The first step of a goal taken on: its budget is fresh, and its target is the goal. */
  lemma FirstStepDecides(s: Bridge, cfg: Config, goal: Target, env: NavigateEnv)
    requires TakesGoal(env) && cfg.differential
    ensures var r := Navigate(s, cfg, goal, env);
      if env.reading.Some? && !Arrived(cfg, goal, env.reading.value) && !env.raises then
        && r.sent == s.sent + [s.generation + 1] && r.stepCount == 1 && r.target == Some(goal)
        && r.navStatus == "active" && r.mode == "nav"
      else
        && r.sent == s.sent && r.target.None? && r.mode == "idle"
        && r.navStatus == if env.reading.Some? && Arrived(cfg, goal, env.reading.value) then "succeeded" else "failed"
  {
    var b := Begin(s, goal, true);
    ContinueDecides(b, cfg, env.reading, env.raises);
    assert Navigate(s, cfg, goal, env) == Continue(b, cfg, b.generation, env.reading, env.raises);
  }

  /** A new goal is refused without the server or a pose, refused to idle without the velocity limit, or begun. */
  lemma GoalTaken(s: Bridge, cfg: Config, goal: Target, env: NavigateEnv)
    ensures var r := Navigate(s, cfg, goal, env);
      if !env.serverReady || !env.poseKnown then r == s.(navStatus := "failed")
      else if !env.velocityLimited then r == s.(navStatus := "failed", mode := "idle")
      else
        && r.generation == s.generation + 1
        && (cfg.differential ==> r.goals == s.goals[r.generation := goal])
        && (!cfg.differential && !env.raises ==>
              r.sent == s.sent + [r.generation] && r.target.None? && r.navStatus == "active" && r.mode == "nav")
        && (!cfg.differential && env.raises ==> r.sent == s.sent && r.navStatus == "failed" && r.mode == "idle")
  {
  }

  /** What a result means to a target driven step by step: go on, or end. */
  lemma StepResult(s: Bridge, cfg: Config, h: Handle, outcome: Outcome, progress: Option<Relative>,
                   reading: Option<Relative>, raises: bool)
    requires h in s.awaited && s.awaited[h] == s.generation && s.target.Some?
    ensures var r := OnResult(s, cfg, h, outcome, progress, reading, raises);
      var a := s.(awaited := s.awaited - {h});
      if outcome.Outcome? && outcome.status == "succeeded" && outcome.success then
        r == Continue(a.(handle := None), cfg, s.generation, reading, raises)
      else if outcome.Outcome? && outcome.status != "canceled" && outcome.message == "not at goal"
        && MadeProgress(s, cfg, progress) then
        r == Continue(a.(handle := None), cfg, s.generation, reading, raises)
      else OverAs(a, r, if outcome.Outcome? && outcome.status == "canceled" then "cancelled" else "failed")
  {
    var a := s.(awaited := s.awaited - {h});
    FinishIsOver(a, "failed", None);
    FinishIsOver(a, "cancelled", None);
  }

  /** The answer to a request: a stale acceptance is cancelled, a current one kept, a current refusal ends the goal. */
  lemma ResponseDecides(s: Bridge, request: nat, response: Response)
    requires request in s.requests
    ensures var r := OnResponse(s, request, response);
      var a := s.(requests := s.requests - {request});
      if s.requests[request] != s.generation then
        r == a.(cancelled := s.cancelled + if response == Accepted then {request} else {})
      else if response == Accepted then
        r == a.(handle := Some(request), awaited := s.awaited[request := s.generation])
      else OverAs(a, r, "failed")
  {
    FinishIsOver(s.(requests := s.requests - {request}), "failed", None);
    assert s.cancelled + {} == s.cancelled;
  }

  lemma ZeroDriveChangesNothing(s: Bridge)
    ensures Drive(s, false) == s
  {
  }
}
