/** Which step a differential goal is sent on, and when an early stop counts as progress, in every run. */
module TrajectoryOrders {
  import opened Options
  import opened Trajectory
  import opened TrajectoryRuns

  /** The step was chosen by the reading: rotate, drive straight or turn at the goal, and nothing else. */
  ghost predicate Justified(cfg: Config, goal: Target, o: Order) {
    var near := if cfg.positionTolerance < 0.01 then 0.01 else cfg.positionTolerance;
    var aligned := if cfg.headingTolerance < 0.01 then 0.01 else cfg.headingTolerance;
    var r := o.reading;
    && o.target == goal
    && (o.step == "align" || o.step == "drive" || o.step == "final_turn")
    && (o.step == "align" ==>
          && r.distance > near && (r.dy > near || r.dy < -near)
          && o.pose == BodyPose(0.0, 0.0, r.bearing) && o.error == Size(r.bearing))
    && (o.step == "drive" ==>
          && r.distance > near && -near <= r.dy <= near
          && o.pose == BodyPose(r.dx, 0.0, 0.0) && o.error == r.distance)
    && (o.step == "final_turn" ==>
          && r.distance <= near && goal.yaw.Some? && (r.yaw > aligned || r.yaw < -aligned)
          && o.pose == BodyPose(0.0, 0.0, r.yaw) && o.error == Size(r.yaw))
  }

  function Size(x: real): real { if x >= 0.0 then x else -x }

  /** Every goal sent for a step-by-step generation has its step on record, justified for that generation's goal. */
  ghost predicate OrdersJustified(s: Bridge, cfg: Config) {
    forall k: nat :: k < |s.sent| && s.sent[k] in s.goals ==> OrderJustified(s, cfg, k)
  }

  ghost predicate OrderJustified(s: Bridge, cfg: Config, k: nat)
    requires k < |s.sent| && s.sent[k] in s.goals
  {
    k in s.orders && Justified(cfg, s.goals[s.sent[k]], s.orders[k])
  }

  /** While a target is being driven to, the bridge remembers the step it last sent for it. */
  ghost predicate StepRemembered(s: Bridge) {
    s.target.Some? ==>
      && s.sent != [] && s.sent[|s.sent| - 1] == s.generation && |s.sent| - 1 in s.orders
      && s.step == s.orders[|s.sent| - 1].step && s.stepError == Some(s.orders[|s.sent| - 1].error)
  }

  ghost predicate OrderInv(s: Bridge, cfg: Config) {
    OrdersJustified(s, cfg) && StepRemembered(s)
  }

  lemma NextOrderJustified(cfg: Config, target: Target, r: Relative)
    requires !Reached(cfg, target, r)
    ensures Justified(cfg, target, NextOrder(cfg, target, r))
  {
  }

  lemma FinishKeepsOrders(s: Bridge, cfg: Config, status: string, proof: Option<(Target, Relative)>)
    requires OrdersJustified(s, cfg)
    ensures OrderInv(Finish(s, status, proof), cfg)
  {
    var t := Finish(s, status, proof);
    forall k: nat | k < |t.sent| && t.sent[k] in t.goals ensures OrderJustified(t, cfg, k) {
      assert OrderJustified(s, cfg, k);
    }
  }

  lemma TakenStepIsSent(s: Bridge, cfg: Config, order: Order, raises: bool)
    requires OrdersJustified(s, cfg) && s.target.Some? && s.generation in s.goals
    requires Justified(cfg, s.goals[s.generation], order)
    ensures OrderInv(Send(TakeStep(s, order, raises), s.generation, order.step, raises), cfg)
  {
    var t := TakeStep(s, order, raises);
    if raises {
      forall k: nat | k < |t.sent| && t.sent[k] in t.goals ensures OrderJustified(t, cfg, k) {
        assert OrderJustified(s, cfg, k);
      }
      FinishKeepsOrders(t.(step := order.step), cfg, "failed", None);
    } else {
      var n := Send(t, s.generation, order.step, false);
      forall k: nat | k < |n.sent| && n.sent[k] in n.goals ensures OrderJustified(n, cfg, k) {
        assert k < |s.sent| ==> OrderJustified(s, cfg, k);
      }
    }
  }

  lemma ContinueKeepsOrders(s: Bridge, cfg: Config, reading: Option<Relative>, raises: bool)
    requires OrdersJustified(s, cfg) && TargetIsGoal(s) && s.target.Some?
    ensures OrderInv(Continue(s, cfg, s.generation, reading, raises), cfg)
  {
    FinishKeepsOrders(s, cfg, "failed", None);
    if reading.Some? {
      if Reached(cfg, s.target.value, reading.value) {
        FinishKeepsOrders(s, cfg, "succeeded", Some((s.target.value, reading.value)));
      } else {
        var order := NextOrder(cfg, s.target.value, reading.value);
        NextOrderJustified(cfg, s.target.value, reading.value);
        TakenStepIsSent(s, cfg, order, raises);
      }
    }
  }

  /** A new generation's goal concerns none of the goals sent before. */
  lemma BeginKeepsOrders(s: Bridge, cfg: Config, goal: Target, differential: bool)
    requires Inv(s, cfg) && OrdersJustified(s, cfg)
    ensures OrdersJustified(Begin(s, goal, differential), cfg)
  {
    var d := Begin(s, goal, differential);
    forall k: nat | k < |d.sent| && d.sent[k] in d.goals ensures OrderJustified(d, cfg, k) {
      assert s.sent[k] <= s.generation;
      assert OrderJustified(s, cfg, k);
    }
  }

  lemma HolonomicKeepsOrders(d: Bridge, cfg: Config, raises: bool)
    requires OrdersJustified(d, cfg) && d.target.None? && d.generation !in d.goals
    ensures OrderInv(Send(d, d.generation, "holonomic", raises), cfg)
  {
    if raises {
      var t := d.(step := "holonomic");
      forall k: nat | k < |t.sent| && t.sent[k] in t.goals ensures OrderJustified(t, cfg, k) {
        assert OrderJustified(d, cfg, k);
      }
      FinishKeepsOrders(t, cfg, "failed", None);
    } else {
      var n := Send(d, d.generation, "holonomic", false);
      forall k: nat | k < |n.sent| && n.sent[k] in n.goals ensures OrderJustified(n, cfg, k) {
        assert OrderJustified(d, cfg, k);
      }
    }
  }

  lemma NavigateKeepsOrders(s: Bridge, cfg: Config, goal: Target, env: NavigateEnv)
    requires Inv(s, cfg) && GoalInv(s, cfg) && OrderInv(s, cfg)
    ensures OrderInv(Navigate(s, cfg, goal, env), cfg)
  {
    if TakesGoal(env) {
      var d := Begin(s, goal, cfg.differential);
      BeginKeepsOrders(s, cfg, goal, cfg.differential);
      if cfg.differential {
        ContinueKeepsOrders(d, cfg, env.reading, env.raises);
        assert Navigate(s, cfg, goal, env) == Continue(d, cfg, d.generation, env.reading, env.raises);
      } else {
        NewGeneration(s, d, cfg);
        HolonomicKeepsOrders(d, cfg, env.raises);
        assert Navigate(s, cfg, goal, env) == Send(d, d.generation, "holonomic", env.raises);
      }
    } else {
      SameHistory(s, Navigate(s, cfg, goal, env), cfg);
    }
  }

  /** Steps that neither send nor start anything. */
  lemma SameHistory(s: Bridge, t: Bridge, cfg: Config)
    requires OrdersJustified(s, cfg) && t.sent == s.sent && t.goals == s.goals && t.orders == s.orders
    ensures OrdersJustified(t, cfg)
  {
    forall k: nat | k < |t.sent| && t.sent[k] in t.goals ensures OrderJustified(t, cfg, k) {
      assert OrderJustified(s, cfg, k);
    }
  }

  lemma ResponseKeepsOrders(s: Bridge, cfg: Config, request: nat, response: Response)
    requires OrderInv(s, cfg) && request in s.requests
    ensures OrderInv(OnResponse(s, request, response), cfg)
  {
    var a := s.(requests := s.requests - {request});
    SameHistory(s, a, cfg);
    FinishKeepsOrders(a, cfg, "failed", None);
    SameHistory(s, OnResponse(s, request, response), cfg);
  }

  lemma ResultKeepsOrders(s: Bridge, cfg: Config, h: Handle, outcome: Outcome, progress: Option<Relative>,
                          reading: Option<Relative>, raises: bool)
    requires GoalInv(s, cfg) && OrderInv(s, cfg) && h in s.awaited
    ensures OrderInv(OnResult(s, cfg, h, outcome, progress, reading, raises), cfg)
  {
    var a := s.(awaited := s.awaited - {h});
    SameHistory(s, a, cfg);
    FinishKeepsOrders(a, cfg, "failed", None);
    FinishKeepsOrders(a, cfg, "cancelled", None);
    FinishKeepsOrders(a, cfg, "succeeded", None);
    if s.target.Some? {
      SameHistory(s, a.(handle := None), cfg);
      ContinueKeepsOrders(a.(handle := None), cfg, reading, raises);
    }
  }

  lemma CallbackKeepsOrders(s: Bridge, cfg: Config, step: Step)
    requires GoalInv(s, cfg) && OrderInv(s, cfg) && (step.ResponseStep? || step.ResultStep?)
    ensures OrderInv(Next(s, cfg, step), cfg)
  {
    match step
    case ResponseStep(request, response) =>
      if request in s.requests {
        ResponseKeepsOrders(s, cfg, request, response);
      }
    case ResultStep(h, outcome, progress, reading, raises) =>
      if h in s.awaited {
        ResultKeepsOrders(s, cfg, h, outcome, progress, reading, raises);
      }
  }

  lemma OperatorKeepsOrders(s: Bridge, cfg: Config, moving: bool)
    requires OrderInv(s, cfg)
    ensures OrderInv(Cancel(s), cfg) && OrderInv(Drive(s, moving), cfg)
  {
    SameHistory(s, Cancel(s), cfg);
    SameHistory(s, Drive(s, moving), cfg);
  }

  lemma NextKeepsOrders(s: Bridge, cfg: Config, step: Step)
    requires Inv(s, cfg) && GoalInv(s, cfg) && OrderInv(s, cfg)
    ensures OrderInv(Next(s, cfg, step), cfg)
  {
    match step {
      case NavigateStep(goal, env) => NavigateKeepsOrders(s, cfg, goal, env);
      case CancelStep => OperatorKeepsOrders(s, cfg, false);
      case DriveStep(moving) => OperatorKeepsOrders(s, cfg, moving);
      case _ => CallbackKeepsOrders(s, cfg, step);
    }
  }

  lemma {:induction false} RunKeepsOrders(s: Bridge, cfg: Config, steps: seq<Step>)
    requires Inv(s, cfg) && GoalInv(s, cfg) && OrderInv(s, cfg)
    ensures OrderInv(Run(s, cfg, steps), cfg)
    decreases steps
  {
    if steps != [] {
      NextKeepsInv(s, cfg, steps[0]);
      NextKeepsGoals(s, cfg, steps[0]);
      NextKeepsOrders(s, cfg, steps[0]);
      RunKeepsOrders(Next(s, cfg, steps[0]), cfg, steps[1..]);
    }
  }

  /**
   * In every run, each goal sent for a differential generation was chosen by the reading behind it: a rotation only for
   * a lateral miss beyond the position tolerance, a straight drive only for one within it, a final turn only at the
   * goal and for a heading that was asked for and missed.
   */
  lemma StepsAreJustified(cfg: Config, steps: seq<Step>, k: nat)
    requires var s := Run(INITIALLY, cfg, steps); k < |s.sent| && s.sent[k] in s.goals
    ensures var s := Run(INITIALLY, cfg, steps);
      k in s.orders && Justified(cfg, s.goals[s.sent[k]], s.orders[k])
  {
    RunKeepsOrders(INITIALLY, cfg, steps);
    assert OrderJustified(Run(INITIALLY, cfg, steps), cfg, k);
  }

  // ---- progress

  /** The step a target is being driven by, in any run. */
  lemma CurrentOrder(cfg: Config, steps: seq<Step>) returns (o: Order)
    requires Run(INITIALLY, cfg, steps).target.Some?
    ensures var s := Run(INITIALLY, cfg, steps);
      && s.sent != [] && s.sent[|s.sent| - 1] == s.generation && s.generation in s.goals
      && |s.sent| - 1 in s.orders && o == s.orders[|s.sent| - 1]
      && Justified(cfg, s.goals[s.generation], o) && s.step == o.step && s.stepError == Some(o.error)
  {
    RunKeepsOrders(INITIALLY, cfg, steps);
    RunKeepsGoals(INITIALLY, cfg, steps);
    var s := Run(INITIALLY, cfg, steps);
    assert OrderJustified(s, cfg, |s.sent| - 1);
    o := s.orders[|s.sent| - 1];
  }

  /** The remaining error of a step has come within its tolerance, or shrunk by its least useful amount. */
  ghost predicate Improved(cfg: Config, o: Order, now: Relative) {
    var near := if cfg.positionTolerance < 0.01 then 0.01 else cfg.positionTolerance;
    var aligned := if cfg.headingTolerance < 0.01 then 0.01 else cfg.headingTolerance;
    var metres := if cfg.minProgress < 0.005 then 0.005 else cfg.minProgress;
    var radians := if cfg.minProgressHeading < 0.005 then 0.005 else cfg.minProgressHeading;
    if o.step == "drive" then now.distance <= near || now.distance <= o.reading.distance - metres
    else
      var (before, after) := if o.step == "align" then (o.reading.bearing, now.bearing) else (o.reading.yaw, now.yaw);
      Size(after) <= aligned || Size(after) <= Size(before) - radians
  }

  /** In every run, a step the driver gave up on is carried on exactly when the reading behind it has improved. */
  lemma ProgressExactly(cfg: Config, steps: seq<Step>, reading: Option<Relative>)
    requires Run(INITIALLY, cfg, steps).target.Some?
    ensures var s := Run(INITIALLY, cfg, steps);
      && s.sent != [] && |s.sent| - 1 in s.orders
      && (MadeProgress(s, cfg, reading) <==>
            reading.Some? && Improved(cfg, s.orders[|s.sent| - 1], reading.value))
  {
    var o := CurrentOrder(cfg, steps);
  }

  /** The reading that caused a step, read again, is progress only for a rotation that was within tolerance already. */
  lemma StandingStillIsProgress(cfg: Config, steps: seq<Step>)
    requires Run(INITIALLY, cfg, steps).target.Some?
    ensures var s := Run(INITIALLY, cfg, steps);
      && s.sent != [] && |s.sent| - 1 in s.orders
      && var o := s.orders[|s.sent| - 1];
        (MadeProgress(s, cfg, Some(o.reading)) <==>
            && o.step == "align"
            && Size(o.reading.bearing) <= if cfg.headingTolerance < 0.01 then 0.01 else cfg.headingTolerance)
  {
    var o := CurrentOrder(cfg, steps);
    ProgressExactly(cfg, steps, Some(o.reading));
  }

  const SPOT := Config(true, 8, 0.15, 0.08, 0.03, 0.02)

  /** A goal 10 m ahead and 0.2 m to the side: rotated for, and taken for progress however little the robot turned. */
  lemma FarGoalRotatesForNothing()
    ensures var far := Relative(10.0, 0.2, 10.002, 0.02, 0.0);
      var goal := NavigateStep(Target(10.0, 0.2, None), NavigateEnv(true, true, true, Some(far), false));
      var s := Run(INITIALLY, SPOT, [goal]);
      s.step == "align" && MadeProgress(s, SPOT, Some(far))
  {
    var far := Relative(10.0, 0.2, 10.002, 0.02, 0.0);
    var env := NavigateEnv(true, true, true, Some(far), false);
    var goal := Target(10.0, 0.2, None);
    var steps := [NavigateStep(goal, env)];
    assert steps[1..] == [];
    assert Run(INITIALLY, SPOT, steps) == Run(Navigate(INITIALLY, SPOT, goal, env), SPOT, []);
  }
}
