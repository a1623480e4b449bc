/** Runs of the trajectory bridge: goals, responses, results, cancels and teleop in any order. */
module TrajectoryRuns {
  import opened Options
  import opened Trajectory

  datatype Step =
    | NavigateStep(goal: Target, env: NavigateEnv)
    | ResponseStep(request: nat, response: Response)
    | ResultStep(handle: Handle, outcome: Outcome, progress: Option<Relative>, reading: Option<Relative>, raises: bool)
    | CancelStep
    | DriveStep(moving: bool)

  function Next(s: Bridge, cfg: Config, step: Step): Bridge {
    match step
    case NavigateStep(goal, env) => Navigate(s, cfg, goal, env)
    case ResponseStep(request, response) => if request in s.requests then OnResponse(s, request, response) else s
    case ResultStep(h, outcome, progress, reading, raises) =>
      if h in s.awaited then OnResult(s, cfg, h, outcome, progress, reading, raises) else s
    case CancelStep => Cancel(s)
    case DriveStep(moving) => Drive(s, moving)
  }

  function Run(s: Bridge, cfg: Config, steps: seq<Step>): Bridge
    decreases steps
  {
    if steps == [] then s else Run(Next(s, cfg, steps[0]), cfg, steps[1..])
  }

  /** How many Trajectory goals generation `g` has sent. */
  function SentIn(sent: seq<nat>, g: nat): nat {
    multiset(sent)[g]
  }

  /** No request or result of the current generation is still to come. */
  ghost predicate NonePending(s: Bridge) {
    && (forall r :: r in s.requests ==> s.requests[r] != s.generation)
    && (forall h :: h in s.awaited ==> s.awaited[h] != s.generation)
  }

  ghost predicate OnePending(s: Bridge) {
    && (forall r, q :: r in s.requests && q in s.requests && s.requests[r] == s.requests[q] == s.generation ==> r == q)
    && (forall h, k :: h in s.awaited && k in s.awaited && s.awaited[h] == s.awaited[k] == s.generation ==> h == k)
    && (forall r, h :: r in s.requests && h in s.awaited ==>
        s.requests[r] != s.generation || s.awaited[h] != s.generation)
  }

  /** Goals go out in generation order, never for a superseded generation. */
  ghost predicate SentInOrder(s: Bridge) {
    && (forall k :: 0 <= k < |s.sent| ==> s.sent[k] <= s.generation)
    && (forall j, k :: 0 <= j < k < |s.sent| ==> s.sent[j] <= s.sent[k])
  }

  ghost predicate Known(s: Bridge) {
    && (forall r :: r in s.requests ==> r < |s.sent| && s.requests[r] <= s.generation && r !in s.awaited)
    && (forall h :: h in s.awaited ==> h < |s.sent| && s.awaited[h] <= s.generation)
    && (forall g :: g in s.goals ==> g <= s.generation)
  }

  /** A step-by-step generation sends at most the step limit, any other at most one goal. */
  ghost predicate SendsBounded(s: Bridge, cfg: Config) {
    forall g: nat :: SentIn(s.sent, g) <= if g in s.goals then cfg.StepLimit() else 1
  }

  ghost predicate TargetTracked(s: Bridge) {
    && (s.target.Some? ==> s.generation in s.goals && SentIn(s.sent, s.generation) <= s.stepCount)
    && (s.generation in s.goals && s.target.None? ==> NonePending(s))
  }

  /** Everything but what is pending for the current generation. */
  ghost predicate History(s: Bridge, cfg: Config) {
    SentInOrder(s) && Known(s) && SendsBounded(s, cfg)
  }

  ghost predicate Inv(s: Bridge, cfg: Config) {
    OnePending(s) && TargetTracked(s) && History(s, cfg)
  }

  lemma NeverSent(sent: seq<nat>, g: nat)
    requires forall k :: 0 <= k < |sent| ==> sent[k] != g
    ensures SentIn(sent, g) == 0
  {
  }

  lemma SentOneMore(sent: seq<nat>, g: nat)
    ensures forall x: nat :: SentIn(sent + [g], x) == SentIn(sent, x) + if x == g then 1 else 0
  {
    assert multiset(sent + [g]) == multiset(sent) + multiset{g};
  }

  lemma FinishKeeps(s: Bridge, cfg: Config, status: string, proof: Option<(Target, Relative)>)
    requires NonePending(s) && History(s, cfg)
    ensures Inv(Finish(s, status, proof), cfg)
  {
  }

  /** Sending is safe when nothing of this generation is pending and its share is not used up. */
  lemma SendKeeps(s: Bridge, cfg: Config, step: string, raises: bool)
    requires NonePending(s) && History(s, cfg)
    requires s.target.Some? <==> s.generation in s.goals
    requires if s.target.Some?
        then SentIn(s.sent, s.generation) < cfg.StepLimit() && SentIn(s.sent, s.generation) < s.stepCount
             else SentIn(s.sent, s.generation) == 0
    ensures Inv(Send(s, s.generation, step, raises), cfg)
  {
    if raises {
      FinishKeeps(s.(step := step), cfg, "failed", None);
    } else {
      SentOneMore(s.sent, s.generation);
    }
  }

  lemma ContinueKeeps(s: Bridge, cfg: Config, reading: Option<Relative>, raises: bool)
    requires NonePending(s) && History(s, cfg)
    requires s.target.Some? && s.generation in s.goals && SentIn(s.sent, s.generation) <= s.stepCount
    ensures Inv(Continue(s, cfg, s.generation, reading, raises), cfg)
  {
    if s.stepCount >= cfg.StepLimit() || reading.None? {
      FinishKeeps(s, cfg, "failed", None);
    } else if Reached(cfg, s.target.value, reading.value) {
      FinishKeeps(s, cfg, "succeeded", Some((s.target.value, reading.value)));
    } else {
      var order := NextOrder(cfg, s.target.value, reading.value);
      var t := TakeStep(s, order, raises);
      SendKeeps(t, cfg, order.step, raises);
      assert Continue(s, cfg, s.generation, reading, raises) == Send(t, s.generation, order.step, raises);
    }
  }

  lemma NewGeneration(s: Bridge, t: Bridge, cfg: Config)
    requires Inv(s, cfg) && t.generation == s.generation + 1
    requires t.requests == s.requests && t.awaited == s.awaited && t.sent == s.sent && t.reports == s.reports
    requires s.goals.Keys <= t.goals.Keys <= s.goals.Keys + {t.generation}
    ensures NonePending(t) && History(t, cfg) && SentIn(t.sent, t.generation) == 0
    ensures t.goals == s.goals ==> t.generation !in t.goals
  {
    NeverSent(t.sent, t.generation);
  }

  lemma NavigateKeeps(s: Bridge, cfg: Config, goal: Target, env: NavigateEnv)
    requires Inv(s, cfg)
    ensures Inv(Navigate(s, cfg, goal, env), cfg)
  {
    if TakesGoal(env) {
      if cfg.differential {
        NavigateDifferential(s, cfg, goal, env);
      } else {
        NavigateHolonomic(s, cfg, goal, env);
      }
    }
  }

  lemma NavigateDifferential(s: Bridge, cfg: Config, goal: Target, env: NavigateEnv)
    requires Inv(s, cfg) && TakesGoal(env) && cfg.differential
    ensures Inv(Navigate(s, cfg, goal, env), cfg)
  {
    var d := Begin(s, goal, true);
    NewGeneration(s, d, cfg);
    ContinueKeeps(d, cfg, env.reading, env.raises);
    assert Navigate(s, cfg, goal, env) == Continue(d, cfg, d.generation, env.reading, env.raises);
  }

  lemma NavigateHolonomic(s: Bridge, cfg: Config, goal: Target, env: NavigateEnv)
    requires Inv(s, cfg) && TakesGoal(env) && !cfg.differential
    ensures Inv(Navigate(s, cfg, goal, env), cfg)
  {
    var d := Begin(s, goal, false);
    NewGeneration(s, d, cfg);
    SendKeeps(d, cfg, "holonomic", env.raises);
    assert Navigate(s, cfg, goal, env) == Send(d, d.generation, "holonomic", env.raises);
  }

  lemma ConsumeRequest(s: Bridge, cfg: Config, request: nat)
    requires Inv(s, cfg) && request in s.requests
    ensures var a := s.(requests := s.requests - {request});
      History(a, cfg) && if s.requests[request] == s.generation then NonePending(a)
          else OnePending(a) && TargetTracked(a)
  {
  }

  lemma ConsumeResult(s: Bridge, cfg: Config, h: Handle)
    requires Inv(s, cfg) && h in s.awaited
    ensures var a := s.(awaited := s.awaited - {h});
      History(a, cfg) && if s.awaited[h] == s.generation then NonePending(a) else OnePending(a) && TargetTracked(a)
  {
  }

  lemma ResponseKeeps(s: Bridge, cfg: Config, request: nat, response: Response)
    requires Inv(s, cfg) && request in s.requests
    ensures Inv(OnResponse(s, request, response), cfg)
  {
    ConsumeRequest(s, cfg, request);
    var a := s.(requests := s.requests - {request});
    if s.requests[request] == s.generation {
      FinishKeeps(a, cfg, "failed", None);
      AwaitKeeps(a, cfg, request);
    }
  }

  /** An accepted goal takes its request's place. */
  lemma AwaitKeeps(a: Bridge, cfg: Config, h: Handle)
    requires NonePending(a) && History(a, cfg) && h < |a.sent| && h !in a.requests
    requires a.target.Some? ==> a.generation in a.goals && SentIn(a.sent, a.generation) <= a.stepCount
    requires a.generation in a.goals ==> a.target.Some?
    ensures Inv(a.(handle := Some(h), awaited := a.awaited[h := a.generation]), cfg)
  {
  }

  lemma ResultKeeps(s: Bridge, cfg: Config, h: Handle, outcome: Outcome, progress: Option<Relative>,
      reading: Option<Relative>, raises: bool)
    requires Inv(s, cfg) && h in s.awaited
    ensures Inv(OnResult(s, cfg, h, outcome, progress, reading, raises), cfg)
  {
    ConsumeResult(s, cfg, h);
    var a := s.(awaited := s.awaited - {h});
    var r := OnResult(s, cfg, h, outcome, progress, reading, raises);
    if s.awaited[h] == s.generation {
      if r == Continue(a.(handle := None), cfg, s.generation, reading, raises) && s.target.Some? {
        ContinueKeeps(a.(handle := None), cfg, reading, raises);
      } else {
        var status := if s.target.None? && r == Finish(a, "succeeded", None) then "succeeded"
                      else if r == Finish(a, "cancelled", None) then "cancelled" else "failed";
        FinishKeeps(a, cfg, status, None);
      }
    }
  }

  lemma CancelKeeps(s: Bridge, cfg: Config)
    requires Inv(s, cfg)
    ensures Inv(Cancel(s), cfg)
  {
    NewGeneration(s, Cancel(s), cfg);
  }

  lemma DriveKeeps(s: Bridge, cfg: Config, moving: bool)
    requires Inv(s, cfg)
    ensures Inv(Drive(s, moving), cfg)
  {
    CancelKeeps(s, cfg);
    ModeKeeps(s, cfg, "teleop");
    ModeKeeps(Cancel(s), cfg, "teleop");
  }

  lemma ModeKeeps(s: Bridge, cfg: Config, mode: string)
    requires Inv(s, cfg)
    ensures Inv(s.(mode := mode), cfg)
  {
  }

  lemma CallbackKeeps(s: Bridge, cfg: Config, step: Step)
    requires Inv(s, cfg) && (step.ResponseStep? || step.ResultStep?)
    ensures Inv(Next(s, cfg, step), cfg)
  {
    match step
    case ResponseStep(request, response) =>
      if request in s.requests {
        ResponseKeeps(s, cfg, request, response);
      }
    case ResultStep(h, outcome, progress, reading, raises) =>
      if h in s.awaited {
        ResultKeeps(s, cfg, h, outcome, progress, reading, raises);
      }
  }

  lemma NextKeepsInv(s: Bridge, cfg: Config, step: Step)
    requires Inv(s, cfg)
    ensures Inv(Next(s, cfg, step), cfg)
  {
    match step {
      case NavigateStep(goal, env) => NavigateKeeps(s, cfg, goal, env);
      case CancelStep => CancelKeeps(s, cfg);
      case DriveStep(moving) => DriveKeeps(s, cfg, moving);
      case _ => CallbackKeeps(s, cfg, step);
    }
  }

  lemma {:induction false} RunKeepsInv(s: Bridge, cfg: Config, steps: seq<Step>)
    requires Inv(s, cfg)
    ensures Inv(Run(s, cfg, steps), cfg)
    decreases steps
  {
    if steps != [] {
      NextKeepsInv(s, cfg, steps[0]);
      RunKeepsInv(Next(s, cfg, steps[0]), cfg, steps[1..]);
    }
  }

  // ---- what "succeeded" means

  /** The reading is within tolerance of the goal the generation was started for. */
  ghost predicate ProvenBy(s: Bridge, cfg: Config, generation: nat, proof: (Target, Relative))
    requires generation in s.goals
  {
    proof.0 == s.goals[generation] && Reached(cfg, proof.0, proof.1)
  }

  /** A differential goal is reported reached only on an error reading within tolerance of that very goal. */
  ghost predicate SuccessProven(s: Bridge, cfg: Config) {
    forall k :: 0 <= k < |s.reports| && s.reports[k].status == "succeeded" && s.reports[k].generation in s.goals ==>
      s.reports[k].proof.Some? && ProvenBy(s, cfg, s.reports[k].generation, s.reports[k].proof.value)
  }

  ghost predicate ReportsKnown(s: Bridge) {
    forall k :: 0 <= k < |s.reports| ==> s.reports[k].generation <= s.generation
  }

  /** A step-by-step target is the goal its generation was started for. */
  ghost predicate TargetIsGoal(s: Bridge) {
    s.target.Some? ==> s.generation in s.goals && s.target == Some(s.goals[s.generation])
  }

  ghost predicate GoalInv(s: Bridge, cfg: Config) {
    TargetIsGoal(s) && SuccessProven(s, cfg) && ReportsKnown(s)
  }

  lemma FinishKeepsGoals(s: Bridge, cfg: Config, status: string, proof: Option<(Target, Relative)>)
    requires SuccessProven(s, cfg) && ReportsKnown(s)
    requires status == "succeeded" && s.generation in s.goals ==>
        proof.Some? && ProvenBy(s, cfg, s.generation, proof.value)
    ensures GoalInv(Finish(s, status, proof), cfg)
  {
  }

  lemma ContinueKeepsGoals(s: Bridge, cfg: Config, reading: Option<Relative>, raises: bool)
    requires GoalInv(s, cfg)
    ensures GoalInv(Continue(s, cfg, s.generation, reading, raises), cfg)
  {
    if s.target.Some? {
      FinishKeepsGoals(s, cfg, "failed", None);
      if reading.Some? {
        if Reached(cfg, s.target.value, reading.value) {
          FinishKeepsGoals(s, cfg, "succeeded", Some((s.target.value, reading.value)));
        } else {
          var order := NextOrder(cfg, s.target.value, reading.value);
          FinishKeepsGoals(TakeStep(s, order, raises).(step := order.step), cfg, "failed", None);
        }
      }
    }
  }

  lemma NewGoal(s: Bridge, t: Bridge, cfg: Config, goal: Target)
    requires SuccessProven(s, cfg) && ReportsKnown(s) && t.reports == s.reports && t.generation == s.generation + 1
    requires t.goals == s.goals || t.goals == s.goals[t.generation := goal]
    ensures SuccessProven(t, cfg) && ReportsKnown(t)
  {
  }

  lemma NavigateKeepsGoals(s: Bridge, cfg: Config, goal: Target, env: NavigateEnv)
    requires GoalInv(s, cfg)
    ensures GoalInv(Navigate(s, cfg, goal, env), cfg)
  {
    if TakesGoal(env) {
      var d := Begin(s, goal, cfg.differential);
      NewGoal(s, d, cfg, goal);
      if cfg.differential {
        ContinueKeepsGoals(d, cfg, env.reading, env.raises);
      } else {
        FinishKeepsGoals(d.(step := "holonomic"), cfg, "failed", None);
      }
    }
  }

  lemma ResultKeepsGoals(s: Bridge, cfg: Config, h: Handle, outcome: Outcome, progress: Option<Relative>,
                         reading: Option<Relative>, raises: bool)
    requires Inv(s, cfg) && GoalInv(s, cfg) && h in s.awaited
    ensures GoalInv(OnResult(s, cfg, h, outcome, progress, reading, raises), cfg)
  {
    var a := s.(awaited := s.awaited - {h});
    if s.awaited[h] == s.generation {
      ContinueKeepsGoals(a.(handle := None), cfg, reading, raises);
      FinishKeepsGoals(a, cfg, "failed", None);
      FinishKeepsGoals(a, cfg, "cancelled", None);
      if s.target.None? {
        FinishKeepsGoals(a, cfg, "succeeded", None);
      }
    }
  }

  lemma ResponseKeepsGoals(s: Bridge, cfg: Config, request: nat, response: Response)
    requires GoalInv(s, cfg) && request in s.requests
    ensures GoalInv(OnResponse(s, request, response), cfg)
  {
    FinishKeepsGoals(s.(requests := s.requests - {request}), cfg, "failed", None);
  }

  lemma CallbackKeepsGoals(s: Bridge, cfg: Config, step: Step)
    requires Inv(s, cfg) && GoalInv(s, cfg) && (step.ResponseStep? || step.ResultStep?)
    ensures GoalInv(Next(s, cfg, step), cfg)
  {
    match step
    case ResponseStep(request, response) =>
      if request in s.requests {
        ResponseKeepsGoals(s, cfg, request, response);
      }
    case ResultStep(h, outcome, progress, reading, raises) =>
      if h in s.awaited {
        ResultKeepsGoals(s, cfg, h, outcome, progress, reading, raises);
      }
  }

  lemma CancelKeepsGoals(s: Bridge, cfg: Config)
    requires GoalInv(s, cfg)
    ensures GoalInv(Cancel(s), cfg)
  {
    NewGoal(s, Cancel(s), cfg, Target(0.0, 0.0, None));
  }

  lemma NextKeepsGoals(s: Bridge, cfg: Config, step: Step)
    requires Inv(s, cfg) && GoalInv(s, cfg)
    ensures GoalInv(Next(s, cfg, step), cfg)
  {
    match step {
      case NavigateStep(goal, env) => NavigateKeepsGoals(s, cfg, goal, env);
      case CancelStep => CancelKeepsGoals(s, cfg);
      case DriveStep(moving) => CancelKeepsGoals(s, cfg);
      case _ => CallbackKeepsGoals(s, cfg, step);
    }
  }

  lemma {:induction false} RunKeepsGoals(s: Bridge, cfg: Config, steps: seq<Step>)
    requires Inv(s, cfg) && GoalInv(s, cfg)
    ensures GoalInv(Run(s, cfg, steps), cfg)
    decreases steps
  {
    if steps != [] {
      NextKeepsInv(s, cfg, steps[0]);
      NextKeepsGoals(s, cfg, steps[0]);
      RunKeepsGoals(Next(s, cfg, steps[0]), cfg, steps[1..]);
    }
  }

  /**
   * In every run: a step-by-step generation sends at most the configured number of Trajectory goals and any other at
   * most one; no goal goes out after a newer generation has begun; and a step-by-step goal is reported reached only on
   * an error reading within tolerance of the goal that generation was started for.
   */
  lemma TrajectorySafety(cfg: Config, steps: seq<Step>)
    ensures var s := Run(INITIALLY, cfg, steps);
      && SendsBounded(s, cfg) && SentInOrder(s) && SuccessProven(s, cfg)
      && (forall g: nat :: multiset(s.sent)[g] <= if g in s.goals && cfg.maxSteps > 1 then cfg.maxSteps else 1)
      && (forall k :: 0 <= k < |s.reports| && s.reports[k].generation in s.goals && s.reports[k].status == "succeeded"
            ==> s.reports[k].proof.Some? && WithinTolerance(s, cfg, s.reports[k].generation, s.reports[k].proof.value))
  {
    RunKeepsInv(INITIALLY, cfg, steps);
    RunKeepsGoals(INITIALLY, cfg, steps);
    var s := Run(INITIALLY, cfg, steps);
    forall g: nat
      ensures multiset(s.sent)[g] <= if g in s.goals && cfg.maxSteps > 1 then cfg.maxSteps else 1
    {
      assert SentIn(s.sent, g) <= if g in s.goals then cfg.StepLimit() else 1;
    }
  }

  /** The error read at the end is within the configured tolerances, or a centimetre and a hundredth of a radian. */
  ghost predicate WithinTolerance(s: Bridge, cfg: Config, generation: nat, proof: (Target, Relative))
    requires generation in s.goals
  {
    var goal, r := s.goals[generation], proof.1;
    && proof.0 == goal
    && r.distance <= (if cfg.positionTolerance < 0.01 then 0.01 else cfg.positionTolerance)
    && (goal.yaw.Some? ==>
          var tolerance := if cfg.headingTolerance < 0.01 then 0.01 else cfg.headingTolerance;
          -tolerance <= r.yaw <= tolerance)
  }

  /** `r` comes from `s` by sending at most one goal, under the generation current then. */
  ghost predicate SendsCurrent(s: Bridge, r: Bridge) {
    r.sent == s.sent || r.sent == s.sent + [r.generation]
  }

  lemma ContinueSends(s: Bridge, cfg: Config, reading: Option<Relative>, raises: bool)
    ensures SendsCurrent(s, Continue(s, cfg, s.generation, reading, raises))
  {
  }

  lemma NavigateSends(s: Bridge, cfg: Config, goal: Target, env: NavigateEnv)
    ensures SendsCurrent(s, Navigate(s, cfg, goal, env))
  {
    ContinueSends(Begin(s, goal, true), cfg, env.reading, env.raises);
  }

  lemma ResultSends(s: Bridge, cfg: Config, h: Handle, outcome: Outcome, progress: Option<Relative>,
                    reading: Option<Relative>, raises: bool)
    requires h in s.awaited
    ensures SendsCurrent(s, OnResult(s, cfg, h, outcome, progress, reading, raises))
  {
    ContinueSends(s.(awaited := s.awaited - {h}, handle := None), cfg, reading, raises);
  }

  /** Goals are only ever sent under the generation current at that moment. */
  lemma SendsAreCurrent(s: Bridge, cfg: Config, step: Step)
    ensures SendsCurrent(s, Next(s, cfg, step))
  {
    match step {
      case NavigateStep(goal, env) => NavigateSends(s, cfg, goal, env);
      case ResultStep(h, outcome, progress, reading, raises) =>
        if h in s.awaited {
          ResultSends(s, cfg, h, outcome, progress, reading, raises);
        }
      case _ =>
    }
  }
}
