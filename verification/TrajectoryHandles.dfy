/**
 * Which accepted Trajectory goals the bridge can still cancel: the handle law, and exactly when a new goal breaks it.
 */
module TrajectoryHandles {
  import opened Options
  import opened Trajectory
  import opened TrajectoryRuns

  /** No handle leaks: an accepted goal whose result is still to come is the current one or was sent a cancel. */
  ghost predicate HandlesAccounted(s: Bridge) {
    forall h :: h in s.awaited ==> s.handle == Some(h) || h in s.cancelled
  }

  /** The bridge holds a goal that is still executing. */
  predicate HoldsLive(s: Bridge) {
    s.handle.Some? && s.handle.value in s.awaited && s.handle.value !in s.cancelled
  }

  /** A new goal together with the answer to its request, if it sent one. */
  function NavigateAnswered(s: Bridge, cfg: Config, goal: Target, env: NavigateEnv, response: Response): Bridge {
    var n := Navigate(s, cfg, goal, env);
    if |n.sent| > |s.sent| && |s.sent| in n.requests then OnResponse(n, |s.sent|, response) else n
  }

  /** Ending the current goal forgets the handle, so it leaks exactly when that was live. */
  lemma FinishAccounts(s: Bridge, status: string, proof: Option<(Target, Relative)>)
    requires HandlesAccounted(s)
    ensures HandlesAccounted(Finish(s, status, proof)) <==> !HoldsLive(s)
  {
    var f := Finish(s, status, proof);
    if HoldsLive(s) {
      assert s.handle.value in f.awaited;
    }
  }

  lemma SendAnswered(s: Bridge, step: string, raises: bool, response: Response)
    requires HandlesAccounted(s) && |s.sent| !in s.awaited
    requires s.handle.Some? ==> s.handle.value != |s.sent|
    ensures var n := Send(s, s.generation, step, raises);
      var a := if |n.sent| > |s.sent| && |s.sent| in n.requests then OnResponse(n, |s.sent|, response) else n;
      HandlesAccounted(a) <==> !HoldsLive(s)
  {
    if raises {
      FinishAccounts(s.(step := step), "failed", None);
    } else {
      var n := Send(s, s.generation, step, raises);
      var b := n.(requests := n.requests - {|s.sent|});
      assert HandlesAccounted(b) && (HoldsLive(b) <==> HoldsLive(s));
      if response.Accepted? {
        AcceptAccounts(b, |s.sent|);
      } else {
        FinishAccounts(b, "failed", None);
      }
    }
  }

  /** Accepting a goal overwrites the handle. */
  lemma AcceptAccounts(s: Bridge, request: nat)
    requires HandlesAccounted(s) && request !in s.awaited && (s.handle.Some? ==> s.handle.value != request)
    ensures HandlesAccounted(s.(handle := Some(request), awaited := s.awaited[request := s.generation])) <==>
        !HoldsLive(s)
  {
    var a := s.(handle := Some(request), awaited := s.awaited[request := s.generation]);
    if HoldsLive(s) {
      assert s.handle.value in a.awaited;
    }
  }

  lemma ContinueAnswered(s: Bridge, cfg: Config, reading: Option<Relative>, raises: bool, response: Response)
    requires HandlesAccounted(s) && |s.sent| !in s.awaited && s.target.Some?
    requires s.handle.Some? ==> s.handle.value != |s.sent|
    ensures var n := Continue(s, cfg, s.generation, reading, raises);
      var a := if |n.sent| > |s.sent| && |s.sent| in n.requests then OnResponse(n, |s.sent|, response) else n;
      HandlesAccounted(a) <==> !HoldsLive(s)
  {
    FinishAccounts(s, "failed", None);
    if reading.Some? {
      FinishAccounts(s, "succeeded", Some((s.target.value, reading.value)));
      var order := NextOrder(cfg, s.target.value, reading.value);
      SendAnswered(TakeStep(s, order, raises), order.step, raises, response);
    }
  }

  /** Handles are numbered by the goals sent. */
  ghost predicate HandleKnown(s: Bridge) {
    s.handle.Some? ==> s.handle.value < |s.sent|
  }

  /**
   * A new goal whose request, if it sends one, is answered before anything else happens leaks the previous handle
   * exactly when the bridge still holds a goal that is executing: the caller must cancel first.
   */
  lemma NewGoalLeaksExactly(s: Bridge, cfg: Config, goal: Target, env: NavigateEnv, response: Response)
    requires Inv(s, cfg) && HandleKnown(s) && HandlesAccounted(s) && TakesGoal(env)
    ensures HandlesAccounted(NavigateAnswered(s, cfg, goal, env, response)) <==> !HoldsLive(s)
  {
    var d := Begin(s, goal, cfg.differential);
    BeginHolds(s, cfg, goal, cfg.differential);
    if cfg.differential {
      ContinueAnswered(d, cfg, env.reading, env.raises, response);
      assert Navigate(s, cfg, goal, env) == Continue(d, cfg, d.generation, env.reading, env.raises);
    } else {
      SendAnswered(d, "holonomic", env.raises, response);
      assert Navigate(s, cfg, goal, env) == Send(d, d.generation, "holonomic", env.raises);
    }
  }

  /** Taking a goal on leaves the handle as it was; nothing is pending for the new generation. */
  lemma BeginHolds(s: Bridge, cfg: Config, goal: Target, differential: bool)
    requires Inv(s, cfg) && HandleKnown(s) && HandlesAccounted(s)
    ensures var d := Begin(s, goal, differential);
      && HandleKnown(d) && HandlesAccounted(d) && NonePending(d) && Known(d) && d.sent == s.sent
      && (HoldsLive(d) <==> HoldsLive(s)) && |d.sent| !in d.awaited && (differential ==> d.target.Some?)
  {
  }

  /** A cancel in between accounts for everything. */
  lemma CancelAccounts(s: Bridge)
    requires HandlesAccounted(s)
    ensures HandlesAccounted(Cancel(s)) && !HoldsLive(Cancel(s))
  {
  }

  // ---- runs in which goals are only given to a bridge that holds none

  /** All handles are accounted for, and an executing goal of the current generation is the one held. */
  ghost predicate Tidy(s: Bridge) {
    && HandleKnown(s) && HandlesAccounted(s)
    && (forall h :: h in s.awaited && s.awaited[h] == s.generation ==> s.handle == Some(h))
  }

  ghost predicate HandleInv(s: Bridge) {
    && Tidy(s)
    && (forall r :: r in s.requests && s.requests[r] == s.generation ==> !HoldsLive(s))
  }

  /** Goals are taken on only while no goal is executing. */
  predicate OneGoalAtATime(s: Bridge, cfg: Config, steps: seq<Step>)
    decreases steps
  {
    || steps == []
    || (&& (steps[0].NavigateStep? && TakesGoal(steps[0].env) ==> !HoldsLive(s))
        && OneGoalAtATime(Next(s, cfg, steps[0]), cfg, steps[1..]))
  }

  /** Nothing is held and nothing pending: one more goal can be sent safely. */
  ghost predicate Free(s: Bridge) {
    NonePending(s) && Known(s) && HandleKnown(s) && HandlesAccounted(s) && !HoldsLive(s)
  }

  lemma FreeFinish(s: Bridge, status: string, proof: Option<(Target, Relative)>)
    requires Free(s)
    ensures HandleInv(Finish(s, status, proof))
  {
  }

  lemma FreeSend(s: Bridge, step: string, raises: bool)
    requires Free(s)
    ensures HandleInv(Send(s, s.generation, step, raises))
  {
    if raises {
      FreeFinish(s.(step := step), "failed", None);
    }
  }

  lemma FreeContinue(s: Bridge, cfg: Config, reading: Option<Relative>, raises: bool)
    requires Free(s)
    ensures HandleInv(Continue(s, cfg, s.generation, reading, raises))
  {
    FreeFinish(s, "failed", None);
    if s.target.Some? && reading.Some? {
      FreeFinish(s, "succeeded", Some((s.target.value, reading.value)));
      var order := NextOrder(cfg, s.target.value, reading.value);
      FreeSend(TakeStep(s, order, raises), order.step, raises);
    }
  }

  lemma FreeNavigate(s: Bridge, cfg: Config, goal: Target, env: NavigateEnv)
    requires Inv(s, cfg) && HandleInv(s) && TakesGoal(env) && !HoldsLive(s)
    ensures HandleInv(Navigate(s, cfg, goal, env))
  {
    var d := Begin(s, goal, cfg.differential);
    BeginHolds(s, cfg, goal, cfg.differential);
    if cfg.differential {
      FreeContinue(d, cfg, env.reading, env.raises);
      assert Navigate(s, cfg, goal, env) == Continue(d, cfg, d.generation, env.reading, env.raises);
    } else {
      FreeSend(d, "holonomic", env.raises);
      assert Navigate(s, cfg, goal, env) == Send(d, d.generation, "holonomic", env.raises);
    }
  }

  lemma FreeResponse(s: Bridge, cfg: Config, request: nat, response: Response)
    requires Inv(s, cfg) && HandleInv(s) && request in s.requests
    ensures HandleInv(OnResponse(s, request, response))
  {
  }

  /** The current goal's result frees the bridge, whether or not its handle is cleared at once. */
  lemma ResultFrees(s: Bridge, cfg: Config, h: Handle)
    requires Inv(s, cfg) && Tidy(s) && h in s.awaited && s.awaited[h] == s.generation
    ensures Free(s.(awaited := s.awaited - {h})) && Free(s.(awaited := s.awaited - {h}, handle := None))
  {
  }

  lemma FreeResult(s: Bridge, cfg: Config, h: Handle, outcome: Outcome, progress: Option<Relative>,
                   reading: Option<Relative>, raises: bool)
    requires Inv(s, cfg) && Tidy(s) && h in s.awaited && s.awaited[h] == s.generation
    ensures HandleInv(OnResult(s, cfg, h, outcome, progress, reading, raises))
  {
    var a := s.(awaited := s.awaited - {h});
    ResultFrees(s, cfg, h);
    FreeContinue(a.(handle := None), cfg, reading, raises);
    FreeFinish(a, "succeeded", None);
    FreeFinish(a, "cancelled", None);
    FreeFinish(a, "failed", None);
  }

  lemma StaleResult(s: Bridge, cfg: Config, h: Handle)
    requires Inv(s, cfg) && HandleInv(s) && h in s.awaited && s.awaited[h] != s.generation
    ensures HandleInv(s.(awaited := s.awaited - {h}))
  {
  }

  lemma NextKeepsHandles(s: Bridge, cfg: Config, step: Step)
    requires Inv(s, cfg) && HandleInv(s)
    requires step.NavigateStep? && TakesGoal(step.env) ==> !HoldsLive(s)
    ensures HandleInv(Next(s, cfg, step))
  {
    match step {
      case NavigateStep(goal, env) =>
        if TakesGoal(env) {
          FreeNavigate(s, cfg, goal, env);
        }
      case ResponseStep(request, response) =>
        if request in s.requests {
          FreeResponse(s, cfg, request, response);
        }
      case ResultStep(h, outcome, progress, reading, raises) =>
        if h in s.awaited {
          if s.awaited[h] == s.generation {
            FreeResult(s, cfg, h, outcome, progress, reading, raises);
          } else {
            StaleResult(s, cfg, h);
          }
        }
      case _ => CancelAccounts(s);
    }
  }

  lemma {:induction false} RunKeepsHandles(s: Bridge, cfg: Config, steps: seq<Step>)
    requires Inv(s, cfg) && HandleInv(s) && OneGoalAtATime(s, cfg, steps)
    ensures HandleInv(Run(s, cfg, steps))
    decreases steps
  {
    if steps != [] {
      NextKeepsInv(s, cfg, steps[0]);
      NextKeepsHandles(s, cfg, steps[0]);
      RunKeepsHandles(Next(s, cfg, steps[0]), cfg, steps[1..]);
    }
  }

  /**
   * In every run that gives goals one at a time, no accepted goal is ever left executing without a handle or a cancel.
   */
  lemma HandlesNeverLeakOneAtATime(cfg: Config, steps: seq<Step>)
    requires OneGoalAtATime(INITIALLY, cfg, steps)
    ensures HandlesAccounted(Run(INITIALLY, cfg, steps))
  {
    RunKeepsHandles(INITIALLY, cfg, steps);
  }

  // ---- every run: exactly which steps leak

  /** The step drops whatever handle is held: a new goal that fails or arrives at once, or the answer to a new goal. */
  predicate Forgets(s: Bridge, cfg: Config, step: Step) {
    match step
    case NavigateStep(goal, env) => TakesGoal(env) && |Navigate(s, cfg, goal, env).sent| == |s.sent|
    case ResponseStep(request, response) => request in s.requests && s.requests[request] == s.generation
    case _ => false
  }

  /** After `step` from a tidy state: tidy again, unless a live handle was forgotten. */
  ghost predicate TidyUnless(forgotten: bool, r: Bridge) {
    (HandlesAccounted(r) <==> !forgotten) && (HandlesAccounted(r) ==> Tidy(r))
  }

  lemma FinishTidies(s: Bridge, status: string, proof: Option<(Target, Relative)>)
    requires HandleKnown(s) && HandlesAccounted(s) && NonePending(s)
    ensures TidyUnless(HoldsLive(s), Finish(s, status, proof))
  {
    FinishAccounts(s, status, proof);
  }

  lemma SendTidies(s: Bridge, step: string, raises: bool)
    requires HandleKnown(s) && HandlesAccounted(s) && NonePending(s)
    ensures var n := Send(s, s.generation, step, raises);
      TidyUnless(HoldsLive(s) && |n.sent| == |s.sent|, n)
  {
    if raises {
      FinishTidies(s.(step := step), "failed", None);
    }
  }

  lemma ContinueTidies(s: Bridge, cfg: Config, reading: Option<Relative>, raises: bool)
    requires HandleKnown(s) && HandlesAccounted(s) && NonePending(s) && (s.target.None? ==> !HoldsLive(s))
    ensures var n := Continue(s, cfg, s.generation, reading, raises);
      TidyUnless(HoldsLive(s) && |n.sent| == |s.sent|, n)
  {
    FinishTidies(s, "failed", None);
    if s.target.Some? && reading.Some? {
      FinishTidies(s, "succeeded", Some((s.target.value, reading.value)));
      var order := NextOrder(cfg, s.target.value, reading.value);
      SendTidies(TakeStep(s, order, raises), order.step, raises);
    }
  }

  lemma NavigateTidies(s: Bridge, cfg: Config, goal: Target, env: NavigateEnv)
    requires Inv(s, cfg) && Tidy(s) && TakesGoal(env)
    ensures var n := Navigate(s, cfg, goal, env);
      TidyUnless(HoldsLive(s) && |n.sent| == |s.sent|, n)
  {
    var d := Begin(s, goal, cfg.differential);
    BeginHolds(s, cfg, goal, cfg.differential);
    if cfg.differential {
      ContinueTidies(d, cfg, env.reading, env.raises);
      assert Navigate(s, cfg, goal, env) == Continue(d, cfg, d.generation, env.reading, env.raises);
    } else {
      SendTidies(d, "holonomic", env.raises);
      assert Navigate(s, cfg, goal, env) == Send(d, d.generation, "holonomic", env.raises);
    }
  }

  lemma ResponseTidies(s: Bridge, cfg: Config, request: nat, response: Response)
    requires Inv(s, cfg) && Tidy(s) && request in s.requests
    ensures TidyUnless(HoldsLive(s) && s.requests[request] == s.generation, OnResponse(s, request, response))
  {
    var b := s.(requests := s.requests - {request});
    assert HoldsLive(b) <==> HoldsLive(s);
    if s.requests[request] == s.generation {
      if response.Accepted? {
        AcceptTidies(s, cfg, b, request);
      } else {
        ConsumeRequest(s, cfg, request);
        FinishTidies(b, "failed", None);
      }
    }
  }

  lemma AcceptTidies(s: Bridge, cfg: Config, b: Bridge, request: nat)
    requires Inv(s, cfg) && Tidy(s) && request in s.requests && s.requests[request] == s.generation
    requires b == s.(requests := s.requests - {request})
    ensures TidyUnless(HoldsLive(s), b.(handle := Some(request), awaited := b.awaited[request := s.generation]))
  {
    var r := b.(handle := Some(request), awaited := b.awaited[request := s.generation]);
    assert forall h :: h in s.awaited ==> s.awaited[h] != s.generation;
    if HoldsLive(s) {
      assert s.handle.value in r.awaited && s.handle.value != request;
    }
  }

  lemma ResultTidies(s: Bridge, cfg: Config, h: Handle, outcome: Outcome, progress: Option<Relative>,
                     reading: Option<Relative>, raises: bool)
    requires Inv(s, cfg) && Tidy(s) && h in s.awaited
    ensures Tidy(OnResult(s, cfg, h, outcome, progress, reading, raises))
  {
    if s.awaited[h] == s.generation {
      FreeResult(s, cfg, h, outcome, progress, reading, raises);
    } else {
      assert Tidy(s.(awaited := s.awaited - {h}));
    }
  }

  /** From a tidy state a step leaks a handle if and only if it forgets a live one. */
  lemma StepLeaksExactly(s: Bridge, cfg: Config, step: Step)
    requires Inv(s, cfg) && Tidy(s)
    ensures TidyUnless(HoldsLive(s) && Forgets(s, cfg, step), Next(s, cfg, step))
  {
    match step {
      case NavigateStep(goal, env) =>
        if TakesGoal(env) {
          NavigateTidies(s, cfg, goal, env);
        }
      case ResponseStep(request, response) =>
        if request in s.requests {
          ResponseTidies(s, cfg, request, response);
        }
      case ResultStep(h, outcome, progress, reading, raises) =>
        if h in s.awaited {
          ResultTidies(s, cfg, h, outcome, progress, reading, raises);
        }
      case _ => CancelTidies(s, cfg);
    }
  }

  lemma CancelTidies(s: Bridge, cfg: Config)
    requires Inv(s, cfg) && Tidy(s)
    ensures Tidy(Cancel(s))
  {
    CancelAccounts(s);
  }

  /** Handles are accounted for in every state the run passes through. */
  ghost predicate AlwaysAccounted(s: Bridge, cfg: Config, steps: seq<Step>)
    decreases steps
  {
    HandlesAccounted(s) && (steps == [] || AlwaysAccounted(Next(s, cfg, steps[0]), cfg, steps[1..]))
  }

  /** No step of the run forgets a handle that is live at that moment. */
  predicate NeverForgetsLive(s: Bridge, cfg: Config, steps: seq<Step>)
    decreases steps
  {
    || steps == []
    || (&& !(HoldsLive(s) && Forgets(s, cfg, steps[0]))
        && NeverForgetsLive(Next(s, cfg, steps[0]), cfg, steps[1..]))
  }

  lemma {:induction false} RunLeaksExactly(s: Bridge, cfg: Config, steps: seq<Step>)
    requires Inv(s, cfg) && Tidy(s)
    ensures AlwaysAccounted(s, cfg, steps) <==> NeverForgetsLive(s, cfg, steps)
    decreases steps
  {
    if steps != [] {
      var next := Next(s, cfg, steps[0]);
      NextKeepsInv(s, cfg, steps[0]);
      StepLeaksExactly(s, cfg, steps[0]);
      if HandlesAccounted(next) {
        RunLeaksExactly(next, cfg, steps[1..]);
      } else {
        NeverAccounted(next, cfg, steps[1..]);
      }
    }
  }

  lemma NeverAccounted(s: Bridge, cfg: Config, steps: seq<Step>)
    requires !HandlesAccounted(s)
    ensures !AlwaysAccounted(s, cfg, steps)
  {
  }

  /**
   * In every run, whatever is cancelled, answered or delivered in between, handles stay accounted for throughout if and
   * only if no step forgets a goal that is executing at that moment.
   */
  lemma HandlesLeakExactly(cfg: Config, steps: seq<Step>)
    ensures AlwaysAccounted(INITIALLY, cfg, steps) <==> NeverForgetsLive(INITIALLY, cfg, steps)
  {
    RunLeaksExactly(INITIALLY, cfg, steps);
  }

  /** Two accepted goals in a row: the first keeps executing, neither current nor cancelled. */
  lemma SecondGoalLeaksFirst(cfg: Config, goal: Target, env: NavigateEnv)
    requires TakesGoal(env) && !cfg.differential && !env.raises
    ensures var navigate := NavigateStep(goal, env);
      var s := Run(INITIALLY, cfg, [navigate, ResponseStep(0, Accepted), navigate, ResponseStep(1, Accepted)]);
      0 in s.awaited && s.handle == Some(1) && 0 !in s.cancelled
  {
    var navigate := NavigateStep(goal, env);
    var a := Next(INITIALLY, cfg, navigate);
    var b := Next(a, cfg, ResponseStep(0, Accepted));
    var c := Next(b, cfg, navigate);
    var d := Next(c, cfg, ResponseStep(1, Accepted));
    Unroll4(INITIALLY, cfg, navigate, ResponseStep(0, Accepted), navigate, ResponseStep(1, Accepted));
  }

  lemma Unroll4(s: Bridge, cfg: Config, p: Step, q: Step, r: Step, t: Step)
    ensures Run(s, cfg, [p, q, r, t]) == Next(Next(Next(Next(s, cfg, p), cfg, q), cfg, r), cfg, t)
  {
    assert [p, q, r, t][1..] == [q, r, t] && [q, r, t][1..] == [r, t] && [r, t][1..] == [t];
    var one := Next(s, cfg, p);
    var two := Next(one, cfg, q);
    var three := Next(two, cfg, r);
    assert Run(three, cfg, [t]) == Next(three, cfg, t);
    assert Run(two, cfg, [r, t]) == Run(three, cfg, [t]);
    assert Run(one, cfg, [q, r, t]) == Run(two, cfg, [r, t]);
  }
}
