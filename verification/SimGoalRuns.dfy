/** Runs of the goal protocol: operator commands, action responses and results in any order. */
module SimGoalRuns {
  import opened Options
  import opened SimGoals

  datatype Step =
    | NavigateStep(goal: Option<Goal>, serverReady: bool)   // no goal: the message has no usable numbers
    | DriveStep(linear: real, angular: real, now: real)
    | StopStep
    | CancelStep
    | ResetStep
    | ResponseStep(request: nat, response: ResponseOutcome, at: Reading)
    | ResultStep(handle: Handle, result: ResultOutcome, at: Reading)
    | EscapeStep(moved: real, now: real)
    | WatchdogStep(now: real, timeout: real)
    | ModeStep(mode: string)

  function Next(s: Robot, step: Step): Robot {
    match step
    case NavigateStep(goal, ready) => NavigateTo(s, goal, ready)
    case DriveStep(linear, angular, now) => Drive(s, linear, angular, now)
    case StopStep => Stop(s)
    case CancelStep => Cancel(s)
    case ResetStep => Reset(s)
    case ResponseStep(request, outcome, at) => if request in s.server.requests then OnResponse(s, request, outcome, at)
        else s
    case ResultStep(h, outcome, at) =>
      if h in s.server.awaited && h in s.server.accepted then OnResult(s, h, outcome, at) else s
    case EscapeStep(moved, now) => EscapeTick(s, moved, now)
    case WatchdogStep(now, timeout) => DriveWatchdog(s, now, timeout)
    case ModeStep(mode) => s.(mode := mode)
  }

  function Run(s: Robot, steps: seq<Step>): Robot
    decreases steps
  {
    if steps == [] then s else Run(Next(s, steps[0]), steps[1..])
  }

  /** The goal of the current generation is still being requested or executed. */
  ghost predicate Live(s: Robot) {
    s.handle.Some? || exists r :: r in s.server.requests && s.server.requests[r] == s.generation
  }

  ghost predicate OneGoalPerGeneration(v: Server) {
    && (forall r, q :: r in v.requests && q in v.requests && r != q ==> v.requests[r] != v.requests[q])
    && (forall h, k :: h in v.accepted && k in v.accepted && h != k ==> v.accepted[h] != v.accepted[k])
    && (forall r, h :: r in v.requests && h in v.accepted ==> v.requests[r] != v.accepted[h])
  }

  ghost predicate WithinGeneration(v: Server, generation: nat) {
    && (forall r :: r in v.requests ==> v.requests[r] <= generation && r < v.nextRequest)
    && (forall h :: h in v.accepted ==> v.accepted[h] <= generation && h < v.nextHandle)
  }

  /** No handle leaks: each accepted goal is the current one, or was sent a cancel, or delivered its result. */
  ghost predicate HandlesAccounted(s: Robot) {
    forall h :: h in s.server.accepted ==> s.handle == Some(h) || h in s.server.cancelled || h in s.server.delivered
  }

  ghost predicate CurrentHandle(s: Robot) {
    && (s.handle.Some? ==> s.handle.value in s.server.awaited && s.handle.value in s.server.accepted
                           && s.server.accepted[s.handle.value] == s.generation)
    && (forall h :: h in s.server.awaited && h in s.server.accepted && s.server.accepted[h] == s.generation ==>
        s.handle == Some(h))
  }

  ghost predicate Protocol(s: Robot) {
    && OneGoalPerGeneration(s.server)
    && WithinGeneration(s.server, s.generation)
    && HandlesAccounted(s)
    && CurrentHandle(s)
  }

  /** `stale` says that "active" was left behind by a goal message that raised. */
  ghost predicate Inv(s: Robot, stale: bool) {
    && Protocol(s)
    && (s.navStatus == "active" <==> Live(s) || stale)
    && (s.goal.Some? <==> Live(s) || stale)
    && (stale ==> !Live(s))
  }

  /** A goal message that raises leaves "active" behind if it was shown; any other command shows a new status. */
  function StaleAfter(s: Robot, stale: bool, step: Step): bool {
    match step
    case NavigateStep(goal, ready) => ready && goal.None? && s.navStatus == "active"
    case DriveStep(_, _, _) => false
    case StopStep => false
    case CancelStep => false
    case ResetStep => false
    case _ => stale
  }

  /** Whether a run ends with "active" left behind. */
  function StaleIn(s: Robot, stale: bool, steps: seq<Step>): bool
    decreases steps
  {
    if steps == [] then stale else StaleIn(Next(s, steps[0]), StaleAfter(s, stale, steps[0]), steps[1..])
  }

  lemma CancelNavKeeps(s: Robot)
    requires Protocol(s)
    ensures var c := CancelNav(s);
      && Protocol(c) && !Live(c) && c.escape.None? && c.generation == s.generation + 1
      && WithinGeneration(c.server, s.generation)
  {
  }

  lemma NavigateKeeps(s: Robot, stale: bool, goal: Option<Goal>, ready: bool)
    requires Inv(s, stale)
    ensures Inv(NavigateTo(s, goal, ready), StaleAfter(s, stale, NavigateStep(goal, ready)))
  {
    CancelNavKeeps(s);
    if ready && goal.Some? {
      var c, r := CancelNav(s), NavigateTo(s, goal, ready);
      assert c.server.nextRequest in r.server.requests && r.server.requests[c.server.nextRequest] == r.generation;
    }
  }

  lemma HaltKeeps(s: Robot, navStatus: string, mode: string)
    requires Protocol(s) && navStatus != "active"
    ensures Inv(Halt(s, navStatus, mode), false) && !Live(Halt(s, navStatus, mode))
  {
    CancelNavKeeps(s);
  }

  lemma DriveKeeps(s: Robot, linear: real, angular: real, now: real)
    requires Protocol(s)
    ensures Inv(Drive(s, linear, angular, now), false) && !Live(Drive(s, linear, angular, now))
  {
    CancelNavKeeps(s);
  }

  lemma ResponseKeeps(s: Robot, stale: bool, request: nat, outcome: ResponseOutcome, at: Reading)
    requires Inv(s, stale) && request in s.server.requests
    ensures Inv(OnResponse(s, request, outcome, at), stale)
  {
    var r := OnResponse(s, request, outcome, at);
    var g := s.server.requests[request];
    if g == s.generation {
      assert s.handle.None?;
      assert outcome.Accepted? || !Live(r);
    } else {
      assert Live(s) <==> Live(r) by {
        if q :| q in s.server.requests && s.server.requests[q] == s.generation {
          assert q in r.server.requests;
        }
      }
    }
  }

  lemma ResultKeeps(s: Robot, stale: bool, h: Handle, outcome: ResultOutcome, at: Reading)
    requires Inv(s, stale) && h in s.server.awaited && h in s.server.accepted
    ensures Inv(OnResult(s, h, outcome, at), stale)
  {
    var r := OnResult(s, h, outcome, at);
    if s.server.accepted[h] == s.generation {
      assert s.handle == Some(h);
      assert !Live(r);
    }
  }

  /** The escape, the watchdog and a mode command leave the goal protocol alone. */
  lemma TickKeeps(s: Robot, stale: bool, step: Step)
    requires Inv(s, stale) && (step.EscapeStep? || step.WatchdogStep? || step.ModeStep?)
    ensures Inv(Next(s, step), stale)
  {
    var r := Next(s, step);
    assert r.server == s.server && r.generation == s.generation && r.handle == s.handle;
    assert r.navStatus == s.navStatus && r.goal == s.goal;
    assert Live(r) <==> Live(s);
  }

  lemma NextKeepsInv(s: Robot, stale: bool, step: Step)
    requires Inv(s, stale)
    ensures Inv(Next(s, step), StaleAfter(s, stale, step))
  {
    match step
    case NavigateStep(goal, ready) => NavigateKeeps(s, stale, goal, ready);
    case DriveStep(linear, angular, now) => DriveKeeps(s, linear, angular, now);
    case StopStep => HaltKeeps(s, "idle", "estop");
    case CancelStep => HaltKeeps(s, "cancelled", "idle");
    case ResetStep => HaltKeeps(s, "idle", "idle");
    case ResponseStep(request, outcome, at) =>
      if request in s.server.requests {
        ResponseKeeps(s, stale, request, outcome, at);
      }
    case ResultStep(h, outcome, at) =>
      if h in s.server.awaited && h in s.server.accepted {
        ResultKeeps(s, stale, h, outcome, at);
      }
    case _ => TickKeeps(s, stale, step);
  }

  lemma {:induction false} RunKeepsInv(s: Robot, stale: bool, steps: seq<Step>)
    requires Inv(s, stale)
    ensures Inv(Run(s, steps), StaleIn(s, stale, steps))
    decreases steps
  {
    if steps != [] {
      NextKeepsInv(s, stale, steps[0]);
      RunKeepsInv(Next(s, steps[0]), StaleAfter(s, stale, steps[0]), steps[1..]);
    }
  }

  /**
   * In every run no accepted goal handle leaks, and "active" is shown exactly while the current goal is live or since a
   * goal message raised over a live goal.
   */
  lemma GoalHandlesNeverLeak(steps: seq<Step>)
    ensures HandlesAccounted(Run(INITIALLY, steps))
    ensures CurrentHandle(Run(INITIALLY, steps))
    ensures Run(INITIALLY, steps).navStatus == "active" <==>
            Live(Run(INITIALLY, steps)) || StaleIn(INITIALLY, false, steps)
  {
    RunKeepsInv(INITIALLY, false, steps);
  }

  /** When every goal message can be read, "active" means a live goal. */
  lemma {:induction false} ReadableGoalsNeverStale(s: Robot, steps: seq<Step>)
    requires forall k :: 0 <= k < |steps| && steps[k].NavigateStep? ==> steps[k].goal.Some?
    ensures !StaleIn(s, false, steps)
    decreases steps
  {
    if steps != [] {
      ReadableGoalsNeverStale(Next(s, steps[0]), steps[1..]);
    }
  }

  /** An unreadable goal message over a live goal: the goal is cancelled and "active" still shown. */
  lemma UnreadableGoalLeavesActive(goal: Goal, at: Reading)
    ensures var s := Run(INITIALLY,
        [NavigateStep(Some(goal), true), ResponseStep(0, Accepted, at), NavigateStep(None, true)]);
      s.navStatus == "active" && !Live(s) && s.server.cancelled == {0}
  {
    var first, second, third := NavigateStep(Some(goal), true), ResponseStep(0, Accepted, at), NavigateStep(None, true);
    var a := Next(INITIALLY, first);
    var b := Next(a, second);
    assert a.server.requests == map[0 := 1];
    assert b.server.requests == map[] && b.handle == Some(0);
    assert [first, second, third][1..] == [second, third] && [second, third][1..] == [third];
    assert Run(b, [third]) == Next(b, third);
    assert Run(a, [second, third]) == Run(b, [third]);
  }

  /** A response or result of a superseded goal changes nothing the operator sees; a stale acceptance is cancelled. */
  lemma StaleCallbacksIgnored(s: Robot, request: nat, response: ResponseOutcome, h: Handle, result: ResultOutcome,
      at: Reading)
    ensures request in s.server.requests && s.server.requests[request] != s.generation ==>
      var r := OnResponse(s, request, response, at);
      && r.(server := s.server) == s
      && r.server.accepted.Keys - s.server.accepted.Keys <= r.server.cancelled
    ensures h in s.server.accepted && s.server.accepted[h] != s.generation ==>
      OnResult(s, h, result, at).(server := s.server) == s
  {
  }

  predicate TakesControl(step: Step) {
    step.DriveStep? || step.StopStep? || step.CancelStep? || step.ResetStep?
  }

  /** The velocity an operator's drive command publishes. */
  function Driven(step: Step): Twist
    requires step.DriveStep?
  {
    Twist(Clamp(step.linear, 0.45), Clamp(step.angular, 1.2))
  }

  ghost predicate IsOperators(t: Twist, steps: seq<Step>) {
    t == ZERO || exists step :: step in steps && step.DriveStep? && Driven(step) == t
  }

  /** Between two logs of published velocities, only zeros and the operator's own drives of `steps` were added. */
  ghost predicate OnlyOperatorsAdded(before: seq<Twist>, after: seq<Twist>, steps: seq<Step>) {
    before <= after && forall k :: |before| <= k < |after| ==> IsOperators(after[k], steps)
  }

  lemma OnlyOperatorsTransitive(a: seq<Twist>, b: seq<Twist>, c: seq<Twist>, steps: seq<Step>)
    requires steps != [] && OnlyOperatorsAdded(a, b, [steps[0]]) && OnlyOperatorsAdded(b, c, steps[1..])
    ensures OnlyOperatorsAdded(a, c, steps)
  {
    forall k | |a| <= k < |c| ensures IsOperators(c[k], steps) {
      if k < |b| {
        assert c[k] == b[k] && IsOperators(b[k], [steps[0]]);
      } else {
        assert IsOperators(c[k], steps[1..]);
      }
    }
  }

  predicate SendsGoal(step: Step) {
    step.NavigateStep? && step.serverReady && step.goal.Some?
  }

  /** With no live goal and no escape under way, nothing but a new goal can start a reverse escape. */
  lemma QuietStep(s: Robot, stale: bool, step: Step)
    requires Inv(s, stale) && !Live(s) && s.escape.None? && !SendsGoal(step)
    ensures !Live(Next(s, step)) && Next(s, step).escape.None?
  {
    match step {
      case NavigateStep(goal, ready) => CancelNavKeeps(s);
      case DriveStep(linear, angular, now) => DriveKeeps(s, linear, angular, now);
      case StopStep => HaltKeeps(s, "idle", "estop");
      case CancelStep => HaltKeeps(s, "cancelled", "idle");
      case ResetStep => HaltKeeps(s, "idle", "idle");
      case ResponseStep(request, response, at) =>
        if request in s.server.requests {
          QuietResponse(s, request, response, at);
        }
      case ResultStep(h, result, at) =>
        if h in s.server.awaited && h in s.server.accepted {
          QuietResult(s, h, result, at);
        }
      case _ => TickKeeps(s, stale, step);
    }
  }

  lemma QuietResponse(s: Robot, request: nat, response: ResponseOutcome, at: Reading)
    requires !Live(s) && s.escape.None? && request in s.server.requests
    ensures var r := OnResponse(s, request, response, at); !Live(r) && r.escape.None?
  {
    var r := OnResponse(s, request, response, at);
    assert s.server.requests[request] != s.generation;
    assert forall q :: q in r.server.requests ==>
        q in s.server.requests && r.server.requests[q] == s.server.requests[q];
  }

  lemma QuietResult(s: Robot, h: Handle, result: ResultOutcome, at: Reading)
    requires CurrentHandle(s) && !Live(s) && s.escape.None? && h in s.server.awaited && h in s.server.accepted
    ensures var r := OnResult(s, h, result, at); !Live(r) && r.escape.None?
  {
    assert s.server.accepted[h] != s.generation;
    assert OnResult(s, h, result, at).server.requests == s.server.requests;
  }

  lemma QuietTwists(s: Robot, step: Step)
    requires s.escape.None? && !SendsGoal(step)
    ensures OnlyOperatorsAdded(s.twists, Next(s, step).twists, [step])
  {
    if step.DriveStep? {
      assert Next(s, step).twists == s.twists + [Driven(step)];
      assert step in [step];
    }
  }

  predicate NoNewGoal(steps: seq<Step>) {
    forall k :: 0 <= k < |steps| ==> !SendsGoal(steps[k])
  }

  /**
   * After an operator takes control, and until a new goal is sent, the adapter publishes nothing but zeros and the
   * operator's own drives: late failures of earlier goals never start the reverse escape.
   */
  lemma {:induction false} OperatorKeepsControl(s: Robot, stale: bool, steps: seq<Step>)
    requires Inv(s, stale) && !Live(s) && s.escape.None? && NoNewGoal(steps)
    ensures Run(s, steps).escape.None? && !Live(Run(s, steps))
    ensures OnlyOperatorsAdded(s.twists, Run(s, steps).twists, steps)
    decreases steps
  {
    if steps != [] {
      var next := Next(s, steps[0]);
      NextKeepsInv(s, stale, steps[0]);
      QuietStep(s, stale, steps[0]);
      QuietTwists(s, steps[0]);
      OperatorKeepsControl(next, StaleAfter(s, stale, steps[0]), steps[1..]);
      OnlyOperatorsTransitive(s.twists, next.twists, Run(s, steps).twists, steps);
    }
  }

  lemma CommandTakesControl(s: Robot, command: Step)
    requires Protocol(s) && TakesControl(command)
    ensures Inv(Next(s, command), false) && !Live(Next(s, command)) && Next(s, command).escape.None?
  {
    CancelNavKeeps(s);
    match command
    case DriveStep(linear, angular, now) => DriveKeeps(s, linear, angular, now);
    case StopStep => HaltKeeps(s, "idle", "estop");
    case CancelStep => HaltKeeps(s, "cancelled", "idle");
    case ResetStep => HaltKeeps(s, "idle", "idle");
  }

  /** The same from any reachable state in which an operator command has just run. */
  lemma NoEscapeAfterCommand(before: seq<Step>, command: Step, after: seq<Step>)
    requires TakesControl(command) && NoNewGoal(after)
    ensures var s := Next(Run(INITIALLY, before), command);
      Run(s, after).escape.None? && OnlyOperatorsAdded(s.twists, Run(s, after).twists, after)
  {
    RunKeepsInv(INITIALLY, false, before);
    CommandTakesControl(Run(INITIALLY, before), command);
    OperatorKeepsControl(Next(Run(INITIALLY, before), command), false, after);
  }

  /** An escape starts only when the goal of the current generation fails while it is live. */
  lemma EscapeMeansFailure(s: Robot, step: Step)
    requires Protocol(s) && s.escape.None? && Next(s, step).escape.Some?
    ensures Live(s) && Next(s, step).navStatus == "failed" && (step.ResponseStep? || step.ResultStep?)
  {
    if step.ResponseStep? && step.request in s.server.requests {
      assert s.server.requests[step.request] == s.generation;
    }
  }
}
