/** The exploration controller driving the simulated robot: its call log executed by the goal protocol. */
module ExploringRobot {
  import opened Options
  import E = Exploration
  import X = ExplorationRuns
  import G = SimGoals
  import R = SimGoalRuns

  /** What the robot bridge reads when a call reaches it. */
  datatype CallEnv = CallEnv(serverReady: bool, goal: Option<G.Goal>, linear: real, angular: real, now: real)

  datatype Combined = Combined(x: X.System, robot: G.Robot)

  const START := Combined(X.INIT, G.INITIALLY)

  /** Controller steps, whose calls reach the robot at once, and what the robot does by itself in between. */
  datatype Step = Controller(act: X.Step, env: CallEnv) | Alone(own: R.Step)

  /** One call of the controller's log, executed. */
  function Execute(s: G.Robot, call: E.BridgeCall, env: CallEnv): G.Robot {
    match call
    case Navigate(_) => G.NavigateTo(s, env.goal, env.serverReady)
    case CancelGoal => G.Cancel(s)
    case DriveZero => G.Drive(s, 0.0, 0.0, env.now)
    case Operator(command) =>
      match command
      case NavigateTo => G.NavigateTo(s, env.goal, env.serverReady)
      case CancelGoalCommand => G.Cancel(s)
      case DriveCommand => G.Drive(s, env.linear, env.angular, env.now)
      case StopCommand => G.Stop(s)
      case Reset => G.Reset(s)
      case _ => s
  }

  function ExecuteAll(s: G.Robot, calls: seq<E.BridgeCall>, env: CallEnv): G.Robot {
    if calls == [] then s else Execute(ExecuteAll(s, calls[..|calls| - 1], env), calls[|calls| - 1], env)
  }

  /** Callbacks, timers and mode changes; commands reach the robot through the controller only. */
  predicate ByItself(step: R.Step) {
    step.ResponseStep? || step.ResultStep? || step.EscapeStep? || step.WatchdogStep? || step.ModeStep?
  }

  function Next(s: Combined, step: Step): Combined {
    match step
    case Controller(act, env) =>
      X.CallsGrow(s.x, act);
      var x := X.Next(s.x, act);
      Combined(x, ExecuteAll(s.robot, x.e.calls[|s.x.e.calls|..], env))
    case Alone(own) => if ByItself(own) then s.(robot := R.Next(s.robot, own)) else s
  }

  function Run(s: Combined, steps: seq<Step>): Combined
    decreases steps
  {
    if steps == [] then s else Run(Next(s, steps[0]), steps[1..])
  }

  // ---- which call a live goal goes back to

  predicate SendsGoal(call: E.BridgeCall) {
    call.Navigate? || call == E.Operator(E.NavigateTo)
  }

  /** Calls that concern the robot's goals neither way. */
  predicate IsNeutral(call: E.BridgeCall) {
    && call.Operator?
    && (call.command.BodyCommand? || call.command.SetMode? || call.command.Explore? || call.command.Unknown?)
  }

  /** Position of the last goal in the log unless something has ended it since. */
  function LastGoal(calls: seq<E.BridgeCall>): Option<nat> {
    if calls == [] then None else
      var n := |calls| - 1;
      if SendsGoal(calls[n]) then Some(n)
      else if IsNeutral(calls[n]) then LastGoal(calls[..n])
      else None
  }

  lemma {:induction false} LastGoalStands(calls: seq<E.BridgeCall>)
    ensures var last := LastGoal(calls);
      last.Some? ==>
        && last.value < |calls| && SendsGoal(calls[last.value])
        && forall j :: last.value < j < |calls| ==> calls[j] != E.CancelGoal
  {
    if calls != [] {
      var n := |calls| - 1;
      LastGoalStands(calls[..n]);
      var last := LastGoal(calls);
      if last.Some? {
        assert forall j :: last.value < j < n ==> calls[..n][j] == calls[j];
      }
    }
  }

  // ---- the invariant

  ghost predicate RobotInv(s: G.Robot) {
    exists stale :: R.Inv(s, stale)
  }

  lemma ExecuteKeeps(s: G.Robot, call: E.BridgeCall, env: CallEnv)
    requires RobotInv(s)
    ensures RobotInv(Execute(s, call, env))
    ensures IsNeutral(call) ==> Execute(s, call, env) == s
    ensures !IsNeutral(call) && !SendsGoal(call) ==> !R.Live(Execute(s, call, env))
  {
    var stale :| R.Inv(s, stale);
    match call {
      case Navigate(_) => R.NavigateKeeps(s, stale, env.goal, env.serverReady);
      case CancelGoal => R.HaltKeeps(s, "cancelled", "idle");
      case DriveZero => R.DriveKeeps(s, 0.0, 0.0, env.now);
      case Operator(command) =>
        match command {
          case NavigateTo => R.NavigateKeeps(s, stale, env.goal, env.serverReady);
          case CancelGoalCommand => R.HaltKeeps(s, "cancelled", "idle");
          case DriveCommand => R.DriveKeeps(s, env.linear, env.angular, env.now);
          case StopCommand => R.HaltKeeps(s, "idle", "estop");
          case Reset => ResetKeeps(s);
          case _ =>
        }
    }
  }

  lemma ResetKeeps(s: G.Robot)
    requires RobotInv(s)
    ensures RobotInv(G.Reset(s)) && !R.Live(G.Reset(s))
  {
    var stale :| R.Inv(s, stale);
    R.HaltKeeps(s, "idle", "idle");
    assert R.Inv(G.Reset(s), false);
  }

  /** A live goal goes back to the last goal in the log. */
  ghost predicate Traced(calls: seq<E.BridgeCall>, robot: G.Robot) {
    RobotInv(robot) && (R.Live(robot) ==> LastGoal(calls).Some?)
  }

  lemma CallTraced(calls: seq<E.BridgeCall>, robot: G.Robot, call: E.BridgeCall, env: CallEnv)
    requires Traced(calls, robot)
    ensures Traced(calls + [call], Execute(robot, call, env))
  {
    ExecuteKeeps(robot, call, env);
    assert (calls + [call])[..|calls|] == calls;
  }

  lemma {:induction false} CallsTraced(calls: seq<E.BridgeCall>, robot: G.Robot, more: seq<E.BridgeCall>, env: CallEnv)
    requires Traced(calls, robot)
    ensures Traced(calls + more, ExecuteAll(robot, more, env))
  {
    if more == [] {
      assert calls + more == calls;
    } else {
      var n := |more| - 1;
      CallsTraced(calls, robot, more[..n], env);
      CallTraced(calls + more[..n], ExecuteAll(robot, more[..n], env), more[n], env);
      assert calls + more == (calls + more[..n]) + [more[n]];
    }
  }

  /** Nothing the robot does by itself brings a goal to life. */
  lemma StaysDead(s: G.Robot, stale: bool, step: R.Step)
    requires R.Inv(s, stale) && ByItself(step) && !R.Live(s)
    ensures !R.Live(R.Next(s, step))
  {
    match step {
      case ResponseStep(request, response, at) =>
        if request in s.server.requests {
          ResponseStaysDead(s, request, response, at);
        }
      case ResultStep(h, result, at) =>
        if h in s.server.awaited && h in s.server.accepted {
          ResultStaysDead(s, h, result, at);
        }
      case _ => R.TickKeeps(s, stale, step);
    }
  }

  lemma ResponseStaysDead(s: G.Robot, request: nat, response: G.ResponseOutcome, at: G.Reading)
    requires !R.Live(s) && request in s.server.requests
    ensures !R.Live(G.OnResponse(s, request, response, at))
  {
    var r := G.OnResponse(s, request, response, at);
    assert s.server.requests[request] != s.generation;
    assert forall q :: q in r.server.requests ==>
        q in s.server.requests && r.server.requests[q] == s.server.requests[q];
  }

  lemma ResultStaysDead(s: G.Robot, h: G.Handle, result: G.ResultOutcome, at: G.Reading)
    requires !R.Live(s) && h in s.server.accepted
    ensures !R.Live(G.OnResult(s, h, result, at))
  {
    assert G.OnResult(s, h, result, at).server.requests == s.server.requests;
  }

  ghost predicate CombinedInv(s: Combined) {
    X.GoalsOwned(s.x) && Traced(s.x.e.calls, s.robot)
  }

  lemma NextKeeps(s: Combined, step: Step)
    requires CombinedInv(s)
    ensures CombinedInv(Next(s, step))
  {
    match step {
      case Controller(act, env) =>
        X.NextKeepsGoalsOwned(s.x, act);
        X.CallsGrow(s.x, act);
        var x := X.Next(s.x, act);
        var more := x.e.calls[|s.x.e.calls|..];
        CallsTraced(s.x.e.calls, s.robot, more, env);
        assert s.x.e.calls + more == x.e.calls;
      case Alone(own) =>
        if ByItself(own) {
          var stale :| R.Inv(s.robot, stale);
          R.NextKeepsInv(s.robot, stale, own);
          if !R.Live(s.robot) {
            StaysDead(s.robot, stale, own);
          }
        }
    }
  }

  lemma {:induction false} RunKeeps(s: Combined, steps: seq<Step>)
    requires CombinedInv(s)
    ensures CombinedInv(Run(s, steps))
    decreases steps
  {
    if steps != [] {
      NextKeeps(s, steps[0]);
      RunKeeps(Next(s, steps[0]), steps[1..]);
    }
  }

  lemma StartInv()
    ensures CombinedInv(START)
  {
    assert R.Inv(G.INITIALLY, false);
  }

  /**
   * In every combined run a live goal of the robot is the last one sent to it, and it is the operator's, or
   * exploration's own while its session is active or its callback still in flight.
   */
  lemma LiveGoalIsAccountable(steps: seq<Step>)
    ensures var s := Run(START, steps);
      var last := LastGoal(s.x.e.calls);
      R.Live(s.robot) ==>
        && last.Some? && last.value < |s.x.e.calls|
        && match s.x.e.calls[last.value]
           case Navigate(g) =>
             || (exists id :: id in s.x.flights && s.x.flights[id].generation == g)
             || (s.x.e.active && s.x.e.generation == g)
           case call => call == E.Operator(E.NavigateTo)
  {
    StartInv();
    RunKeeps(START, steps);
    LastGoalStands(Run(START, steps).x.e.calls);
  }

  /** Once exploration is over and no callback in flight, no goal it ever sent is live on the robot. */
  lemma ExplorationLeavesNoGoal(steps: seq<Step>)
    ensures var s := Run(START, steps);
      var last := LastGoal(s.x.e.calls);
      !s.x.e.active && s.x.flights == map[] && R.Live(s.robot) ==>
        last.Some? && last.value < |s.x.e.calls| && s.x.e.calls[last.value] == E.Operator(E.NavigateTo)
  {
    LiveGoalIsAccountable(steps);
  }
}
