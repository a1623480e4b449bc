/**
 * Runs of the exploration controller in which path callbacks, operator commands, timers and answers interleave freely.
 */
module ExplorationRuns {
  import opened Options
  import opened Exploration

  /** A path callback blocked inside `navigate_to`: the generation it read, and whether the goal has gone out yet. */
  datatype Flight = Flight(generation: nat, sent: bool)

  datatype System = System(e: Explorer, flights: map<nat, Flight>)

  const INIT := System(INITIALLY, map[])

  datatype Step =
    | StartStep(start: StartEnv)
    | StopStep(env: StopEnv)
    | AnswerStep(f: Future)
    | StartedStep(f: Future, generation: nat, response: Response, env: StopEnv)
    | TickStep(now: real, later: real, linkTimeout: real, env: StopEnv, linkEnv: StopEnv)
    | LinkStep(now: real)
    | StatusStep(message: Option<Report>, env: StopEnv)
    | PathEnters(id: nat, path: Path, env: StopEnv)
    | GoalGoesOut(id: nat)
    | PathReturns(id: nat, raised: bool, env: StopEnv)
    | CommandStep(command: Command, start: StartEnv, env: StopEnv)
    | DisconnectStep(env: StopEnv)

  function Next(s: System, step: Step): System {
    match step
    case StartStep(start) => s.(e := Start(s.e, start))
    case StopStep(env) => s.(e := ManualStop(s.e, env))
    case AnswerStep(f) => s.(e := s.e.(unansweredStarts := s.e.unansweredStarts - {f},
        unansweredStops := s.e.unansweredStops - {f}))
    case StartedStep(f, generation, response, env) =>
      if f in s.e.unansweredStarts then s else s.(e := Started(s.e, f, generation, response, env))
    case TickStep(now, later, linkTimeout, env, linkEnv) => s.(e := Tick(s.e, now, later, linkTimeout, env, linkEnv))
    case LinkStep(now) => s.(e := s.e.(lastLink := now))
    case StatusStep(message, env) => s.(e := OnStatus(s.e, message, env))
    case PathEnters(id, path, env) =>
      if id in s.flights then s else
        var (e, navigating) := OnPathBegin(s.e, path, env);
        System(e, if navigating then s.flights[id := Flight(s.e.generation, false)] else s.flights)
    case GoalGoesOut(id) =>
      if id in s.flights && !s.flights[id].sent then
        System(s.e.(calls := s.e.calls + [Navigate(s.flights[id].generation)]),
            s.flights[id := s.flights[id].(sent := true)])
      else s
    case PathReturns(id, raised, env) =>
      if id !in s.flights then s
      else System(OnPathEnd(s.e, s.flights[id].generation, raised, env), s.flights - {id})
    case CommandStep(command, start, env) => s.(e := Dispatch(s.e, command, start, env))
    case DisconnectStep(env) => s.(e := StopOnDisconnect(s.e, env))
  }

  function Run(s: System, steps: seq<Step>): System
    decreases steps
  {
    if steps == [] then s else Run(Next(s, steps[0]), steps[1..])
  }

  // ---- stop wins

  /** After position `i`, the bridge was told to cancel its goal and then to stand still. */
  ghost predicate Settled(calls: seq<BridgeCall>, i: nat) {
    exists j :: i < j && j + 1 < |calls| && calls[j] == CancelGoal && calls[j + 1] == DriveZero
  }

  /** Every goal sent is cancelled, or still owned by a callback in flight, or belongs to the session now active. */
  ghost predicate GoalsOwned(s: System) {
    forall i: nat :: i < |s.e.calls| && s.e.calls[i].Navigate? ==>
      || Settled(s.e.calls, i)
      || (exists id :: id in s.flights && s.flights[id].generation == s.e.calls[i].generation)
      || (s.e.active && s.e.generation == s.e.calls[i].generation)
  }

  lemma SettledGrows(a: seq<BridgeCall>, b: seq<BridgeCall>)
    ensures forall i: nat :: Settled(a, i) ==> Settled(a + b, i)
  {
    forall i: nat | Settled(a, i) ensures Settled(a + b, i) {
      var j :| i < j && j + 1 < |a| && a[j] == CancelGoal && a[j + 1] == DriveZero;
      assert (a + b)[j] == CancelGoal && (a + b)[j + 1] == DriveZero;
    }
  }

  lemma HaltSettles(a: seq<BridgeCall>)
    ensures forall i: nat :: i < |a| ==> Settled(a + [CancelGoal, DriveZero], i)
  {
    var b := a + [CancelGoal, DriveZero];
    assert b[|a|] == CancelGoal && b[|a| + 1] == DriveZero;
  }

  /** What every controller operation does to the bridge: it keeps the session, or it ends it with a halt. */
  ghost predicate KeepsOrHalts(e: Explorer, r: Explorer) {
    || (r.calls == e.calls && (e.active ==> r.active && r.generation == e.generation))
    || (exists more :: r.calls == e.calls + [CancelGoal, DriveZero] + more && forall c :: c in more ==> !c.Navigate?)
    || (!e.active && exists more :: r.calls == e.calls + more && forall c :: c in more ==> !c.Navigate?)
  }

  lemma TailOf(a: seq<BridgeCall>, b: seq<BridgeCall>)
    ensures forall i :: |a| <= i < |a| + |b| ==> (a + b)[i] in b
  {
  }

  lemma KeepsOrHaltsOwned(s: System, r: Explorer)
    requires GoalsOwned(s) && KeepsOrHalts(s.e, r)
    ensures GoalsOwned(s.(e := r))
  {
    if r.calls != s.e.calls || s.e.active {
      if r.calls == s.e.calls && s.e.active && r.active && r.generation == s.e.generation {
      } else if more :| r.calls == s.e.calls + [CancelGoal, DriveZero] + more && forall c :: c in more ==>
          !c.Navigate? {
        var halted := s.e.calls + [CancelGoal, DriveZero];
        HaltSettles(s.e.calls);
        SettledGrows(halted, more);
        TailOf(halted, more);
      } else {
        var more :| r.calls == s.e.calls + more && forall c :: c in more ==> !c.Navigate?;
        SettledGrows(s.e.calls, more);
        TailOf(s.e.calls, more);
      }
    }
  }

  lemma StopKeepsOrHalts(e: Explorer, notify: bool, status: string, env: StopEnv)
    ensures KeepsOrHalts(e, Stop(e, notify, status, env))
    ensures !Stop(e, notify, status, env).active
  {
    var r := Stop(e, notify, status, env);
    if e.active {
      assert r.calls == e.calls + [CancelGoal, DriveZero] + [];
    } else {
      assert r.calls == e.calls + [];
    }
  }

  lemma StartKeepsOrHalts(e: Explorer, env: StartEnv)
    ensures KeepsOrHalts(e, Start(e, env))
  {
    var r := Start(e, env);
    if StartPasses(e, env) {
      assert r.calls == e.calls + if env.raises then [CancelGoal, CancelGoal, DriveZero] else [CancelGoal];
    }
  }

  lemma TickKeepsOrHalts(e: Explorer, now: real, later: real, linkTimeout: real, env: StopEnv, linkEnv: StopEnv)
    ensures KeepsOrHalts(e, Tick(e, now, later, linkTimeout, env, linkEnv))
  {
    var s := RetireStart(e, now, env);
    var t := RetireStop(s, now);
    var r := Tick(e, now, later, linkTimeout, env, linkEnv);
    if e.active && !s.active {
      assert r.calls == e.calls + [CancelGoal, DriveZero] + [];
    } else if t.active && later - t.lastLink > linkTimeout {
      assert r.calls == e.calls + [CancelGoal, DriveZero] + [];
    }
  }

  lemma CommandKeepsOrHalts(e: Explorer, c: Command, start: StartEnv, env: StopEnv)
    requires !c.SetMode?
    ensures KeepsOrHalts(e, Dispatch(e, c, start, env))
  {
    var r := Dispatch(e, c, start, env);
    if c.Explore? {
      StartKeepsOrHalts(e, start);
      StopKeepsOrHalts(e, true, "stopped", env);
    } else if IsMotion(c) {
      assert r.calls == e.calls + (if e.active then [CancelGoal, DriveZero] else []) + [Operator(c)];
    }
  }

  lemma {:induction false} NextKeepsGoalsOwned(s: System, step: Step)
    requires GoalsOwned(s)
    ensures GoalsOwned(Next(s, step))
  {
    match step
    case StartStep(start) => StartKeepsOrHalts(s.e, start); KeepsOrHaltsOwned(s, Start(s.e, start));
    case StopStep(env) => StopKeepsOrHalts(s.e, true, "stopped", env); KeepsOrHaltsOwned(s, ManualStop(s.e, env));
    case AnswerStep(f) => KeepsOrHaltsOwned(s, Next(s, step).e);
    case StartedStep(f, generation, response, env) =>
      StopKeepsOrHalts(if s.e.pending == Some(f) then s.e.(pending := None) else s.e, true, "stopped", env);
      KeepsOrHaltsOwned(s, Next(s, step).e);
    case TickStep(now, later, linkTimeout, env, linkEnv) =>
      TickKeepsOrHalts(s.e, now, later, linkTimeout, env, linkEnv);
      KeepsOrHaltsOwned(s, Next(s, step).e);
    case LinkStep(now) => KeepsOrHaltsOwned(s, Next(s, step).e);
    case StatusStep(message, env) =>
      if message.Some? {
        StopKeepsOrHalts(s.e, false, message.value.state, env);
      }
      KeepsOrHaltsOwned(s, Next(s, step).e);
    case PathEnters(id, path, env) =>
      if id !in s.flights {
        PathEntersKeepsGoalsOwned(s, id, path, env);
      }
    case GoalGoesOut(id) => GoalGoesOutKeepsGoalsOwned(s, id);
    case PathReturns(id, raised, env) => PathReturnsKeepsGoalsOwned(s, id, raised, env);
    case CommandStep(command, start, env) =>
      if command.SetMode? {
        SettledGrows(s.e.calls, [Operator(command)]);
      } else {
        CommandKeepsOrHalts(s.e, command, start, env);
        KeepsOrHaltsOwned(s, Next(s, step).e);
      }
    case DisconnectStep(env) =>
      HaltSettles(ManualStop(s.e, env).calls);
  }

  lemma PathEntersKeepsGoalsOwned(s: System, id: nat, path: Path, env: StopEnv)
    requires GoalsOwned(s) && id !in s.flights
    ensures GoalsOwned(Next(s, PathEnters(id, path, env)))
  {
    StopKeepsOrHalts(s.e, false, "stopped", env);
    StopKeepsOrHalts(s.e, true, "stopped", env);
    var (e, navigating) := OnPathBegin(s.e, path, env);
    assert KeepsOrHalts(s.e, e);
    KeepsOrHaltsOwned(s, e);
    var r := Next(s, PathEnters(id, path, env));
    assert forall k :: k in s.flights ==> k in r.flights && r.flights[k] == s.flights[k];
  }

  lemma GoalGoesOutKeepsGoalsOwned(s: System, id: nat)
    requires GoalsOwned(s)
    ensures GoalsOwned(Next(s, GoalGoesOut(id)))
  {
    if id in s.flights && !s.flights[id].sent {
      var r := Next(s, GoalGoesOut(id));
      SettledGrows(s.e.calls, [Navigate(s.flights[id].generation)]);
      assert forall k :: k in s.flights ==> k in r.flights && r.flights[k].generation == s.flights[k].generation;
      forall i: nat | i < |r.e.calls| && r.e.calls[i].Navigate? && !Settled(r.e.calls, i)
        && !(r.e.active && r.e.generation == r.e.calls[i].generation)
        ensures exists k :: k in r.flights && r.flights[k].generation == r.e.calls[i].generation
      {
        if i == |s.e.calls| {
          assert id in r.flights;
        } else {
          assert !Settled(s.e.calls, i);
        }
      }
    }
  }

  /**
   * A callback that comes back to a session other than its own halts the robot; one that comes back to its own keeps
   * it.
   */
  lemma PathReturnsKeepsGoalsOwned(s: System, id: nat, raised: bool, env: StopEnv)
    requires GoalsOwned(s)
    ensures GoalsOwned(Next(s, PathReturns(id, raised, env)))
  {
    if id in s.flights {
      var g := s.flights[id].generation;
      var r := Next(s, PathReturns(id, raised, env));
      var e := if raised then ManualStop(s.e, env) else s.e;
      if !e.active || g != e.generation {
        HaltSettles(e.calls);
      } else {
        forall i: nat | i < |r.e.calls| && r.e.calls[i].Navigate? && !Settled(r.e.calls, i)
            && r.e.calls[i].generation != g
          ensures (exists k :: k in r.flights && r.flights[k].generation == r.e.calls[i].generation)
        {
          var k :| k in s.flights && s.flights[k].generation == s.e.calls[i].generation;
          assert k in r.flights;
        }
      }
    }
  }

  lemma {:induction false} RunKeepsGoalsOwned(s: System, steps: seq<Step>)
    requires GoalsOwned(s)
    ensures GoalsOwned(Run(s, steps))
    decreases steps
  {
    if steps != [] {
      NextKeepsGoalsOwned(s, steps[0]);
      RunKeepsGoalsOwned(Next(s, steps[0]), steps[1..]);
    }
  }

  /**
   * Stop wins: in every run, once no callback of a past session is in flight, each of its goals has been cancelled and
   * the robot halted.
   */
  lemma StopWins(steps: seq<Step>, i: nat)
    requires var s := Run(INIT, steps); i < |s.e.calls| && s.e.calls[i].Navigate?
    requires var s := Run(INIT, steps); forall id :: id in s.flights ==>
        s.flights[id].generation != s.e.calls[i].generation
    requires var s := Run(INIT, steps); !s.e.active || s.e.generation != s.e.calls[i].generation
    ensures Settled(Run(INIT, steps).e.calls, i)
  {
    RunKeepsGoalsOwned(INIT, steps);
  }

  // ---- nothing moves until a start passes its guards

  predicate Restarts(s: System, step: Step) {
    match step
    case StartStep(start) => StartPasses(s.e, start)
    case CommandStep(command, start, env) => command == Explore(true) && StartPasses(s.e, start)
    case _ => false
  }

  predicate NeverRestarts(s: System, steps: seq<Step>)
    decreases steps
  {
    steps == [] || (!Restarts(s, steps[0]) && NeverRestarts(Next(s, steps[0]), steps[1..]))
  }

  /** An ended session: no intake, and nothing left to relabel it. */
  ghost predicate Ended(s: System, status: string) {
    !s.e.active && !s.e.awaitingTerminal && s.e.status == status
  }

  /** The calls and callbacks of `r` go back to callbacks already in flight in `s`. */
  ghost predicate OnlyOldGoals(s: System, r: System) {
    && s.e.calls <= r.e.calls
    && (forall id :: id in r.flights ==> id in s.flights && r.flights[id].generation == s.flights[id].generation)
    && (forall i :: |s.e.calls| <= i < |r.e.calls| && r.e.calls[i].Navigate? ==>
          exists id :: id in s.flights && !s.flights[id].sent && s.flights[id].generation == r.e.calls[i].generation)
    && (forall id :: id in r.flights && !r.flights[id].sent ==> !s.flights[id].sent)
  }

  lemma EndedStep(s: System, step: Step)
    requires !s.e.active && !Restarts(s, step)
    ensures !Next(s, step).e.active && OnlyOldGoals(s, Next(s, step))
    ensures Ended(s, "stopped") ==> Ended(Next(s, step), "stopped")
  {
  }

  lemma OnlyOldGoalsTransitive(s: System, m: System, r: System)
    requires OnlyOldGoals(s, m) && OnlyOldGoals(m, r)
    ensures OnlyOldGoals(s, r)
  {
    forall i | |s.e.calls| <= i < |r.e.calls| && r.e.calls[i].Navigate?
      ensures exists id :: id in s.flights && !s.flights[id].sent && s.flights[id].generation == r.e.calls[i].generation
    {
      if i < |m.e.calls| {
        assert m.e.calls[i] == r.e.calls[i];
      } else {
        var id :| id in m.flights && !m.flights[id].sent && m.flights[id].generation == r.e.calls[i].generation;
        assert id in s.flights && !s.flights[id].sent;
      }
    }
  }

  /**
   * From a stopped state and until a start passes its guards: exploration stays inactive, the only goals that can still
   * reach the bridge come from callbacks already in flight, and a manual "stopped" label is never replaced.
   */
  lemma {:induction false} NoGoalWithoutStart(s: System, steps: seq<Step>)
    requires !s.e.active && NeverRestarts(s, steps)
    ensures !Run(s, steps).e.active && OnlyOldGoals(s, Run(s, steps))
    ensures Ended(s, "stopped") ==> Ended(Run(s, steps), "stopped")
    decreases steps
  {
    if steps != [] {
      EndedStep(s, steps[0]);
      var m := Next(s, steps[0]);
      NoGoalWithoutStart(m, steps[1..]);
      OnlyOldGoalsTransitive(s, m, Run(s, steps));
    }
  }

  /**
   * An operator motion command reaches the robot only after exploration has been shut and, if it was active, halted.
   */
  lemma MotionCommandAfterStop(e: Explorer, c: Command, start: StartEnv, env: StopEnv)
    requires !c.Explore? && !c.SetMode? && !c.Unknown?
    ensures var r := Dispatch(e, c, start, env);
      && !r.active && !r.awaitingTerminal && r.generation == e.generation + 1
      && r.calls == e.calls + (if e.active then [CancelGoal, DriveZero] else []) + [Operator(c)]
  {
  }

  lemma {:induction false} RunSplits(s: System, a: seq<Step>, b: seq<Step>)
    ensures Run(s, a + b) == Run(Run(s, a), b)
    decreases a
  {
    if a == [] {
      assert a + b == b;
    } else {
      assert (a + b)[1..] == a[1..] + b;
      RunSplits(Next(s, a[0]), a[1..], b);
    }
  }

  lemma CallsGrow(s: System, step: Step)
    ensures s.e.calls <= Next(s, step).e.calls
  {
  }

  lemma {:induction false} LogGrows(s: System, steps: seq<Step>)
    ensures s.e.calls <= Run(s, steps).e.calls
    decreases steps
  {
    if steps != [] {
      CallsGrow(s, steps[0]);
      LogGrows(Next(s, steps[0]), steps[1..]);
    }
  }

  /** The log from `command` on reads: the halt if exploration was active, then the operator's call. */
  lemma CommandLogged(s: System, command: Command, start: StartEnv, env: StopEnv, later: seq<Step>)
    requires !command.Explore? && !command.SetMode? && !command.Unknown?
    ensures s.e.calls + (if s.e.active then [CancelGoal, DriveZero] else []) + [Operator(command)] <=
            Run(Next(s, CommandStep(command, start, env)), later).e.calls
  {
    MotionCommandAfterStop(s.e, command, start, env);
    LogGrows(Next(s, CommandStep(command, start, env)), later);
  }

  /**
   * In the call log of every run, a motion command given while exploration was active stands directly behind a goal
   * cancel and a zero drive; and when it is made, every exploration goal with no callback in flight has been settled.
   */
  lemma MotionFollowsHalt(before: seq<Step>, command: Command, start: StartEnv, env: StopEnv, later: seq<Step>)
    requires !command.Explore? && !command.SetMode? && !command.Unknown?
    ensures var s, log := Run(INIT, before), Run(INIT, before + [CommandStep(command, start, env)] + later).e.calls;
      var halted := s.e.calls + if s.e.active then [CancelGoal, DriveZero] else [];
      && halted + [Operator(command)] <= log
      && forall i: nat :: i < |s.e.calls| && s.e.calls[i].Navigate?
           && (forall id :: id in s.flights ==> s.flights[id].generation != s.e.calls[i].generation)
           ==> Settled(halted, i)
  {
    var s := Run(INIT, before);
    var step := CommandStep(command, start, env);
    RunSplits(INIT, before + [step], later);
    RunSplits(INIT, before, [step]);
    assert Run(s, [step]) == Next(s, step);
    CommandLogged(s, command, start, env, later);
    RunKeepsGoalsOwned(INIT, before);
    HaltSettles(s.e.calls);
    assert s.e.calls + [] == s.e.calls;
  }

  /** A callback of an old session leaves the session active now alone exactly when its navigate call did not raise. */
  lemma StaleRaiseEndsSession(e: Explorer, generation: nat, raised: bool, env: StopEnv)
    requires e.active && generation != e.generation
    ensures OnPathEnd(e, generation, raised, env).active <==> !raised
  {
  }

  /** Explore, a path callback in flight, stop, and both requests answered. */
  function StoppedInFlight(start: StartEnv, path: Path, env: StopEnv): seq<Step> {
    [StartStep(start), PathEnters(0, path, env), StopStep(env), AnswerStep(0), AnswerStep(1)]
  }

  predicate Smooth(start: StartEnv, path: Path, env: StopEnv) {
    && start.startReady && start.stopReady && !start.raises && env.ready && !env.raises
    && !path.empty && path.frameMatches && path.finite && path.stampNs >= start.clockNs
  }

  lemma StoppedInFlightState(start: StartEnv, path: Path, env: StopEnv)
    requires Smooth(start, path, env)
    ensures var s := Run(INIT, StoppedInFlight(start, path, env));
      && StartPasses(s.e, start) && s.e.generation == 2 && s.flights == map[0 := Flight(1, false)]
  {
    var steps := StoppedInFlight(start, path, env);
    var a := Next(INIT, steps[0]);
    var b := Next(a, steps[1]);
    var c := Next(b, steps[2]);
    assert c.e.unansweredStarts == {0} && c.e.unansweredStops == {1};
    RunsOne(INIT, steps, 0);
    RunsOne(a, steps, 1);
    RunsOne(b, steps, 2);
    RunsOne(c, steps, 3);
    RunsOne(Next(c, steps[3]), steps, 4);
  }

  lemma RunsOne(s: System, steps: seq<Step>, k: nat)
    requires k < |steps|
    ensures Run(s, steps[k..]) == Run(Next(s, steps[k]), steps[k + 1..])
    ensures steps[0..] == steps
  {
    assert steps[k..][1..] == steps[k + 1..];
  }

  /** A run in which this happens: the operator explores again, the old callback raises, and the new session is over. */
  lemma StaleRaiseReached(start: StartEnv, path: Path, env: StopEnv)
    requires Smooth(start, path, env)
    ensures var before := StoppedInFlight(start, path, env) + [StartStep(start)];
      var s, r := Run(INIT, before), Run(INIT, before + [PathReturns(0, true, env)]);
      s.e.active && 0 in s.flights && s.flights[0].generation != s.e.generation && !r.e.active
  {
    var stopped := StoppedInFlight(start, path, env);
    var last := PathReturns(0, true, env);
    StoppedInFlightState(start, path, env);
    RunSplits(INIT, stopped, [StartStep(start)]);
    RunSplits(INIT, stopped + [StartStep(start)], [last]);
    var d := Run(INIT, stopped);
    var s := Next(d, StartStep(start));
    assert Run(d, [StartStep(start)]) == s && Run(s, [last]) == Next(s, last);
    StaleRaiseEndsSession(s.e, 1, true, env);
  }

  // ---- terminal reports

  /** What may reach a session as it ends, in any order and number. */
  datatype Ending =
    | EmptyPath(path: Path, env: StopEnv)
    | FinalStatus(report: Report, env: StopEnv)
    | OperatorStop(env: StopEnv)

  function Deliver(e: Explorer, endings: seq<Ending>): Explorer
    decreases endings
  {
    if endings == [] then e else
      var r := match endings[0]
        case EmptyPath(path, env) => OnPathBegin(e, path, env).0
        case FinalStatus(report, env) => OnStatus(e, Some(report), env)
        case OperatorStop(env) => ManualStop(e, env);
      Deliver(r, endings[1..])
  }

  /** All messages come from session `e` and agree on how it ended. */
  ghost predicate OneSession(e: Explorer, endings: seq<Ending>, state: string) {
    && IsTerminal(state) && e.startedNs != 0
    && forall x :: x in endings ==>
      && (x.EmptyPath? ==> x.path.empty && !Stale(e, x.path.stampNs))
      && (x.FinalStatus? ==> x.report.state == state && !Stale(e, x.report.stampNs))
  }

  predicate Stopped(endings: seq<Ending>) {
    exists x :: x in endings && x.OperatorStop?
  }

  predicate Reported(endings: seq<Ending>) {
    exists x :: x in endings && x.FinalStatus?
  }

  /**
   * The order in which a session's empty paths, terminal reports and operator stops arrive does not matter: an operator
   * stop anywhere shows "stopped", otherwise the reported state shows, and until it arrives the session waits for it.
   */
  lemma {:induction false} EndingsCommute(e: Explorer, endings: seq<Ending>, state: string)
    requires OneSession(e, endings, state) && e.active && endings != []
    ensures var r := Deliver(e, endings);
      && !r.active
      && r.status == (if !Stopped(endings) && Reported(endings) then state else "stopped")
      && (r.awaitingTerminal <==> !Stopped(endings) && !Reported(endings))
      && r.calls == e.calls + [CancelGoal, DriveZero]
  {
    var x, rest := endings[0], endings[1..];
    assert endings == [x] + rest;
    if x.EmptyPath? {
      EndingsWhileAwaited(OnPathBegin(e, x.path, x.env).0, rest, state);
    } else if x.FinalStatus? {
      EndingsAfterEnd(OnStatus(e, Some(x.report), x.env), rest, state);
    } else {
      EndingsAfterEnd(ManualStop(e, x.env), rest, state);
    }
  }

  lemma {:induction false} EndingsWhileAwaited(e: Explorer, endings: seq<Ending>, state: string)
    requires OneSession(e, endings, state) && !e.active && e.awaitingTerminal && e.status == "stopped"
    ensures var r := Deliver(e, endings);
      && !r.active && r.calls == e.calls
      && r.status == (if !Stopped(endings) && Reported(endings) then state else "stopped")
      && (r.awaitingTerminal <==> !Stopped(endings) && !Reported(endings))
    decreases endings
  {
    if endings != [] {
      var x, rest := endings[0], endings[1..];
      assert endings == [x] + rest;
      if x.EmptyPath? {
        EndingsWhileAwaited(e, rest, state);
      } else if x.FinalStatus? {
        EndingsAfterEnd(OnStatus(e, Some(x.report), x.env), rest, state);
      } else {
        EndingsAfterEnd(ManualStop(e, x.env), rest, state);
      }
    }
  }

  lemma {:induction false} EndingsAfterEnd(e: Explorer, endings: seq<Ending>, state: string)
    requires OneSession(e, endings, state) && !e.active && !e.awaitingTerminal
    ensures var r := Deliver(e, endings);
      && !r.active && !r.awaitingTerminal && r.calls == e.calls
      && r.status == (if Stopped(endings) then "stopped" else e.status)
    decreases endings
  {
    if endings != [] {
      var x, rest := endings[0], endings[1..];
      assert endings == [x] + rest;
      EndingsAfterEnd(if x.OperatorStop? then ManualStop(e, x.env) else e, rest, state);
    }
  }

  /**
   * The session's own report decides the final status exactly when it is not stale and the session clock was not zero.
   */
  lemma TerminalStatusShown(e: Explorer, path: Path, report: Report, a: StopEnv, b: StopEnv)
    requires e.active && path.empty && !Stale(e, path.stampNs) && IsTerminal(report.state)
    ensures OnStatus(OnPathBegin(e, path, a).0, Some(report), b).status == report.state
      <==> !Stale(e, report.stampNs) && e.startedNs != 0
  {
  }

  /** With a session clock of zero, as at the start of simulated time, a valid completion report is lost. */
  lemma ZeroClockLosesReport(a: StartEnv, b: StopEnv)
    requires a.startReady && a.stopReady && !a.raises && a.clockNs == 0
    ensures var e := Start(INITIALLY, a);
      e.active && OnStatus(e, Some(Report(5, "complete")), b) == e
  {
  }

  /** Messages stamped before the session began change nothing. */
  lemma StaleMessagesIgnored(e: Explorer, path: Path, report: Report, env: StopEnv)
    ensures Stale(e, path.stampNs) ==> OnPathBegin(e, path, env) == (e, false)
    ensures Stale(e, report.stampNs) ==> OnStatus(e, Some(report), env) == e
  {
  }

  // ---- outstanding requests

  ghost predicate RequestsTracked(e: Explorer) {
    && (forall f :: f in e.unansweredStarts ==> e.pending == Some(f) && f < e.nextFuture)
    && (forall f :: f in e.unansweredStops ==> e.pendingStop == Some(f) && f < e.nextFuture)
    && (e.active ==> e.unansweredStops == {})
  }

  lemma StopKeepsRequests(e: Explorer, notify: bool, status: string, env: StopEnv)
    requires RequestsTracked(e)
    ensures RequestsTracked(Stop(e, notify, status, env))
  {
  }

  lemma TickKeepsRequests(e: Explorer, now: real, later: real, linkTimeout: real, env: StopEnv, linkEnv: StopEnv)
    requires RequestsTracked(e)
    ensures RequestsTracked(Tick(e, now, later, linkTimeout, env, linkEnv))
  {
    var s := RetireStart(e, now, env);
    assert RequestsTracked(s) by {
      if e.pending.Some? && now > e.deadline {
        StopKeepsRequests(e, true, "stopped", env);
      }
    }
    var t := RetireStop(s, now);
    assert RequestsTracked(t);
    StopKeepsRequests(t, true, "stopped", linkEnv);
  }

  lemma StartKeepsRequests(e: Explorer, env: StartEnv)
    requires RequestsTracked(e)
    ensures RequestsTracked(Start(e, env))
  {
    if StartPasses(e, env) {
      StopKeepsRequests(Armed(e, env), true, "stopped", env.stop);
    }
  }

  lemma StartedKeepsRequests(e: Explorer, f: Future, generation: nat, response: Response, env: StopEnv)
    requires RequestsTracked(e) && f !in e.unansweredStarts
    ensures RequestsTracked(Started(e, f, generation, response, env))
  {
    StopKeepsRequests(if e.pending == Some(f) then e.(pending := None) else e, true, "stopped", env);
  }

  lemma StatusKeepsRequests(e: Explorer, message: Option<Report>, env: StopEnv)
    requires RequestsTracked(e)
    ensures RequestsTracked(OnStatus(e, message, env))
  {
    if message.Some? {
      StopKeepsRequests(e, false, message.value.state, env);
    }
  }

  lemma PathKeepsRequests(e: Explorer, path: Path, generation: nat, raised: bool, env: StopEnv)
    requires RequestsTracked(e)
    ensures RequestsTracked(OnPathBegin(e, path, env).0) && RequestsTracked(OnPathEnd(e, generation, raised, env))
  {
    StopKeepsRequests(e, false, "stopped", env);
    StopKeepsRequests(e, true, "stopped", env);
  }

  lemma CommandKeepsRequests(e: Explorer, c: Command, start: StartEnv, env: StopEnv)
    requires RequestsTracked(e)
    ensures RequestsTracked(Dispatch(e, c, start, env))
  {
    StartKeepsRequests(e, start);
    StopKeepsRequests(e, true, "stopped", env);
  }

  lemma PathStepKeepsRequests(s: System, step: Step)
    requires RequestsTracked(s.e) && (step.PathEnters? || step.GoalGoesOut? || step.PathReturns?)
    ensures RequestsTracked(Next(s, step).e)
  {
    match step
    case PathEnters(id, path, env) => PathKeepsRequests(s.e, path, 0, false, env);
    case GoalGoesOut(id) =>
    case PathReturns(id, raised, env) =>
      if id in s.flights {
        PathKeepsRequests(s.e, Path(0, false, false, false), s.flights[id].generation, raised, env);
      }
  }

  lemma NextKeepsRequests(s: System, step: Step)
    requires RequestsTracked(s.e)
    ensures RequestsTracked(Next(s, step).e)
  {
    match step {
      case StartStep(start) => StartKeepsRequests(s.e, start);
      case StopStep(env) => StopKeepsRequests(s.e, true, "stopped", env);
      case AnswerStep(f) =>
      case StartedStep(f, generation, response, env) =>
        if f !in s.e.unansweredStarts {
          StartedKeepsRequests(s.e, f, generation, response, env);
        }
      case TickStep(now, later, linkTimeout, env, linkEnv) =>
        TickKeepsRequests(s.e, now, later, linkTimeout, env, linkEnv);
      case LinkStep(now) =>
      case StatusStep(message, env) => StatusKeepsRequests(s.e, message, env);
      case CommandStep(command, start, env) => CommandKeepsRequests(s.e, command, start, env);
      case DisconnectStep(env) => StopKeepsRequests(s.e, true, "stopped", env);
      case _ => PathStepKeepsRequests(s, step);
    }
  }

  lemma {:induction false} RunKeepsRequests(s: System, steps: seq<Step>)
    requires RequestsTracked(s.e)
    ensures RequestsTracked(Run(s, steps).e)
    decreases steps
  {
    if steps != [] {
      NextKeepsRequests(s, steps[0]);
      RunKeepsRequests(Next(s, steps[0]), steps[1..]);
    }
  }

  /**
   * At most one start and one stop request are outstanding in any run, and the first tick past a deadline retires it.
   */
  lemma RequestsBounded(steps: seq<Step>, now: real, later: real, linkTimeout: real, env: StopEnv, linkEnv: StopEnv)
    ensures var e := Run(INIT, steps).e;
      var r := Tick(e, now, later, linkTimeout, env, linkEnv);
      && |e.unansweredStarts| <= 1 && |e.unansweredStops| <= 1
      && (now > e.deadline ==> r.unansweredStarts == {} && r.pending == None)
      && (now > e.stopDeadline ==> r.unansweredStops !! e.unansweredStops)
  {
    RunKeepsRequests(INIT, steps);
    var e := Run(INIT, steps).e;
    AtMostOne(e.unansweredStarts, e.pending);
    AtMostOne(e.unansweredStops, e.pendingStop);
  }

  lemma AtMostOne(s: set<Future>, owner: Option<Future>)
    requires forall f :: f in s ==> owner == Some(f)
    ensures |s| <= 1
  {
    if s != {} {
      var f :| f in s;
      assert s == {f};
    }
  }
}
