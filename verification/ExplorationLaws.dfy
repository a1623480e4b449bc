/**
 * What each message, answer and tick may do to an exploration session, and the label it is shown under in every run.
 */
module ExplorationLaws {
  import opened Options
  import opened Exploration
  import opened ExplorationRuns

  /** The session is over: shut to paths and reports, under a new generation, with the robot halted if it was active. */
  ghost predicate Over(e: Explorer, r: Explorer, status: string) {
    && !r.active && !r.awaitingTerminal && r.status == status && r.generation == e.generation + 1
    && r.calls == e.calls + (if e.active then [CancelGoal, DriveZero] else [])
    && r.startedNs == e.startedNs && r.deadline == e.deadline && r.lastLink == e.lastLink
  }

  /** One more stop request is out, due in thirty seconds. */
  ghost predicate StopRequested(e: Explorer, r: Explorer, now: real) {
    && r.pendingStop == Some(e.nextFuture) && r.nextFuture == e.nextFuture + 1
    && r.unansweredStops == e.unansweredStops + {e.nextFuture} && r.stopDeadline == now + 30.0
  }

  ghost predicate StopsUntouched(e: Explorer, r: Explorer) {
    && r.pendingStop == e.pendingStop && r.nextFuture == e.nextFuture
    && r.unansweredStops == e.unansweredStops && r.stopDeadline == e.stopDeadline
  }

  /**
   * Ending a session asks the planner to stop exactly when it was active, the planner is to be told and can be reached;
   * the start request is left to its own answer or deadline.
   */
  lemma StopAsksPlanner(e: Explorer, notify: bool, status: string, env: StopEnv)
    ensures var r := Stop(e, notify, status, env);
      && Over(e, r, status) && r.pending == e.pending && r.unansweredStarts == e.unansweredStarts
      && if e.active && notify && env.ready && !env.raises then StopRequested(e, r, env.now) else StopsUntouched(e, r)
  {
  }

  /** A start request may go out: nothing active, nothing outstanding, both services there. */
  ghost predicate MayStart(e: Explorer, env: StartEnv) {
    && !e.active && env.startReady && env.stopReady
    && (e.pending.Some? ==> e.pending.value !in e.unansweredStarts)
    && (e.pendingStop.Some? ==> e.pendingStop.value !in e.unansweredStops)
  }

  /**
   * A start is ignored or opens a new session: the old goal cancelled, the clock noted, the request due in thirty
   * seconds; if the request cannot even be made, the session ends at once.
   */
  lemma StartOpensSession(e: Explorer, env: StartEnv)
    ensures var r := Start(e, env);
      if !MayStart(e, env) then r == e
      else if env.raises then !r.active && r.status == "stopped" && r.generation == e.generation + 2
        && r.calls == e.calls + [CancelGoal, CancelGoal, DriveZero]
      else
        && r.active && r.status == "starting" && !r.awaitingTerminal && r.generation == e.generation + 1
        && r.startedNs == env.clockNs && r.deadline == env.now + 30.0 && r.calls == e.calls + [CancelGoal]
        && r.pending == Some(e.nextFuture) && r.unansweredStarts == e.unansweredStarts + {e.nextFuture}
        && r.nextFuture == e.nextFuture + 1
        && r.pendingStop == e.pendingStop && r.unansweredStops == e.unansweredStops && r.lastLink == e.lastLink
  {
    if MayStart(e, env) && env.raises {
      var armed := Armed(e, env);
      assert armed.calls + [CancelGoal, DriveZero] == e.calls + [CancelGoal, CancelGoal, DriveZero];
    }
  }

  /** Only a refusal or a failure, and only of the session that asked, ends it. */
  lemma RefusalEndsSession(e: Explorer, f: Future, generation: nat, response: Response, env: StopEnv)
    ensures var r := Started(e, f, generation, response, env);
      && r.pending == (if e.pending == Some(f) then None else e.pending)
      && (if generation == e.generation && response != Accepted then Over(e, r, "stopped")
          else r == e.(pending := r.pending))
  {
  }

  /** What the overdue start request does by itself. */
  lemma OverdueStartEnds(e: Explorer, now: real, env: StopEnv)
    ensures var r, overdue := RetireStart(e, now, env), e.pending.Some? && now > e.deadline;
      && r.pending == (if overdue then None else e.pending)
      && r.unansweredStarts == e.unansweredStarts - (if overdue then {e.pending.value} else {})
      && (if e.active && overdue then Over(e, r, "stopped")
          else
            && r.active == e.active && r.status == e.status && r.generation == e.generation && r.calls == e.calls
            && r.lastLink == e.lastLink)
  {
    StopAsksPlanner(e.(pending := None), true, "stopped", env);
  }

  lemma RetiredStopKeeps(e: Explorer, now: real)
    ensures var r := RetireStop(e, now);
      r == e.(pendingStop := r.pendingStop, unansweredStops := r.unansweredStops)
  {
  }

  /**
   * A tick leaves a session running exactly when its start request is not overdue and the link has been heard of
   * recently enough; an overdue start request is withdrawn either way.
   */
  lemma TickEndsExactly(e: Explorer, now: real, later: real, linkTimeout: real, env: StopEnv, linkEnv: StopEnv)
    ensures var r := Tick(e, now, later, linkTimeout, env, linkEnv);
      && (r.active <==>
            e.active && !(e.pending.Some? && now > e.deadline) && later - e.lastLink <= linkTimeout)
      && (e.active && !r.active ==>
            && r.status == "stopped" && r.generation == e.generation + 1
            && r.calls == e.calls + [CancelGoal, DriveZero])
      && (!e.active || r.active ==> r.status == e.status && r.generation == e.generation && r.calls == e.calls)
      && r.pending == (if e.pending.Some? && now > e.deadline then None else e.pending)
      && r.unansweredStarts ==
        e.unansweredStarts - (if e.pending.Some? && now > e.deadline then {e.pending.value} else {})
  {
    OverdueStartEnds(e, now, env);
    var s := RetireStart(e, now, env);
    RetiredStopKeeps(s, now);
    StopAsksPlanner(RetireStop(s, now), true, "stopped", linkEnv);
  }

  /** A path is driven along exactly when it is of this session, not empty, finite and in the map frame. */
  lemma PathIsDrivenExactly(e: Explorer, path: Path, env: StopEnv)
    ensures var (r, navigating) := OnPathBegin(e, path, env);
      && (navigating <==> e.active && path.stampNs >= e.startedNs && !path.empty && path.frameMatches && path.finite)
      && (navigating ==> r == e.(status := "exploring"))
      && (e.active && path.stampNs >= e.startedNs && path.empty ==>
            Over(e, r.(awaitingTerminal := false), "stopped") && r.awaitingTerminal && StopsUntouched(e, r))
      && (e.active && path.stampNs >= e.startedNs && !path.empty && !navigating ==> Over(e, r, "stopped"))
      && (!e.active || path.stampNs < e.startedNs ==> r == e)
  {
  }

  /** After the blocking call, the goal is left standing exactly for the session it was sent for. */
  lemma GoalStandsExactly(e: Explorer, generation: nat, raised: bool, env: StopEnv)
    ensures var r := OnPathEnd(e, generation, raised, env);
      if !raised && e.active && generation == e.generation then r == e
      else |r.calls| >= 2 && r.calls[|r.calls| - 2..] == [CancelGoal, DriveZero] && (raised ==> !r.active)
  {
  }

  /** Reports count only from this session's clock on, and only once that clock has started. */
  lemma ReportTaken(e: Explorer, report: Report, env: StopEnv)
    ensures var r, done := OnStatus(e, Some(report), env), report.state == "complete" || report.state == "blocked";
      if report.stampNs < e.startedNs || e.startedNs == 0 then r == e
      else if done && (e.active || e.awaitingTerminal) then Over(e, r, report.state) && StopsUntouched(e, r)
      else if (report.state == "starting" || report.state == "exploring") && e.active
          then r == e.(status := report.state)
      else r == e
    ensures OnStatus(e, None, env) == e
  {
  }

  /** Everything the operator can send except mode changes and unknown commands takes over from exploration. */
  lemma OperatorTakesOver(e: Explorer, c: Command, start: StartEnv, env: StopEnv)
    ensures var r := Dispatch(e, c, start, env);
      match c
      case Explore(enabled) => if enabled then r == Start(e, start) else Over(e, r, "stopped")
      case SetMode => r == e.(calls := e.calls + [Operator(SetMode)])
      case Unknown => r == e
      case _ =>
        && r.calls == e.calls + (if e.active then [CancelGoal, DriveZero] else []) + [Operator(c)]
        && Over(e, r.(calls := r.calls[..|r.calls| - 1]), "stopped")
  {
    if !c.Explore? && !c.SetMode? && !c.Unknown? {
      StopAsksPlanner(e, true, "stopped", env);
      var s := ManualStop(e, env);
      assert (s.calls + [Operator(c)])[..|s.calls|] == s.calls;
    }
  }

  /** A lost operator connection ends the session, and halts the robot whether or not it was exploring. */
  lemma DisconnectHalts(e: Explorer, env: StopEnv)
    ensures var r := StopOnDisconnect(e, env);
      && !r.active && !r.awaitingTerminal && r.status == "stopped" && r.generation == e.generation + 1
      && r.calls == e.calls + (if e.active then [CancelGoal, DriveZero] else []) + [CancelGoal, DriveZero]
  {
  }

  /** With no session running, a tick withdraws exactly the requests that are overdue. */
  lemma IdleTickRetires(e: Explorer, now: real, later: real, linkTimeout: real, env: StopEnv, linkEnv: StopEnv)
    requires !e.active
    ensures var r := Tick(e, now, later, linkTimeout, env, linkEnv);
      var stopOverdue := e.pendingStop.Some? && now > e.stopDeadline;
      && r.pendingStop == (if stopOverdue then None else e.pendingStop)
      && r.unansweredStops == e.unansweredStops - (if stopOverdue then {e.pendingStop.value} else {})
      && r.calls == e.calls && r.status == e.status && !r.active
  {
    OverdueStartEnds(e, now, env);
  }

  // ---- the label

  /** A running session is shown as starting or exploring, an ended one by how it ended. */
  ghost predicate ShownRight(e: Explorer) {
    if e.active then e.status == "starting" || e.status == "exploring"
    else e.status == "idle" || e.status == "stopped" || e.status == "complete" || e.status == "blocked"
  }

  lemma StopShownRight(e: Explorer, notify: bool, status: string, env: StopEnv)
    requires status == "stopped" || IsTerminal(status)
    ensures ShownRight(Stop(e, notify, status, env))
  {
  }

  lemma StartShownRight(e: Explorer, env: StartEnv)
    requires ShownRight(e)
    ensures ShownRight(Start(e, env))
  {
    StopShownRight(Armed(e, env), true, "stopped", env.stop);
  }

  lemma TickShownRight(e: Explorer, now: real, later: real, linkTimeout: real, env: StopEnv, linkEnv: StopEnv)
    requires ShownRight(e)
    ensures ShownRight(Tick(e, now, later, linkTimeout, env, linkEnv))
  {
    StopShownRight(e, true, "stopped", env);
    var s := RetireStop(RetireStart(e, now, env), now);
    StopShownRight(s, true, "stopped", linkEnv);
  }

  lemma CommandShownRight(e: Explorer, c: Command, start: StartEnv, env: StopEnv)
    requires ShownRight(e)
    ensures ShownRight(Dispatch(e, c, start, env))
  {
    StartShownRight(e, start);
    StopShownRight(e, true, "stopped", env);
  }

  lemma PathShownRight(s: System, step: Step)
    requires ShownRight(s.e) && (step.PathEnters? || step.GoalGoesOut? || step.PathReturns?)
    ensures ShownRight(Next(s, step).e)
  {
  }

  lemma NextShownRight(s: System, step: Step)
    requires ShownRight(s.e)
    ensures ShownRight(Next(s, step).e)
  {
    match step {
      case StartStep(start) => StartShownRight(s.e, start);
      case StopStep(env) => StopShownRight(s.e, true, "stopped", env);
      case AnswerStep(f) =>
      case StartedStep(f, generation, response, env) => RefusalEndsSession(s.e, f, generation, response, env);
      case TickStep(now, later, linkTimeout, env, linkEnv) =>
        TickShownRight(s.e, now, later, linkTimeout, env, linkEnv);
      case LinkStep(now) =>
      case StatusStep(message, env) =>
        if message.Some? {
          ReportTaken(s.e, message.value, env);
        }
      case CommandStep(command, start, env) => CommandShownRight(s.e, command, start, env);
      case DisconnectStep(env) => StopShownRight(s.e, true, "stopped", env);
      case _ => PathShownRight(s, step);
    }
  }

  lemma {:induction false} RunShownRight(s: System, steps: seq<Step>)
    requires ShownRight(s.e)
    ensures ShownRight(Run(s, steps).e)
    decreases steps
  {
    if steps != [] {
      NextShownRight(s, steps[0]);
      RunShownRight(Next(s, steps[0]), steps[1..]);
    }
  }

  /** In every run the label shown agrees with whether exploration is under way. */
  lemma LabelAgrees(steps: seq<Step>)
    ensures var e := Run(INIT, steps).e;
      && (e.active <==> e.status == "starting" || e.status == "exploring")
      && (!e.active ==> e.status in {"idle", "stopped", "complete", "blocked"})
  {
    RunShownRight(INIT, steps);
  }

  // ---- losing the link

  /**
   * Exploration cannot outlive the link: in every run, the first tick more than the timeout after the last link message
   * ends the session and halts the robot; until a start passes its guards, no goal goes out any more but those of path
   * callbacks already in flight.
   */
  lemma LinkLossEndsSession(before: seq<Step>, now: real, later: real, linkTimeout: real, env: StopEnv,
      linkEnv: StopEnv, after: seq<Step>)
    requires Run(INIT, before).e.active && later - Run(INIT, before).e.lastLink > linkTimeout
    requires NeverRestarts(Next(Run(INIT, before), TickStep(now, later, linkTimeout, env, linkEnv)), after)
    ensures var s := Run(INIT, before);
      var t := Next(s, TickStep(now, later, linkTimeout, env, linkEnv));
      && t.e.calls == s.e.calls + [CancelGoal, DriveZero]
      && !Run(t, after).e.active && Run(t, after).e.status == "stopped" && OnlyOldGoals(t, Run(t, after))
  {
    var s := Run(INIT, before);
    var t := Next(s, TickStep(now, later, linkTimeout, env, linkEnv));
    TickEndsExactly(s.e, now, later, linkTimeout, env, linkEnv);
    TickShuts(s.e, now, later, linkTimeout, env, linkEnv);
    NoGoalWithoutStart(t, after);
  }

  lemma TickShuts(e: Explorer, now: real, later: real, linkTimeout: real, env: StopEnv, linkEnv: StopEnv)
    requires e.active && later - e.lastLink > linkTimeout
    ensures !Tick(e, now, later, linkTimeout, env, linkEnv).awaitingTerminal
  {
  }
}
