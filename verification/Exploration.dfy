/**
 * The exploration session controller: generation counter, start/stop requests with deadlines, path and status intake.
 */
module Exploration {
  import opened Options

  type Future = nat

  datatype Command =
    | Explore(enabled: bool)
    | NavigateTo
    | CancelGoalCommand
    | DriveCommand
    | StopCommand
    | Reset
    | BodyCommand
    | SetMode
    | Unknown

  /** The operator commands that move or stop the robot. */
  predicate IsMotion(c: Command) {
    c.NavigateTo? || c.CancelGoalCommand? || c.DriveCommand? || c.StopCommand? || c.Reset? || c.BodyCommand?
  }

  /** Calls that reach the robot bridge. A navigate carries the session generation of the path it came from. */
  datatype BridgeCall = Navigate(generation: nat) | CancelGoal | DriveZero | Operator(command: Command)

  datatype Explorer = Explorer(
    active: bool,
    generation: nat,
    status: string,
    awaitingTerminal: bool,
    startedNs: int,
    pending: Option<Future>,
    pendingStop: Option<Future>,
    deadline: real,
    stopDeadline: real,
    lastLink: real,
    nextFuture: nat,
    unansweredStarts: set<Future>,   // start requests neither answered nor cancelled
    unansweredStops: set<Future>,    // stop requests neither answered nor cancelled
    calls: seq<BridgeCall>)

  const INITIALLY := Explorer(false, 0, "idle", false, 0, None, None, 0.0, 0.0, 0.0, 0, {}, {}, [])

  /** What `stop` meets: whether the stop service is ready, whether the request call raises, and the time. */
  datatype StopEnv = StopEnv(ready: bool, raises: bool, now: real)

  datatype StartEnv = StartEnv(startReady: bool, stopReady: bool, raises: bool, clockNs: int, now: real, stop: StopEnv)

  datatype Response = Accepted | Rejected | Raised

  /** A status message; `None` stands for one that does not parse. */
  datatype Report = Report(stampNs: int, state: string)

  datatype Path = Path(stampNs: int, empty: bool, frameMatches: bool, finite: bool)

  const REQUEST_TIMEOUT := 30.0

  function Stop(e: Explorer, notifyPlanner: bool, status: string, env: StopEnv): Explorer {
    var s := e.(status := status, awaitingTerminal := false, active := false, generation := e.generation + 1);
    if !e.active then s else
      var n := if notifyPlanner && env.ready && !env.raises
               then s.(pendingStop := Some(e.nextFuture), stopDeadline := env.now + REQUEST_TIMEOUT,
                       nextFuture := e.nextFuture + 1, unansweredStops := e.unansweredStops + {e.nextFuture})
               else s;
      n.(calls := e.calls + [CancelGoal, DriveZero])
  }

  function ManualStop(e: Explorer, env: StopEnv): Explorer {
    Stop(e, true, "stopped", env)
  }

  predicate Busy(f: Option<Future>, unanswered: set<Future>) {
    f.Some? && f.value in unanswered
  }

  predicate StartPasses(e: Explorer, env: StartEnv) {
    && !e.active
    && !Busy(e.pending, e.unansweredStarts) && !Busy(e.pendingStop, e.unansweredStops)
    && env.startReady && env.stopReady
  }

  /** A new session, before its start request is sent. */
  function Armed(e: Explorer, env: StartEnv): Explorer {
    e.(calls := e.calls + [CancelGoal], generation := e.generation + 1, startedNs := env.clockNs,
       awaitingTerminal := false, status := "starting", active := true, deadline := env.now + REQUEST_TIMEOUT)
  }

  function Start(e: Explorer, env: StartEnv): Explorer {
    if !StartPasses(e, env) then e else
      var s := Armed(e, env);
      if env.raises then ManualStop(s, env.stop)
      else s.(pending := Some(e.nextFuture), nextFuture := e.nextFuture + 1,
          unansweredStarts := e.unansweredStarts + {e.nextFuture})
  }

  function Started(e: Explorer, f: Future, generation: nat, response: Response, env: StopEnv): Explorer {
    var s := if e.pending == Some(f) then e.(pending := None) else e;
    if generation != e.generation || response.Accepted? then s else ManualStop(s, env)
  }

  function RetireStart(e: Explorer, now: real, env: StopEnv): Explorer {
    if e.pending.None? || now <= e.deadline then e else
      var s := e.(pending := None);
      var t := if e.active then ManualStop(s, env) else s;
      t.(unansweredStarts := t.unansweredStarts - {e.pending.value})
  }

  function RetireStop(e: Explorer, now: real): Explorer {
    if e.pendingStop.None? || now <= e.stopDeadline then e
    else e.(pendingStop := None, unansweredStops := e.unansweredStops - {e.pendingStop.value})
  }

  /** `now` and `later` are the two clock readings one tick takes. */
  function Tick(e: Explorer, now: real, later: real, linkTimeout: real, env: StopEnv, linkEnv: StopEnv): Explorer {
    var s := RetireStop(RetireStart(e, now, env), now);
    if s.active && later - s.lastLink > linkTimeout then ManualStop(s, linkEnv) else s
  }

  predicate IsTerminal(state: string) {
    state == "complete" || state == "blocked"
  }

  predicate Stale(e: Explorer, stampNs: int) {
    stampNs < e.startedNs
  }

  function OnStatus(e: Explorer, message: Option<Report>, env: StopEnv): Explorer {
    if message.None? then e else
      var Report(stampNs, state) := message.value;
      if Stale(e, stampNs) || e.startedNs == 0 then e
      else if IsTerminal(state) then
        if e.active || e.awaitingTerminal then Stop(e, false, state, env).(awaitingTerminal := false) else e
      else if (state == "starting" || state == "exploring") && e.active then e.(status := state)
      else e
  }

  /** `on_path` up to its blocking `navigate_to`; true when that call is made, for generation `e.generation`. */
  function OnPathBegin(e: Explorer, path: Path, env: StopEnv): (Explorer, bool) {
    if !e.active || Stale(e, path.stampNs) then (e, false)
    else if path.empty then (Stop(e, false, "stopped", env).(awaitingTerminal := true), false)
    else if !path.frameMatches || !path.finite then (ManualStop(e, env), false)
    else (e.(status := "exploring"), true)
  }

  /** `on_path` after `navigate_to` returned or raised. */
  function OnPathEnd(e: Explorer, generation: nat, raised: bool, env: StopEnv): Explorer {
    var s := if raised then ManualStop(e, env) else e;
    if !s.active || generation != s.generation then s.(calls := s.calls + [CancelGoal, DriveZero]) else s
  }

  function Dispatch(e: Explorer, c: Command, start: StartEnv, env: StopEnv): Explorer {
    match c
    case Explore(enabled) => if enabled then Start(e, start) else ManualStop(e, env)
    case Unknown => e
    case _ =>
      var s := if IsMotion(c) then ManualStop(e, env) else e;
      s.(calls := s.calls + [Operator(c)])
  }

  function StopOnDisconnect(e: Explorer, env: StopEnv): Explorer {
    var s := ManualStop(e, env);
    s.(calls := s.calls + [CancelGoal, DriveZero])
  }

  class MggExploration {
    var active: bool
    var generation: nat
    var status: string
    var awaitingTerminal: bool
    var startedNs: int
    var pending: Option<Future>
    var pendingStop: Option<Future>
    var deadline: real
    var stopDeadline: real
    var lastLink: real
    // the service clients' request tables, and the calls made on the bridge
    var nextFuture: nat
    var unansweredStarts: set<Future>
    var unansweredStops: set<Future>
    ghost var calls: seq<BridgeCall>

    ghost function View(): Explorer
      reads this
    {
      Explorer(active, generation, status, awaitingTerminal, startedNs, pending, pendingStop, deadline, stopDeadline,
               lastLink, nextFuture, unansweredStarts, unansweredStops, calls)
    }

    constructor ()
      ensures View() == INITIALLY
    {
      active, generation, status, awaitingTerminal, startedNs := false, 0, "idle", false, 0;
      pending, pendingStop, deadline, stopDeadline, lastLink := None, None, 0.0, 0.0, 0.0;
      nextFuture, unansweredStarts, unansweredStops, calls := 0, {}, {}, [];
    }

    method CallStart() returns (f: Future)
      modifies this
      ensures f == old(nextFuture)
      ensures View() == old(View()).(nextFuture := f + 1, unansweredStarts := old(unansweredStarts) + {f})
    {
      f := nextFuture;
      nextFuture, unansweredStarts := nextFuture + 1, unansweredStarts + {f};
    }

    method CallStop() returns (f: Future)
      modifies this
      ensures f == old(nextFuture)
      ensures View() == old(View()).(nextFuture := f + 1, unansweredStops := old(unansweredStops) + {f})
    {
      f := nextFuture;
      nextFuture, unansweredStops := nextFuture + 1, unansweredStops + {f};
    }

    method StopSession(notifyPlanner: bool, newStatus: string, env: StopEnv)
      modifies this
      ensures View() == Stop(old(View()), notifyPlanner, newStatus, env)
    {
      status := newStatus;
      awaitingTerminal := false;
      var wasActive := active;
      active := false;
      generation := generation + 1;
      if wasActive {
        if notifyPlanner && env.ready && !env.raises {
          var f := CallStop();
          pendingStop := Some(f);
          stopDeadline := env.now + REQUEST_TIMEOUT;
        }
        calls := calls + [CancelGoal];
        calls := calls + [DriveZero];
      }
    }

    method StartSession(env: StartEnv)
      modifies this
      ensures View() == Start(old(View()), env)
    {
      if active || Busy(pending, unansweredStarts) || Busy(pendingStop, unansweredStops) || !env.startReady
          || !env.stopReady {
        return;
      }
      calls := calls + [CancelGoal];
      generation := generation + 1;
      startedNs := env.clockNs;
      awaitingTerminal := false;
      status := "starting";
      active := true;
      deadline := env.now + REQUEST_TIMEOUT;
      assert View() == Armed(old(View()), env);
      if env.raises {
        StopSession(true, "stopped", env.stop);
        return;
      }
      var f := CallStart();
      pending := Some(f);
    }

    method StartAnswered(f: Future, g: nat, response: Response, env: StopEnv)
      modifies this
      ensures View() == Started(old(View()), f, g, response, env)
    {
      if pending == Some(f) {
        pending := None;
      }
      if g != generation {
        return;
      }
      if !response.Accepted? {
        StopSession(true, "stopped", env);
      }
    }

    method TimerTick(now: real, later: real, linkTimeout: real, env: StopEnv, linkEnv: StopEnv)
      modifies this
      ensures View() == Tick(old(View()), now, later, linkTimeout, env, linkEnv)
    {
      if pending.Some? && now > deadline {
        var f := pending.value;
        pending := None;
        if active {
          StopSession(true, "stopped", env);
        }
        unansweredStarts := unansweredStarts - {f};
      }
      assert View() == RetireStart(old(View()), now, env);
      if pendingStop.Some? && now > stopDeadline {
        var f := pendingStop.value;
        pendingStop := None;
        unansweredStops := unansweredStops - {f};
      }
      assert View() == RetireStop(RetireStart(old(View()), now, env), now);
      if active && later - lastLink > linkTimeout {
        StopSession(true, "stopped", linkEnv);
      }
    }

    method HandleStatus(message: Option<Report>, env: StopEnv)
      modifies this
      ensures View() == OnStatus(old(View()), message, env)
    {
      if message.None? {
        return;
      }
      var report := message.value;
      if report.stampNs < startedNs || startedNs == 0 {
        return;
      }
      if report.state == "complete" || report.state == "blocked" {
        if active || awaitingTerminal {
          StopSession(false, report.state, env);
          awaitingTerminal := false;
        }
      } else if (report.state == "starting" || report.state == "exploring") && active {
        status := report.state;
      }
    }

    method PathBegin(path: Path, env: StopEnv) returns (navigating: bool, g: nat)
      modifies this
      ensures (View(), navigating) == OnPathBegin(old(View()), path, env)
      ensures navigating ==> g == old(generation)
    {
      g := generation;
      if !active || path.stampNs < startedNs {
        return false, g;
      }
      if path.empty {
        StopSession(false, "stopped", env);
        awaitingTerminal := true;
        return false, g;
      }
      if !path.frameMatches || !path.finite {
        StopSession(true, "stopped", env);
        return false, g;
      }
      status := "exploring";
      return true, g;
    }

    method PathEnd(g: nat, raised: bool, env: StopEnv)
      modifies this
      ensures View() == OnPathEnd(old(View()), g, raised, env)
    {
      if raised {
        StopSession(true, "stopped", env);
      }
      if !active || g != generation {
        calls := calls + [CancelGoal];
        calls := calls + [DriveZero];
      }
    }

    method DispatchCommand(c: Command, start: StartEnv, env: StopEnv)
      modifies this
      ensures View() == Dispatch(old(View()), c, start, env)
    {
      if c.Explore? {
        if c.enabled {
          StartSession(start);
        } else {
          StopSession(true, "stopped", env);
        }
        return;
      }
      if IsMotion(c) {
        StopSession(true, "stopped", env);
      }
      if c != Unknown {
        calls := calls + [Operator(c)];
      }
    }

    method Disconnect(env: StopEnv)
      modifies this
      ensures View() == StopOnDisconnect(old(View()), env)
    {
      StopSession(true, "stopped", env);
      calls := calls + [CancelGoal];
      calls := calls + [DriveZero];
    }
  }
}
