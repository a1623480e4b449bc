/** The simulated robot's navigation goal protocol: one action goal at a time, generations, and the reverse escape. */
module SimGoals {
  import opened Options

  type Handle = nat

  datatype Goal = Goal(x: real, y: real, yaw: real)

  datatype Escape = Escape(x: real, y: real, startedAt: real, progressAt: real)

  datatype Twist = Twist(linear: real, angular: real)

  /** Goal requests and handles as the action server and client library hold them. */
  datatype Server = Server(
    requests: map<nat, nat>,      // requests without a response yet, with the generation that sent them
    accepted: map<Handle, nat>,   // every handle ever accepted, with that generation
    awaited: set<Handle>,         // handles with a result callback still to come
    cancelled: set<Handle>,       // handles sent a cancel
    delivered: set<Handle>,       // handles whose result callback has run
    nextRequest: nat,
    nextHandle: Handle)

  datatype Robot = Robot(
    generation: nat,
    handle: Option<Handle>,
    goal: Option<Goal>,
    navStatus: string,
    mode: string,
    escape: Option<Escape>,
    lastDriveAt: real,
    twists: seq<Twist>,
    server: Server)

  const INITIALLY := Robot(0, None, None, "idle", "idle", None, 0.0, [], Server(map[], map[], {}, {}, {}, 0, 0))

  const ZERO := Twist(0.0, 0.0)
  const ESCAPE_SPEED := -0.15
  const ESCAPE_DISTANCE := 0.45
  const ESCAPE_TIMEOUT := 15.0
  const ESCAPE_STALL := 2.5
  const ESCAPE_STALL_DISTANCE := 0.05

  datatype ResponseOutcome = Accepted | Rejected | ResponseRaised

  datatype ResultOutcome = Succeeded | Canceled | Aborted | OtherStatus | ResultRaised

  /** The robot's map pose and the clock, read when an escape is armed. */
  datatype Reading = Reading(x: real, y: real, now: real)

  function ClearEscape(s: Robot): Robot {
    if s.escape.None? then s
    else s.(escape := None, twists := s.twists + [ZERO], mode := if s.mode == "recover" then "idle" else s.mode)
  }

  function CancelNav(s: Robot): Robot {
    var cancelled := if s.handle.Some? then s.server.cancelled + {s.handle.value} else s.server.cancelled;
    ClearEscape(s.(generation := s.generation + 1, handle := None, server := s.server.(cancelled := cancelled)))
  }

  /**
   * A goal message without usable numbers raises once the previous goal is superseded: what is shown stays as it was.
   */
  function NavigateTo(s: Robot, goal: Option<Goal>, serverReady: bool): Robot {
    var c := CancelNav(s);
    if !serverReady then c.(goal := None, navStatus := "failed", mode := "idle")
    else if goal.None? then c
    else
      c.(goal := goal, navStatus := "active", mode := "nav",
         server := c.server.(requests := c.server.requests[c.server.nextRequest := c.generation],
                             nextRequest := c.server.nextRequest + 1))
  }

  function FinishGoal(s: Robot, status: string, generation: nat, at: Reading): Robot {
    if generation != s.generation then s else
      var f := s.(handle := None, goal := None, navStatus := status, mode := "idle");
      if status == "failed" then f.(escape := Some(Escape(at.x, at.y, at.now, at.now)), mode := "recover") else f
  }

  function OnResponse(s: Robot, request: nat, outcome: ResponseOutcome, at: Reading): Robot
    requires request in s.server.requests
  {
    var generation := s.server.requests[request];
    var answered := s.server.(requests := s.server.requests - {request});
    var h := answered.nextHandle;
    var registered := answered.(accepted := answered.accepted[h := generation], nextHandle := h + 1);
    if outcome.Accepted? then
      if generation != s.generation
      then s.(server := registered.(cancelled := registered.cancelled + {h}))
      else s.(handle := Some(h), server := registered.(awaited := registered.awaited + {h}))
    else FinishGoal(s.(server := answered), "failed", generation, at)
  }

  function TerminalStatus(outcome: ResultOutcome): string {
    match outcome
    case Succeeded => "succeeded"
    case Canceled => "cancelled"
    case _ => "failed"
  }

  function OnResult(s: Robot, h: Handle, outcome: ResultOutcome, at: Reading): Robot
    requires h in s.server.accepted
  {
    var r := s.(server := s.server.(awaited := s.server.awaited - {h}, delivered := s.server.delivered + {h}));
    FinishGoal(r, TerminalStatus(outcome), s.server.accepted[h], at)
  }

  function Clamp(v: real, limit: real): real {
    var low := if v < limit then v else limit;
    if low > -limit then low else -limit
  }

  predicate Moving(t: Twist) {
    t.linear > 0.001 || t.linear < -0.001 || t.angular > 0.001 || t.angular < -0.001
  }

  function Drive(s: Robot, linear: real, angular: real, now: real): Robot {
    var c := CancelNav(s);
    var t := Twist(Clamp(linear, 0.45), Clamp(angular, 1.2));
    c.(twists := c.twists + [t], lastDriveAt := if Moving(t) then now else 0.0, goal := None, navStatus := "idle",
       mode := if Moving(t) then "teleop" else "idle")
  }

  function Halt(s: Robot, navStatus: string, mode: string): Robot {
    var c := CancelNav(s);
    c.(twists := c.twists + [ZERO], goal := None, navStatus := navStatus, mode := mode)
  }

  function Stop(s: Robot): Robot { Halt(s, "idle", "estop") }

  function Cancel(s: Robot): Robot { Halt(s, "cancelled", "idle") }

  function Reset(s: Robot): Robot { Halt(s, "idle", "idle").(lastDriveAt := 0.0) }

  function DriveWatchdog(s: Robot, now: real, timeout: real): Robot {
    if s.mode == "teleop" && now - s.lastDriveAt > timeout
    then s.(twists := s.twists + [ZERO], lastDriveAt := 0.0, mode := "idle")
    else s
  }

  /** `moved` is the distance from the pose at which the goal failed. */
  function EscapeTick(s: Robot, moved: real, now: real): Robot {
    if s.escape.None? then s
    else if moved >= ESCAPE_DISTANCE || now - s.escape.value.startedAt > ESCAPE_TIMEOUT then ClearEscape(s)
    else if moved <= ESCAPE_STALL_DISTANCE && now - s.escape.value.progressAt > ESCAPE_STALL then ClearEscape(s)
    else
      var e := if moved > ESCAPE_STALL_DISTANCE then s.escape.value.(progressAt := now) else s.escape.value;
      s.(escape := Some(e), twists := s.twists + [Twist(ESCAPE_SPEED, 0.0)])
  }

  class RobotBridge {
    var generation: nat
    var handle: Option<Handle>
    var goal: Option<Goal>
    var navStatus: string
    var mode: string
    var escape: Option<Escape>
    var lastDriveAt: real
    ghost var twists: seq<Twist>
    ghost var server: Server

    ghost function View(): Robot
      reads this
    {
      Robot(generation, handle, goal, navStatus, mode, escape, lastDriveAt, twists, server)
    }

    constructor ()
      ensures View() == INITIALLY
    {
      generation, handle, goal, navStatus, mode, escape, lastDriveAt := 0, None, None, "idle", "idle", None, 0.0;
      twists, server := [], Server(map[], map[], {}, {}, {}, 0, 0);
    }

    method ClearEscapeInPlace()
      modifies this
      ensures View() == ClearEscape(old(View()))
    {
      if escape.Some? {
        escape := None;
        twists := twists + [ZERO];
        if mode == "recover" {
          mode := "idle";
        }
      }
    }

    method CancelNavigation()
      modifies this
      ensures View() == CancelNav(old(View()))
    {
      generation := generation + 1;
      if handle.Some? {
        server := server.(cancelled := server.cancelled + {handle.value});
      }
      handle := None;
      ClearEscapeInPlace();
    }

    /** Returns the generation its goal request was sent under, which the response callback carries. */
    method Navigate(target: Option<Goal>, serverReady: bool) returns (raised: bool, sentAs: nat)
      modifies this
      ensures View() == NavigateTo(old(View()), target, serverReady)
      ensures raised <==> serverReady && target.None?
      ensures sentAs == generation
    {
      CancelNavigation();
      raised, sentAs := false, generation;
      if !serverReady {
        goal := None;
        navStatus, mode := "failed", "idle";
        return;
      }
      if target.None? {
        return true, sentAs;
      }
      server := server.(requests := server.requests[server.nextRequest := sentAs],
          nextRequest := server.nextRequest + 1);
      goal := target;
      navStatus, mode := "active", "nav";
    }

    method Finish(status: string, g: nat, at: Reading)
      modifies this
      ensures View() == FinishGoal(old(View()), status, g, at)
    {
      if g != generation {
        return;
      }
      handle := None;
      goal := None;
      navStatus, mode := status, "idle";
      if status == "failed" {
        escape := Some(Escape(at.x, at.y, at.now, at.now));
        mode := "recover";
      }
    }

    method GoalResponse(ghost request: nat, g: nat, outcome: ResponseOutcome, h: Handle, at: Reading)
      requires request in server.requests && server.requests[request] == g && h == server.nextHandle
      modifies this
      ensures View() == OnResponse(old(View()), request, outcome, at)
    {
      server := server.(requests := server.requests - {request});
      if outcome.Accepted? {
        server := server.(accepted := server.accepted[h := g], nextHandle := h + 1);
      }
      if g != generation {
        if outcome.Accepted? {
          server := server.(cancelled := server.cancelled + {h});
        }
        return;
      }
      if !outcome.Accepted? {
        Finish("failed", g, at);
        return;
      }
      handle := Some(h);
      server := server.(awaited := server.awaited + {h});
    }

    method GoalResult(ghost h: Handle, g: nat, outcome: ResultOutcome, at: Reading)
      requires h in server.accepted && server.accepted[h] == g
      modifies this
      ensures View() == OnResult(old(View()), h, outcome, at)
    {
      server := server.(awaited := server.awaited - {h}, delivered := server.delivered + {h});
      if g != generation {
        return;
      }
      Finish(TerminalStatus(outcome), g, at);
    }

    method DriveCommand(linear: real, angular: real, now: real)
      modifies this
      ensures View() == Drive(old(View()), linear, angular, now)
    {
      CancelNavigation();
      var t := Twist(Clamp(linear, 0.45), Clamp(angular, 1.2));
      twists := twists + [t];
      lastDriveAt := if Moving(t) then now else 0.0;
      goal := None;
      navStatus := "idle";
      mode := if Moving(t) then "teleop" else "idle";
    }

    /** The common tail of stop, cancel and reset. */
    method HaltRobot(status: string, newMode: string)
      modifies this
      ensures View() == Halt(old(View()), status, newMode)
    {
      CancelNavigation();
      twists := twists + [ZERO];
      goal := None;
      navStatus, mode := status, newMode;
    }

    method TickEscape(moved: real, now: real)
      modifies this
      ensures View() == EscapeTick(old(View()), moved, now)
    {
      if escape.None? {
        return;
      }
      if moved >= ESCAPE_DISTANCE || now - escape.value.startedAt > ESCAPE_TIMEOUT {
        ClearEscapeInPlace();
        return;
      }
      if moved > ESCAPE_STALL_DISTANCE {
        escape := Some(escape.value.(progressAt := now));
      } else if now - escape.value.progressAt > ESCAPE_STALL {
        ClearEscapeInPlace();
        return;
      }
      twists := twists + [Twist(ESCAPE_SPEED, 0.0)];
    }
  }
}
