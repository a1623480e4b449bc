/** The teleop deadman and the planner-velocity relay of the hardware bridge. */
module Deadman {
  import opened Options

  datatype Twist = Twist(linear: real, angular: real)

  const ZERO := Twist(0.0, 0.0)

  datatype Config = Config(driveTimeout: real, linkTimeout: real, trajectoryServer: bool)

  datatype Link = Link(
    mode: string,
    navStatus: string,
    lastDriveAt: real,
    lastLinkAt: real,
    pendingDrive: Option<Twist>,
    published: seq<(real, Twist)>)   // every velocity published, with its time

  predicate Moving(t: Twist) {
    t.linear > 0.001 || t.linear < -0.001 || t.angular > 0.001 || t.angular < -0.001
  }

  function Publish(s: Link, now: real, t: Twist): Link {
    s.(published := s.published + [(now, t)])
  }

  /** With a trajectory server, cancelling also publishes a zero velocity to preempt it. */
  function CancelGoal(s: Link, cfg: Config, now: real): Link {
    var c := s.(navStatus := "cancelled", mode := "idle");
    if cfg.trajectoryServer then Publish(c, now, ZERO) else c
  }

  function Drive(s: Link, cfg: Config, now: real, t: Twist): Link {
    var c := if Moving(t) && s.navStatus == "active" then CancelGoal(s, cfg, now) else s;
    Publish(c, now, t).(mode := if Moving(t) then "teleop" else c.mode, lastDriveAt := if Moving(t) then now else 0.0)
  }

  /** The session's `drive` command: latch it, then apply it at once. */
  function DriveCommand(s: Link, cfg: Config, now: real, t: Twist): Link {
    Drive(s.(pendingDrive := Some(t), lastLinkAt := now), cfg, now, t)
  }

  function ApplyPending(s: Link, cfg: Config, now: real): Link {
    if s.pendingDrive.None? then s else Drive(s.(pendingDrive := None), cfg, now, s.pendingDrive.value)
  }

  function DriveWatchdog(s: Link, cfg: Config, now: real): Link {
    if s.mode != "teleop" || s.lastDriveAt == 0.0 then s
    else if now - s.lastDriveAt > cfg.driveTimeout then Drive(s, cfg, now, ZERO).(mode := "idle", lastDriveAt := 0.0)
    else s
  }

  predicate LinkOk(s: Link, cfg: Config, now: real) {
    now - s.lastLinkAt <= cfg.linkTimeout
  }

  function LinkWatchdog(s: Link, cfg: Config, now: real): Link {
    if s.navStatus != "active" || LinkOk(s, cfg, now) then s else Drive(CancelGoal(s, cfg, now), cfg, now, ZERO)
  }

  function Watchdogs(s: Link, cfg: Config, now: real): Link {
    LinkWatchdog(DriveWatchdog(ApplyPending(s, cfg, now), cfg, now), cfg, now)
  }

  function RelayPlanner(s: Link, cfg: Config, now: real, t: Twist): Link {
    if s.navStatus == "active" && LinkOk(s, cfg, now) then Publish(s, now, t) else s
  }

  class AdapterLink {
    const cfg: Config
    var mode: string
    var navStatus: string
    var lastDriveAt: real
    var lastLinkAt: real
    var pendingDrive: Option<Twist>
    ghost var published: seq<(real, Twist)>

    constructor (cfg: Config)
      ensures this.cfg == cfg && View() == Link("idle", "idle", 0.0, 0.0, None, [])
    {
      this.cfg := cfg;
      mode, navStatus, lastDriveAt, lastLinkAt, pendingDrive, published := "idle", "idle", 0.0, 0.0, None, [];
    }

    ghost function View(): Link
      reads this
    {
      Link(mode, navStatus, lastDriveAt, lastLinkAt, pendingDrive, published)
    }

    method CancelActiveGoal(now: real)
      modifies this
      ensures View() == CancelGoal(old(View()), cfg, now)
    {
      navStatus, mode := "cancelled", "idle";
      if cfg.trajectoryServer {
        published := published + [(now, ZERO)];
      }
    }

    method DriveTwist(now: real, t: Twist)
      modifies this
      ensures View() == Drive(old(View()), cfg, now, t)
    {
      var moving := Moving(t);
      if moving && navStatus == "active" {
        CancelActiveGoal(now);
      }
      published := published + [(now, t)];
      mode := if moving then "teleop" else mode;
      lastDriveAt := if moving then now else 0.0;
    }

    method OnDriveCommand(now: real, t: Twist)
      modifies this
      ensures View() == DriveCommand(old(View()), cfg, now, t)
    {
      pendingDrive := Some(t);
      lastLinkAt := now;
      DriveTwist(now, t);
    }

    method RunWatchdogs(now: real)
      modifies this
      ensures View() == Watchdogs(old(View()), cfg, now)
    {
      ApplyPendingDrive(now);
      CheckDrive(now);
      if navStatus == "active" && !(now - lastLinkAt <= cfg.linkTimeout) {
        CancelActiveGoal(now);
        DriveTwist(now, ZERO);
      }
    }

    method ApplyPendingDrive(now: real)
      modifies this
      ensures View() == ApplyPending(old(View()), cfg, now)
    {
      if pendingDrive.None? {
        return;
      }
      var t := pendingDrive.value;
      pendingDrive := None;
      DriveTwist(now, t);
    }

    method CheckDrive(now: real)
      modifies this
      ensures View() == DriveWatchdog(old(View()), cfg, now)
    {
      if mode != "teleop" || lastDriveAt == 0.0 {
        return;
      }
      if now - lastDriveAt > cfg.driveTimeout {
        DriveTwist(now, ZERO);
        mode := "idle";
        lastDriveAt := 0.0;
      }
    }

    method OnPlannerVelocity(now: real, t: Twist)
      modifies this
      ensures View() == RelayPlanner(old(View()), cfg, now, t)
    {
      if navStatus == "active" && now - lastLinkAt <= cfg.linkTimeout {
        published := published + [(now, t)];
      }
    }
  }

  // ---- the bound

  /** What can happen without the operator: watchdog ticks, planner velocities, link heartbeats. */
  datatype Event = Tick(now: real) | Planner(at: real, twist: Twist) | Heartbeat(at: real)

  function Handle(s: Link, cfg: Config, e: Event): Link {
    match e
    case Tick(now) => Watchdogs(s, cfg, now)
    case Planner(at, t) => RelayPlanner(s, cfg, at, t)
    case Heartbeat(at) => s.(lastLinkAt := at)
  }

  function Run(s: Link, cfg: Config, events: seq<Event>): Link
    decreases events
  {
    if events == [] then s else Run(Handle(s, cfg, events[0]), cfg, events[1..])
  }

  /** Watchdog ticks come in time order, each at most `tau` after the one before; the first counts from `since`. */
  predicate TicksWithin(events: seq<Event>, since: real, tau: real)
    decreases events
  {
    events == [] ||
    match events[0]
    case Tick(now) => since <= now <= since + tau && TicksWithin(events[1..], now, tau)
    case _ => TicksWithin(events[1..], since, tau)
  }

  /** Time of the last tick. */
  function LastTick(events: seq<Event>, since: real): real
    decreases events
  {
    if events == [] then since else
      LastTick(events[1..], match events[0] case Tick(now) => now case _ => since)
  }

  /** The robot stands still and only an operator can move it. */
  predicate AtRest(s: Link) {
    s.pendingDrive.None? && s.navStatus != "active" && s.mode != "teleop"
  }

  lemma {:induction false} RestIsKept(s: Link, cfg: Config, events: seq<Event>)
    requires AtRest(s)
    ensures AtRest(Run(s, cfg, events)) && Run(s, cfg, events).published == s.published
    ensures Run(s, cfg, events).navStatus == s.navStatus && Run(s, cfg, events).mode == s.mode
    decreases events
  {
    if events != [] {
      RestIsKept(Handle(s, cfg, events[0]), cfg, events[1..]);
    }
  }

  /** Teleop with the latch already spent: the watchdog fires exactly once, within one tick of the timeout. */
  lemma {:induction false} TimeoutFires(s: Link, cfg: Config, events: seq<Event>, since: real, tau: real)
      returns (fired: real)
    requires s.mode == "teleop" && s.pendingDrive.None? && s.navStatus != "active"
    requires 0.0 < s.lastDriveAt <= since <= s.lastDriveAt + cfg.driveTimeout
    requires TicksWithin(events, since, tau)
    ensures var r := Run(s, cfg, events);
      if LastTick(events, since) > s.lastDriveAt + cfg.driveTimeout then
        && AtRest(r) && r.mode == "idle" && r.published == s.published + [(fired, ZERO)]
        && s.lastDriveAt + cfg.driveTimeout < fired <= s.lastDriveAt + cfg.driveTimeout + tau
      else r.published == s.published
    decreases events
  {
    fired := 0.0;
    if events != [] {
      var m := Handle(s, cfg, events[0]);
      if events[0].Tick? && events[0].now - s.lastDriveAt > cfg.driveTimeout {
        fired := events[0].now;
        RestIsKept(m, cfg, events[1..]);
        LastTickAfter(events[1..], fired, tau);
      } else {
        fired := TimeoutFires(m, cfg, events[1..], if events[0].Tick? then events[0].now else since, tau);
      }
    }
  }

  lemma {:induction false} LastTickAfter(events: seq<Event>, since: real, tau: real)
    requires TicksWithin(events, since, tau)
    ensures LastTick(events, since) >= since
    decreases events
  {
    if events != [] {
      LastTickAfter(events[1..], if events[0].Tick? then events[0].now else since, tau);
    }
  }

  /**
   * After a moving drive command at `t0`, with no further operator command: the latch repeats that velocity once, at
   * the first tick; then exactly one zero velocity is published, no later than the timeout plus two tick periods;
   * nothing else is ever published, whatever the planner sends.
   */
  lemma {:induction false} DeadmanBound(s: Link, cfg: Config, t0: real, t: Twist, events: seq<Event>, tau: real)
    returns (reapplied: real, zeroed: real)
    requires t.linear > 0.001 || t.linear < -0.001 || t.angular > 0.001 || t.angular < -0.001
    requires t0 > 0.0 && tau >= 0.0 && cfg.driveTimeout >= 0.0
    requires TicksWithin(events, t0, tau) && LastTick(events, t0) > t0 + tau + cfg.driveTimeout
    ensures var d := DriveCommand(s, cfg, t0, t);
      && Run(d, cfg, events).published == d.published + [(reapplied, t), (zeroed, ZERO)]
      && AtRest(Run(d, cfg, events)) && Run(d, cfg, events).mode == "idle"
      && t0 <= reapplied <= t0 + tau
      && reapplied + cfg.driveTimeout < zeroed <= t0 + cfg.driveTimeout + 2.0 * tau
  {
    reapplied, zeroed := LatchThenTimeout(DriveCommand(s, cfg, t0, t), cfg, t0, t, events, tau);
  }

  lemma {:induction false} LatchThenTimeout(d: Link, cfg: Config, t0: real, t: Twist, events: seq<Event>, tau: real)
    returns (reapplied: real, zeroed: real)
    requires Moving(t) && t0 > 0.0 && tau >= 0.0 && cfg.driveTimeout >= 0.0 && d.pendingDrive == Some(t)
        && d.navStatus != "active"
    requires TicksWithin(events, t0, tau) && LastTick(events, t0) > t0 + tau + cfg.driveTimeout
    ensures Run(d, cfg, events).published == d.published + [(reapplied, t), (zeroed, ZERO)]
        && AtRest(Run(d, cfg, events)) && Run(d, cfg, events).mode == "idle"
    ensures t0 <= reapplied <= t0 + tau && reapplied + cfg.driveTimeout < zeroed <= reapplied + cfg.driveTimeout + tau
    decreases events
  {
    reapplied, zeroed := t0, t0;
    if events != [] {
      var m := Handle(d, cfg, events[0]);
      if events[0].Tick? {
        reapplied := events[0].now;
        zeroed := TimeoutFires(m, cfg, events[1..], reapplied, tau);
      } else {
        reapplied, zeroed := LatchThenTimeout(m, cfg, t0, t, events[1..], tau);
      }
    }
  }

  /** A drive command is published as it is; a moving one first ends an active goal and starts the deadman's clock. */
  lemma DriveCommandTakesOver(s: Link, cfg: Config, now: real, t: Twist)
    ensures var moves := t.linear > 0.001 || t.linear < -0.001 || t.angular > 0.001 || t.angular < -0.001;
      var preempts := moves && s.navStatus == "active";
      DriveCommand(s, cfg, now, t) == Link(
        if moves then "teleop" else s.mode,
        if preempts then "cancelled" else s.navStatus,
        if moves then now else 0.0,
        now,
        Some(t),
        s.published + (if preempts && cfg.trajectoryServer then [(now, Twist(0.0, 0.0))] else []) + [(now, t)])
  {
    assert s.published + [] == s.published;
  }

  // ---- the link

  /** A planner velocity reaches the robot exactly while a goal is active and the link fresh; nothing else changes. */
  lemma PlannerRelayedExactly(s: Link, cfg: Config, now: real, t: Twist)
    ensures RelayPlanner(s, cfg, now, t) ==
      s.(published := s.published + if s.navStatus == "active" && now - s.lastLinkAt <= cfg.linkTimeout then [(now, t)]
                                    else [])
  {
    assert s.published + [] == s.published;
  }

  /** What a lost link publishes: a zero, and before it another one that preempts a trajectory server. */
  function LostLinkZeros(cfg: Config, at: real): seq<(real, Twist)> {
    (if cfg.trajectoryServer then [(at, Twist(0.0, 0.0))] else []) + [(at, Twist(0.0, 0.0))]
  }

  /** With no heartbeat any more, only velocities the planner sent within the link timeout are relayed. */
  ghost predicate RelayedInTime(relayed: seq<(real, Twist)>, until: real) {
    forall k :: 0 <= k < |relayed| ==> relayed[k].0 <= until
  }

  /**
   * Losing the link during a goal, with no heartbeat and no operator command any more: planner velocities are relayed
   * until the link timeout at most; the first tick past it, no more than one period late, cancels the goal and
   * publishes the zeros; nothing is ever published after that.
   */
  lemma {:induction false} LinkLossStops(s: Link, cfg: Config, events: seq<Event>, since: real, tau: real)
    returns (fired: real, relayed: seq<(real, Twist)>)
    requires s.navStatus == "active" && s.pendingDrive.None? && s.mode != "teleop"
    requires forall k :: 0 <= k < |events| ==> !events[k].Heartbeat?
    requires since <= s.lastLinkAt + cfg.linkTimeout && TicksWithin(events, since, tau)
    ensures RelayedInTime(relayed, s.lastLinkAt + cfg.linkTimeout)
    ensures var r := Run(s, cfg, events);
      if LastTick(events, since) > s.lastLinkAt + cfg.linkTimeout then
        && AtRest(r) && r.navStatus == "cancelled" && r.mode == "idle"
        && r.published == s.published + relayed + LostLinkZeros(cfg, fired)
        && s.lastLinkAt + cfg.linkTimeout < fired <= s.lastLinkAt + cfg.linkTimeout + tau
      else r.navStatus == "active" && r.published == s.published + relayed
    decreases events
  {
    fired, relayed := 0.0, [];
    if events == [] {
      assert s.published + [] == s.published;
    } else {
      var m, rest := Handle(s, cfg, events[0]), events[1..];
      if events[0].Tick? && events[0].now - s.lastLinkAt > cfg.linkTimeout {
        fired := events[0].now;
        LostLinkTick(s, cfg, fired);
        RestIsKept(m, cfg, rest);
        LastTickAfter(rest, fired, tau);
        assert s.published + [] == s.published;
      } else {
        PlannerTick(s, cfg, events[0]);
        var first := if events[0].Planner? then m.published[|s.published|..] else [];
        fired, relayed := LinkLossStops(m, cfg, rest, if events[0].Tick? then events[0].now else since, tau);
        assert s.published + first + relayed == s.published + (first + relayed);
        relayed := first + relayed;
      }
    }
  }

  lemma LostLinkTick(s: Link, cfg: Config, now: real)
    requires s.navStatus == "active" && s.pendingDrive.None? && s.mode != "teleop"
    requires now - s.lastLinkAt > cfg.linkTimeout
    ensures var m := Watchdogs(s, cfg, now);
      && AtRest(m) && m.navStatus == "cancelled" && m.mode == "idle"
      && m.published == s.published + LostLinkZeros(cfg, now)
  {
  }

  lemma PlannerTick(s: Link, cfg: Config, e: Event)
    requires s.navStatus == "active" && s.pendingDrive.None? && s.mode != "teleop" && !e.Heartbeat?
    requires e.Tick? ==> e.now - s.lastLinkAt <= cfg.linkTimeout
    ensures var m := Handle(s, cfg, e);
      && m == s.(published := m.published) && s.published <= m.published && (e.Tick? ==> m == s)
      && RelayedInTime(m.published[|s.published|..], s.lastLinkAt + cfg.linkTimeout)
  {
  }
}
