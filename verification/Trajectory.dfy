/** Click-to-pose on a body-frame trajectory server, driven as a bounded rotate/straight/rotate sequence. */
module Trajectory {
  import opened Angles
  import opened Options

  type Handle = nat

  /** A map-frame goal; a plain map click has no heading. */
  datatype Target = Target(x: real, y: real, yaw: Option<real>)

  /** Remaining error in the body frame, as TF reports it between steps. */
  datatype Relative = Relative(dx: real, dy: real, distance: real, bearing: real, yaw: real)

  /** A pose in the body frame, as the driver is asked to reach it. */
  datatype BodyPose = BodyPose(x: real, y: real, yaw: real)

  /** One step of a differential goal: what is sent, the error it is meant to reduce, and what it was chosen on. */
  datatype Order = Order(step: string, error: real, pose: BodyPose, reading: Relative, target: Target)

  datatype Config = Config(
    differential: bool,
    maxSteps: int,
    positionTolerance: real,
    headingTolerance: real,
    minProgress: real,
    minProgressHeading: real)
  {
    function StepLimit(): nat { if maxSteps < 1 then 1 else maxSteps }
    function PositionTolerance(): real { if positionTolerance < 0.01 then 0.01 else positionTolerance }
    function HeadingTolerance(): real { if headingTolerance < 0.01 then 0.01 else headingTolerance }
    function MinProgress(): real { if minProgress < 0.005 then 0.005 else minProgress }
    function MinProgressHeading(): real { if minProgressHeading < 0.005 then 0.005 else minProgressHeading }
  }

  /**
   * How a goal ended. `proof` is the target and the error reading on which a differential goal was declared reached.
   */
  datatype Report = Report(generation: nat, status: string, proof: Option<(Target, Relative)>)

  datatype Bridge = Bridge(
    generation: nat,
    handle: Option<Handle>,
    navStatus: string,
    mode: string,
    target: Option<Target>,
    step: string,
    stepCount: nat,
    stepError: Option<real>,
    // action client and history
    requests: map<nat, nat>,     // unanswered goal requests and the generation that sent them
    awaited: map<Handle, nat>,   // accepted goals whose result is still to come
    cancelled: set<Handle>,
    sent: seq<nat>,              // generation of every Trajectory goal sent, in order
    goals: map<nat, Target>,     // generations driven step by step, with the goal each was started for
    orders: map<nat, Order>,     // the step behind each goal sent for those, by its place in `sent`
    reports: seq<Report>)

  const INITIALLY :=
    Bridge(0, None, "idle", "idle", None, "", 0, None, map[], map[], {}, [], map[], map[], [])

  function Finish(s: Bridge, status: string, proof: Option<(Target, Relative)>): Bridge {
    s.(navStatus := status, mode := "idle", handle := None, target := None, step := "", stepCount := 0,
        stepError := None,
       reports := s.reports + [Report(s.generation, status, proof)])
  }

  function Send(s: Bridge, generation: nat, step: string, raises: bool): Bridge {
    var t := s.(step := step);
    if raises then Finish(t, "failed", None)
    else t.(requests := t.requests[|t.sent| := generation], sent := t.sent + [generation])
  }

  /** The goal is within tolerance, heading included when one was asked for. */
  predicate Reached(cfg: Config, target: Target, r: Relative) {
    r.distance <= cfg.PositionTolerance() && (target.yaw.Some? ==> Abs(r.yaw) <= cfg.HeadingTolerance())
  }

  /** The next step toward the target. */
  function NextOrder(cfg: Config, target: Target, r: Relative): Order {
    if r.distance > cfg.PositionTolerance() then
      if Abs(r.dy) > cfg.PositionTolerance() then
        Order("align", Abs(r.bearing), BodyPose(0.0, 0.0, r.bearing), r, target)
      else Order("drive", r.distance, BodyPose(r.dx, 0.0, 0.0), r, target)
    else Order("final_turn", Abs(r.yaw), BodyPose(0.0, 0.0, r.yaw), r, target)
  }

  /** Counts the step, and notes it in the history when its goal goes out. */
  function TakeStep(s: Bridge, order: Order, raises: bool): Bridge {
    s.(stepCount := s.stepCount + 1, stepError := Some(order.error),
        orders := if raises then s.orders else s.orders[|s.sent| := order])
  }

  function Continue(s: Bridge, cfg: Config, generation: nat, reading: Option<Relative>, raises: bool): Bridge {
    if generation != s.generation || s.target.None? then s
    else if s.stepCount >= cfg.StepLimit() then Finish(s, "failed", None)
    else if reading.None? then Finish(s, "failed", None)
    else if Reached(cfg, s.target.value, reading.value)
        then Finish(s, "succeeded", Some((s.target.value, reading.value)))
    else
      var order := NextOrder(cfg, s.target.value, reading.value);
      Send(TakeStep(s, order, raises), generation, order.step, raises)
  }

  /** What a new goal meets before it may be sent. */
  datatype NavigateEnv = NavigateEnv(serverReady: bool, poseKnown: bool, velocityLimited: bool,
      reading: Option<Relative>, raises: bool)

  /** The goal is taken on: the server is there, the robot localised, the velocity limit applied. */
  predicate TakesGoal(env: NavigateEnv) {
    env.serverReady && env.poseKnown && env.velocityLimited
  }

  /** A goal taken on, before anything is sent for it. */
  function Begin(s: Bridge, goal: Target, differential: bool): Bridge {
    var a := s.(generation := s.generation + 1, navStatus := "active", mode := "nav");
    if differential then a.(target := Some(goal), stepCount := 0, goals := a.goals[a.generation := goal])
    else a.(target := None)
  }

  /** A new goal neither cancels the handle of an earlier one nor drops it; the next response or result does. */
  function Navigate(s: Bridge, cfg: Config, goal: Target, env: NavigateEnv): Bridge {
    if !env.serverReady || !env.poseKnown then s.(navStatus := "failed")
    else if !env.velocityLimited then s.(navStatus := "failed", mode := "idle")
    else if cfg.differential then
      var b := Begin(s, goal, true);
      Continue(b, cfg, b.generation, env.reading, env.raises)
    else
      var b := Begin(s, goal, false);
      Send(b, b.generation, "holonomic", env.raises)
  }

  datatype Response = Accepted | Rejected | Raised

  function OnResponse(s: Bridge, request: nat, response: Response): Bridge
    requires request in s.requests
  {
    var generation := s.requests[request];
    var a := s.(requests := s.requests - {request});
    if generation != s.generation then
      if response.Accepted? then a.(cancelled := a.cancelled + {request}) else a
    else if !response.Accepted? then Finish(a, "failed", None)
    else a.(handle := Some(request), awaited := a.awaited[request := generation])
  }

  datatype Outcome = Outcome(status: string, success: bool, message: string) | ResultRaised

  /** Whether a step the driver gave up on still brought the robot closer. */
  predicate MadeProgress(s: Bridge, cfg: Config, reading: Option<Relative>) {
    s.target.Some? && s.stepError.Some? && reading.Some? &&
    var before, r := s.stepError.value, reading.value;
    match s.step
    case "drive" => r.distance <= cfg.PositionTolerance() || r.distance <= before - cfg.MinProgress()
    case "align" => Abs(r.bearing) <= cfg.HeadingTolerance() || Abs(r.bearing) <= before - cfg.MinProgressHeading()
    case "final_turn" => Abs(r.yaw) <= cfg.HeadingTolerance() || Abs(r.yaw) <= before - cfg.MinProgressHeading()
    case _ => false
  }

  function OnResult(s: Bridge, cfg: Config, h: Handle, outcome: Outcome, progress: Option<Relative>,
      reading: Option<Relative>, raises: bool): Bridge
    requires h in s.awaited
  {
    var generation := s.awaited[h];
    var a := s.(awaited := s.awaited - {h});
    if generation != s.generation then a
    else if outcome.ResultRaised? then Finish(a, "failed", None)
    else if outcome.status == "succeeded" && outcome.success then
      if a.target.Some? then Continue(a.(handle := None), cfg, generation, reading, raises)
          else Finish(a, "succeeded", None)
    else if outcome.status == "canceled" then Finish(a, "cancelled", None)
    else if outcome.message == "not at goal" && MadeProgress(a, cfg, progress) then
      Continue(a.(handle := None), cfg, generation, reading, raises)
    else Finish(a, "failed", None)
  }

  function Cancel(s: Bridge): Bridge {
    s.(generation := s.generation + 1, handle := None, navStatus := "cancelled", mode := "idle", target := None,
        step := "",
       stepCount := 0, stepError := None,
       cancelled := if s.handle.Some? then s.cancelled + {s.handle.value} else s.cancelled)
  }

  /** Operator motion preempts autonomy; a zero command does not. */
  function Drive(s: Bridge, moving: bool): Bridge {
    var c := if moving && s.navStatus == "active" then Cancel(s) else s;
    if moving then c.(mode := "teleop") else c
  }

  class HardwareBridge {
    const cfg: Config
    var generation: nat
    var handle: Option<Handle>
    var navStatus: string
    var mode: string
    var target: Option<Target>
    var step: string
    var stepCount: nat
    var stepError: Option<real>
    ghost var past: Bridge  // its history fields: requests, awaited, cancelled, sent, goals, orders, reports

    ghost function View(): Bridge
      reads this
    {
      Bridge(generation, handle, navStatus, mode, target, step, stepCount, stepError,
             past.requests, past.awaited, past.cancelled, past.sent, past.goals, past.orders, past.reports)
    }

    constructor (cfg: Config)
      ensures View() == INITIALLY && this.cfg == cfg
    {
      this.cfg := cfg;
      generation, handle, navStatus, mode := 0, None, "idle", "idle";
      target, step, stepCount, stepError := None, "", 0, None;
      past := INITIALLY;
    }

    method FinishGoal(status: string, ghost proof: Option<(Target, Relative)>)
      modifies this
      ensures View() == Finish(old(View()), status, proof)
    {
      navStatus, mode := status, "idle";
      handle, target, step, stepCount, stepError := None, None, "", 0, None;
      past := past.(reports := past.reports + [Report(generation, status, proof)]);
    }

    method SendTrajectory(g: nat, newStep: string, raises: bool)
      modifies this
      ensures View() == Send(old(View()), g, newStep, raises)
    {
      step := newStep;
      if raises {
        FinishGoal("failed", None);
        return;
      }
      past := past.(requests := past.requests[|past.sent| := g], sent := past.sent + [g]);
    }

    method ContinueDifferential(g: nat, reading: Option<Relative>, raises: bool)
      modifies this
      ensures View() == Continue(old(View()), cfg, g, reading, raises)
    {
      if g != generation || target.None? {
        return;
      }
      if stepCount >= cfg.StepLimit() {
        FinishGoal("failed", None);
        return;
      }
      if reading.None? {
        FinishGoal("failed", None);
        return;
      }
      var r := reading.value;
      var nextStep, error, pose;
      if r.distance > cfg.PositionTolerance() {
        if Abs(r.dy) > cfg.PositionTolerance() {
          nextStep, error, pose := "align", Abs(r.bearing), BodyPose(0.0, 0.0, r.bearing);
        } else {
          nextStep, error, pose := "drive", r.distance, BodyPose(r.dx, 0.0, 0.0);
        }
      } else if target.value.yaw.Some? {
        if Abs(r.yaw) <= cfg.HeadingTolerance() {
          FinishGoal("succeeded", Some((target.value, r)));
          return;
        }
        nextStep, error, pose := "final_turn", Abs(r.yaw), BodyPose(0.0, 0.0, r.yaw);
      } else {
        FinishGoal("succeeded", Some((target.value, r)));
        return;
      }
      stepCount := stepCount + 1;
      stepError := Some(error);
      ghost var order := Order(nextStep, error, pose, r, target.value);
      if !raises {
        past := past.(orders := past.orders[|past.sent| := order]);
      }
      assert View() == TakeStep(old(View()), order, raises);
      SendTrajectory(g, nextStep, raises);
    }

    method CancelGoal()
      modifies this
      ensures View() == Cancel(old(View()))
    {
      generation := generation + 1;
      if handle.Some? {
        past := past.(cancelled := past.cancelled + {handle.value});
      }
      handle, navStatus, mode := None, "cancelled", "idle";
      target, step, stepCount, stepError := None, "", 0, None;
    }

    method NavigateTrajectory(goal: Target, env: NavigateEnv)
      modifies this
      ensures View() == Navigate(old(View()), cfg, goal, env)
    {
      if !env.serverReady || !env.poseKnown {
        navStatus := "failed";
        return;
      }
      if !env.velocityLimited {
        navStatus, mode := "failed", "idle";
        return;
      }
      generation := generation + 1;
      navStatus, mode := "active", "nav";
      if cfg.differential {
        past := past.(goals := past.goals[generation := goal]);
        target, stepCount := Some(goal), 0;
        assert View() == Begin(old(View()), goal, true);
        ContinueDifferential(generation, env.reading, env.raises);
        return;
      }
      target := None;
      assert View() == Begin(old(View()), goal, false);
      SendTrajectory(generation, "holonomic", env.raises);
    }

    method GoalResponse(ghost request: nat, g: nat, response: Response, h: Handle)
      requires request in past.requests && past.requests[request] == g && h == request
      modifies this
      ensures View() == OnResponse(old(View()), request, response)
    {
      past := past.(requests := past.requests - {request});
      if g != generation {
        if response.Accepted? {
          past := past.(cancelled := past.cancelled + {h});
        }
        return;
      }
      if !response.Accepted? {
        FinishGoal("failed", None);
        return;
      }
      handle := Some(h);
      past := past.(awaited := past.awaited[h := g]);
    }

    method GoalResult(ghost h: Handle, g: nat, outcome: Outcome, progress: Option<Relative>, reading: Option<Relative>,
        raises: bool)
      requires h in past.awaited && past.awaited[h] == g
      modifies this
      ensures View() == OnResult(old(View()), cfg, h, outcome, progress, reading, raises)
    {
      past := past.(awaited := past.awaited - {h});
      if g != generation {
        return;
      }
      if outcome.ResultRaised? {
        FinishGoal("failed", None);
      } else if outcome.status == "succeeded" && outcome.success {
        if target.Some? {
          handle := None;
          ContinueDifferential(g, reading, raises);
        } else {
          FinishGoal("succeeded", None);
        }
      } else if outcome.status == "canceled" {
        FinishGoal("cancelled", None);
      } else {
        var progressed := StepMadeProgress(progress);
        if outcome.message == "not at goal" && progressed {
          handle := None;
          ContinueDifferential(g, reading, raises);
        } else {
          FinishGoal("failed", None);
        }
      }
    }

    method StepMadeProgress(reading: Option<Relative>) returns (ok: bool)
      ensures ok <==> MadeProgress(View(), cfg, reading)
    {
      if target.None? || stepError.None? || reading.None? {
        return false;
      }
      var before, r := stepError.value, reading.value;
      var after, tolerance, minimum;
      if step == "drive" {
        after, tolerance, minimum := r.distance, cfg.PositionTolerance(), cfg.MinProgress();
      } else if step == "align" {
        after, tolerance, minimum := Abs(r.bearing), cfg.HeadingTolerance(), cfg.MinProgressHeading();
      } else if step == "final_turn" {
        after, tolerance, minimum := Abs(r.yaw), cfg.HeadingTolerance(), cfg.MinProgressHeading();
      } else {
        return false;
      }
      return after <= tolerance || after <= before - minimum;
    }
  }
}
