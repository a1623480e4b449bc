# SwarmDeck protocols and algorithms, verified

SwarmDeck drives a fleet of simulated and real robots from one operator console. This Dafny project models the parts of
it that carry real state, interleavings or arithmetic, and proves what they promise. Check it with
`dafny verify dfyconfig.toml`.

Every operation that changes state in the source is a method of a class (or a method with loops) here, tied by its
`ensures` to a function from the old state to the new one. The theorems are lemmas about those functions, mostly over
runs: sequences of steps of any length in which operator commands, timers, answers and failures interleave freely.

- **Mission scheduler** (`TaskGraph`, `Missions`, `MissionPlan`, `MissionWaves`, `MissionExecutive`, `MissionRuns`): the
  recursive plan validator is sound and complete for cycles; waves serialise robots, serve every robot and prefer stops;
  runs of waves, dispatches, results, approvals and cancellations keep the scheduler's invariants, approval among them;
  blocking reaches its fixpoint; no run deadlocks.
- **Exploration sessions** (`Exploration`, `ExplorationLaws`, `ExplorationRuns`): generation counter, start/stop requests with deadlines,
  status and path intake, with the path callback split at its blocking `navigate_to`. Stop wins over any callback in flight.
- **Simulated navigation goals** (`SimGoals`, `SimGoalLaws`, `SimGoalRuns`): no accepted goal handle leaks, stale
  callbacks are harmless, the reverse escape never fires under operator control and ends within its time.
- **Both together** (`ExploringRobot`): the exploration controller's calls executed by the simulated robot; no goal of a
  finished session stays live.
- **Trajectory bridge** (`Trajectory`, `TrajectoryRuns`, `TrajectoryOrders`, `TrajectoryStatus`, `TrajectoryHandles`)
  and **teleop deadman** (`Deadman`) of the hardware adapter: bounded sends, each step justified by the reading behind it,
  success only on proof, which handles leak, and bounds on unattended motion after operator and link fall silent.
- **RTSP/RTP probe** (`RtpFraming`, `RtpWriter`, `RtspResponse`, `RtspProbe`, `RtspWriter`): the resynchronising packet
  loop and the response reader read back whatever packets and responses are written, conserve every byte, and depend on how the network cuts the stream exactly where said below. Framing follows section 10.12
  of RFC 2326, the packet fields section 5.1 of RFC 3550.
- **Simulator wire format** (`Bytes`, `BridgeWire`, `BridgeLayout`, `BridgeRoundTrip`, `BridgeCommands`): every field
  stands where the grammar says; observations round-trip exactly when they keep the grammar's size rules; commands are
  consumed exactly, and decide pose and velocity as documented.
- **Row dedup and downsampling** (`UniqueRows`, `Voxels`) and **pose lookup** (`Angles`, `PoseLookup`): the fast forms
  agree with their simple specifications, and interpolated poses are on the way from one sample to the next.
- **Keyframe producer** (`Keyframes`, `KeyframeLaws`, `KeyframeRuns`): capture gate, spacing, drop-oldest queue.
- **Cortex audit stream** (`AgentEvents`, `ProviderRuntime`, `AuditStream`, `AuditFaithfulness`) and **job store**
  (`CortexStore`, `StoreRuns`): every provider run ends with a verdict, the stored trail says what was yielded, and
  compaction loses nothing. `Options` holds the optional-value type.

## What the proofs brought out

These are statements about the code as it is; each has a lemma with a failing input, an exact condition, or both.

- A session started while the session clock reads zero (simulated time not yet running) ignores its own terminal report
  (`ZeroClockLosesReport`); `TerminalStatusShown` gives the exact condition.
- A path callback of an old session ends the newer session exactly when its navigate call raises
  (`StaleRaiseEndsSession`, `StaleRaiseReached`).
- An unreadable goal message over a live simulated goal cancels that goal and leaves "active" shown until the next command,
  normally the session's own disconnect stop (`UnreadableGoalLeavesActive`, exact in `GoalHandlesNeverLeak`).
- The trajectory bridge does not cancel the previous handle for a new goal: a goal still executing leaks when the new
  goal's request is answered, or fails at once, before any cancel (`HandlesLeakExactly`, `SecondGoalLeaksFirst`). The planner
  action of `navigate_to` in the same adapter is not modelled.
- A goal slightly to the side of a far target is rotated for although its bearing is within the heading tolerance, and a
  driver that gives up on that rotation without turning counts as having made progress: exactly then, and until the step
  budget ends it (`StandingStillIsProgress`, `FarGoalRotatesForNothing`).
- A goal the trajectory bridge refuses while another one executes overwrites the status, and operator motion then no
  longer preempts the executing one (`DrivePreemptsExactly`, `RefusedGoalHidesRunning`).
- Robot IDs travel cut to their length modulo 256, rings modulo 65536, short pixel payloads as black, and a depth frame
  whose size is not width x height puts every later field out of place: `LosslessExactly` and `DecodesExactlyWhenFramed`
  say exactly when the observation, or what of it fits the wire, comes back.
- A negative `Content-Length` is accepted, and the outcome then depends on packet boundaries exactly when more bytes follow
  than it is negative (`RtspResponse.OutcomeOfBytesExactly`).
- Bytes left over from the PLAY response are examined only once more data arrives: a stream that sent its packets with that
  response and stops is reported as silent (`LeftoverMatters`, `LeftoverPacketsMissed`; for the whole probe
  `RtspProbe.OutcomeOfBytesExactly`).
- The documentation of `unique_row_index` promises the answer of row-wise unique. That holds exactly when the guard takes
  the fallback or the wrapped packing keeps the order of the rows; for a single column of 64-bit keys, exactly when the
  guard takes the fallback or the keys span at most 2^63 - 1 (`UniqueRowIndex`). All callers pass 32-bit keys, for which it
  always holds.
- A cancelled provider stream never stores the token text yielded since its last flush (`CutShortLosesTail`,
  `CutShortIsCompleteExactly`, `CancelledTokenIsLost`).

## Model

| member | source | states |
|---|---|---|
| `MissionPlan.GraphVisitor.Visit` | agent/agent_cortex/missions.py:59-70 | One call of the recursive search: with a valid visitor and the chain of open visits as a walk, success extends `visited` with the task and restores `visiting`; failure implies the plan has a cycle |
| `MissionPlan.VisitAll` | agent/agent_cortex/missions.py:55-71 | Visiting every task in list order succeeds if and only if the dependency relation is acyclic (shared diamonds included) |
| `MissionPlan.CheckGraph` | agent/agent_cortex/missions.py:41-72 | The exact verdict: accepts precisely the plans with unique IDs, known dependencies and no cycle; each rejection names the first fault in the order the checks are written |
| `MissionPlan.ValidateGraph` | agent/agent_cortex/missions.py:40-72 | The same verdict, with all its cases, for the plan's task objects, which it leaves untouched |
| `MissionExecutive.AcceptedIsValid` | agent/agent_cortex/missions.py:40-72 | Every plan the validator accepts meets what wave selection needs of its callers: distinct objects and IDs, every dependency among the tasks |
| `TaskGraph.ClosingEdge` | agent/agent_cortex/missions.py:60-61 | Meeting a task that is still being visited means that task depends on itself through a cycle |
| `TaskGraph.DependencyOrderIsAcyclic` | agent/agent_cortex/missions.py:62-70 | If all tasks can be listed with every dependency before its dependents (the order in which visits finish), no cycle exists |
| `TaskGraph.LeastTask` | agent/agent_cortex/missions.py:55-71 | In an accepted plan every nonempty set of tasks has a member that depends directly on none of the set: the descent behind deadlock-freedom |
| `Missions.AcceptedExactlySchedulable` | agent/agent_cortex/missions.py:40-72 | A plan is accepted exactly when its IDs are distinct and its tasks can all be listed with every dependency in front |
| `TaskGraph.AcyclicHasOrder` | agent/agent_cortex/missions.py:55-71 | A closed plan without cycles can be listed dependencies-first |
| `Missions.IdCount` | agent/agent_cortex/missions.py:43-45 | Comparing the number of IDs with the size of their set is exactly the distinctness test |
| `Missions.SelfDependencyIsCycle` | agent/agent_cortex/missions.py:52-53 | A self-dependency, which has its own error, is a cycle of the same relation |
| `MissionExecutive.ReadyWave` | agent/agent_cortex/missions.py:78-109 | In place on the task objects: statuses become those of `AfterWave`, and the returned objects are the one list satisfying `IsWave`, for every validated plan; every returned task is ready, approved where it needs approval, and has all its dependencies succeeded |
| `MissionExecutive.SweepTasks` | agent/agent_cortex/missions.py:80-97 | The first loop, with blocking visible to later tasks of the same pass |
| `MissionExecutive.SelectWave` | agent/agent_cortex/missions.py:101-109 | The second loop picks exactly the tasks that no eligible task of the same robot precedes, and marks only those ready |
| `MissionExecutive.StopsFirstInDispatchOrder` | agent/agent_cortex/missions.py:101 | The stable sort on the stop key yields dispatch order: stops first, then list order |
| `MissionExecutive.DependencyStatuses` | agent/agent_cortex/missions.py:80-95 | Looking dependencies up through the ID dictionary answers the same two questions as scanning the task list |
| `MissionExecutive.MarkResult` | agent/agent_cortex/missions.py:111-115 | Accepts a result exactly for a ready or running task; otherwise it raises and changes nothing |
| `MissionWaves.WaveUnique` | agent/agent_cortex/missions.py:78-109 | A task list determines its wave |
| `MissionWaves.WaveSerializesRobots` | agent/agent_cortex/missions.py:99-109 | Two chosen tasks of one robot are the same task |
| `MissionWaves.WaveServesRobot` | agent/agent_cortex/missions.py:99-109 | Every robot with an eligible task gets one, and a stop if it has an eligible stop |
| `MissionWaves.EligibleDuringSweep` | agent/agent_cortex/missions.py:82-97 | Blocking earlier tasks of the same pass never changes the eligibility of a later one |
| `MissionWaves.AfterWaveTask` | agent/agent_cortex/missions.py:78-109 | A call changes a task only from pending or ready to blocked, or to ready when chosen |
| `MissionWaves.WaveIsStable` | agent/agent_cortex/missions.py:78-109 | An immediate second call returns the same wave |
| `MissionWaves.WaveIsGuarded` | agent/agent_cortex/missions.py:84-95 | Each task of a wave was pending or ready, has all its dependencies succeeded, and needs no approval or has it |
| `MissionWaves.WaveIsOrdered` | agent/agent_cortex/missions.py:99-109 | Within a wave stops come first, list order decides otherwise, and no two tasks share a robot |
| `MissionWaves.WaveTakesFirst` | agent/agent_cortex/missions.py:82-109 | A task that passes every guard is passed over only for one of its robot that is a stop where it is none, or earlier in the list and no less urgent |
| `MissionRuns.RunInvariant` | agent/agent_cortex/missions.py:78-115 | In every run from an accepted all-pending plan: ready, running, succeeded and failed tasks have all dependencies succeeded and their approval given where they need one, and a blocked task has a failed or cancelled ancestor |
| `MissionRuns.FinishedForever` | agent/agent_cortex/missions.py:84-85 | Succeeded, failed and cancelled are permanent in every run |
| `MissionRuns.BlockedByOneCall` | agent/agent_cortex/missions.py:83-92 | Exactly which tasks one call leaves blocked: earlier-listed dependencies count as the call left them, later-listed ones as it found them |
| `MissionRuns.ResultAcceptedOnce` | agent/agent_cortex/missions.py:111-115 | Over any run a task accepts one result if it ends succeeded or failed, and none otherwise |
| `MissionRuns.BlockingFixpoint` | agent/agent_cortex/missions.py:82-92 | With no other steps, as many calls as there are tasks block exactly those waiting tasks that descend from a failed or cancelled one |
| `MissionRuns.OneCallSuffices` | agent/agent_cortex/missions.py:82-92 | When the list has dependencies first, a single call does the same |
| `MissionRuns.WavesReachFixpoint` | agent/agent_cortex/missions.py:82-92 | Each further call either has nothing left to block or leaves one fewer waiting task |
| `MissionRuns.DescendantsStuck` | agent/agent_cortex/missions.py:87-92 | At the fixpoint every descendant of a failed or cancelled task is blocked or cancelled, along any walk |
| `MissionRuns.DeadlockFree` | agent/agent_cortex/missions.py:40-115 | In every run from an accepted plan: if approvals are given, nothing is ready or running, and a wave is empty and changes nothing, then every task has ended |
| `Exploration.MggExploration.StopSession` | adapters/exploration.py:107-129 | In-place form of `Stop`: new generation, no intake, and when active a stop request (if possible), a goal cancel and a zero drive, in that order |
| `Exploration.MggExploration.StartSession` | adapters/exploration.py:62-91 | In-place form of `Start`: guards, goal cancel, new generation and clock, request with deadline, or a stop when the request raises |
| `Exploration.MggExploration.StartAnswered` | adapters/exploration.py:93-105 | In-place form of `Started`: a refusal or failure of the current session's request stops it, stale answers do not |
| `Exploration.MggExploration.TimerTick` | adapters/exploration.py:131-150 | In-place form of `Tick`: overdue requests are retired and a stale operator link stops the session |
| `Exploration.MggExploration.HandleStatus` | adapters/exploration.py:152-168 | In-place form of `OnStatus`, including the messages it ignores |
| `Exploration.MggExploration.PathBegin` | adapters/exploration.py:170-206 | In-place form of `on_path` up to the blocking navigate call |
| `Exploration.MggExploration.PathEnd` | adapters/exploration.py:206-214 | In-place form of `on_path` after that call returned or raised |
| `Exploration.MggExploration.DispatchCommand` | adapters/session.py:61-118 | In-place form of `Dispatch`: motion commands stop exploration before reaching the bridge |
| `Exploration.MggExploration.Disconnect` | adapters/session.py:202-212 | In-place form of the disconnect stop |
| `ExplorationRuns.StopWins` | adapters/exploration.py:107-129 | Over every interleaving of split path callbacks with stop, start, ticks, answers and commands: once no callback of a past session is in flight, each goal that session sent is followed by a goal cancel and later a zero drive |
| `ExplorationRuns.RunKeepsGoalsOwned` | adapters/exploration.py:170-214 | At every moment each goal sent is settled, owned by a callback in flight, or belongs to the active session |
| `ExplorationRuns.NoGoalWithoutStart` | adapters/exploration.py:62-129 | From a stopped state until a start passes its guards: no intake, no goals but those of callbacks already in flight, and a manual "stopped" label is never replaced |
| `ExplorationRuns.MotionCommandAfterStop` | adapters/session.py:66-82 | An operator motion command reaches the bridge only after exploration is shut and, if it was active, the robot halted |
| `ExplorationRuns.MotionFollowsHalt` | adapters/session.py:66-82 | In the call log of every run a motion command given while exploration was active stands directly behind a goal cancel and a zero drive, and every exploration goal with no callback in flight has been settled before it |
| `ExplorationRuns.StaleRaiseEndsSession` | adapters/exploration.py:206-214 | A callback of an old session leaves the active session alone if and only if its navigate call did not raise |
| `ExplorationRuns.StaleRaiseReached` | adapters/exploration.py:206-214 | A run that reaches it: explore, a path in flight, stop, explore again, and the old callback raises |
| `ExploringRobot.LiveGoalIsAccountable` | adapters/adapter_sim/adapter_sim.py:1075-1152 | With the controller's calls executed by the simulated bridge, in every combined run a live goal is the last one sent, and it is the operator's, or exploration's own while its session is active or its callback in flight |
| `ExploringRobot.ExplorationLeavesNoGoal` | adapters/exploration.py:107-214 | Once exploration is inactive with no callback in flight, no goal it ever sent is live on the simulated robot |
| `ExplorationRuns.EndingsCommute` | adapters/exploration.py:152-192 | Empty paths, the terminal report and operator stops of one session, in any order and number: the same final status, activity and awaited report, with an operator stop anywhere showing "stopped" |
| `ExplorationRuns.TerminalStatusShown` | adapters/exploration.py:152-168 | After a session's empty path, its terminal report sets the status exactly when it is not stale and the session clock is not zero |
| `ExplorationRuns.ZeroClockLosesReport` | adapters/exploration.py:78-79 | The failing case: a session started at clock zero ignores its own completion report |
| `ExplorationRuns.StaleMessagesIgnored` | adapters/exploration.py:152-181 | Messages stamped before the session change nothing at all |
| `ExplorationRuns.RequestsBounded` | adapters/exploration.py:62-150 | In every run at most one start and one stop request are outstanding, and the first tick past a deadline retires it |
| `ExplorationLaws.StopAsksPlanner` | adapters/exploration.py:107-129 | Ending a session sends the planner a stop request, due in 30 s, exactly when it was active, the planner is to be told, its service is ready and the call does not raise |
| `ExplorationLaws.StartOpensSession` | adapters/exploration.py:62-91 | A start is ignored exactly when something is active or outstanding or a service is missing; otherwise it cancels the old goal, notes the clock and sends a request due in 30 s, or ends at once when that raises |
| `ExplorationLaws.RefusalEndsSession` | adapters/exploration.py:93-105 | A start answer ends the session exactly when it is not an acceptance and carries the current generation |
| `ExplorationLaws.TickEndsExactly` | adapters/exploration.py:131-150 | A tick leaves a session running exactly when its start request is not overdue and the last link message is no older than the timeout |
| `ExplorationLaws.LinkLossEndsSession` | adapters/exploration.py:145-150 | In every run the first tick past the link timeout ends and halts the session, and until a start passes its guards only callbacks already in flight can still send a goal |
| `ExplorationLaws.ReportTaken` | adapters/exploration.py:152-168 | Which reports end, relabel or leave a session, by stamp, state and whether it is active or awaited |
| `ExplorationLaws.PathIsDrivenExactly` | adapters/exploration.py:170-206 | A path is driven exactly when the session is active and the path is of this session, nonempty, in the map frame and finite; an empty one waits for the terminal report, a malformed one stops |
| `ExplorationLaws.GoalStandsExactly` | adapters/exploration.py:206-214 | After the blocking call the goal is left alone exactly for the still active session it was sent for; otherwise the last calls are cancel and zero |
| `ExplorationLaws.OperatorTakesOver` | adapters/session.py:61-118 | Every command except exploration, mode changes and unknown ones ends the session before it reaches the bridge |
| `ExplorationLaws.DisconnectHalts` | adapters/session.py:202-212 | A lost operator connection ends the session and halts the robot whether or not it was exploring |
| `ExplorationLaws.IdleTickRetires` | adapters/exploration.py:131-143 | With no session running a tick withdraws exactly the overdue requests and does nothing else |
| `ExplorationLaws.LabelAgrees` | adapters/exploration.py:62-214 | In every run the label says starting or exploring exactly while a session is active, and otherwise how it ended |
| `SimGoals.RobotBridge.Navigate` | adapters/adapter_sim/adapter_sim.py:1075-1099 | In-place form of `NavigateTo`: the previous goal is superseded and cancelled, the request carries its generation; a goal message without usable numbers raises in between |
| `SimGoals.RobotBridge.GoalResponse` | adapters/adapter_sim/adapter_sim.py:1101-1125 | In-place form of `OnResponse`: a stale acceptance is cancelled, a current one stored, anything else fails the goal |
| `SimGoals.RobotBridge.GoalResult` | adapters/adapter_sim/adapter_sim.py:1127-1142 | In-place form of `OnResult` |
| `SimGoals.RobotBridge.Finish` | adapters/adapter_sim/adapter_sim.py:1144-1152 | In-place form of `FinishGoal`: ignored for other generations; a failure arms the escape |
| `SimGoals.RobotBridge.CancelNavigation` | adapters/adapter_sim/adapter_sim.py:1276-1285 | In-place form of `CancelNav` |
| `SimGoals.RobotBridge.DriveCommand` | adapters/adapter_sim/adapter_sim.py:1297-1308 | In-place form of `Drive`: clamped twist, autonomy preempted by motion |
| `SimGoals.RobotBridge.TickEscape` | adapters/adapter_sim/adapter_sim.py:1243-1274 | In-place form of `EscapeTick`: reverse until far enough, stalled or out of time |
| `SimGoals.RobotBridge.HaltRobot` | adapters/adapter_sim/adapter_sim.py:1287-1326 | The common tail of stop, cancel and reset |
| `SimGoalRuns.GoalHandlesNeverLeak` | adapters/adapter_sim/adapter_sim.py:1075-1152 | In every run each accepted handle is the current one under the current generation, was sent a cancel, or delivered its result; "active" is shown exactly while the current goal is live or since an unreadable goal message raised over a shown "active" |
| `SimGoalRuns.ReadableGoalsNeverStale` | adapters/adapter_sim/adapter_sim.py:1077-1099 | When every goal message has usable numbers, "active" means a live goal |
| `SimGoalRuns.UnreadableGoalLeavesActive` | adapters/adapter_sim/adapter_sim.py:1077-1092 | The failing case: an unreadable goal message over a live goal cancels it and leaves "active" shown |
| `SimGoalRuns.StaleCallbacksIgnored` | adapters/adapter_sim/adapter_sim.py:1101-1135 | Callbacks of a superseded generation change nothing the operator sees, and a stale acceptance is cancelled |
| `SimGoalRuns.NoEscapeAfterCommand` | adapters/adapter_sim/adapter_sim.py:1221-1285 | From any reachable state, after an operator command and until a new goal is sent, no reverse escape is armed and nothing is published but zeros and the operator's own drives |
| `SimGoalRuns.OperatorKeepsControl` | adapters/adapter_sim/adapter_sim.py:1221-1285 | The inductive form, from any state that keeps the invariant and has no live goal or escape |
| `SimGoalRuns.EscapeMeansFailure` | adapters/adapter_sim/adapter_sim.py:1144-1152 | An escape is armed only by the failure of the live goal of the current generation |
| `SimGoalLaws.SpeedsBounded` | adapters/adapter_sim/adapter_sim.py:1297-1308 | In every run no published velocity exceeds 0.45 m/s or 1.2 rad/s, whatever the operator asks for |
| `SimGoalLaws.ClampedSpeed` | adapters/adapter_sim/adapter_sim.py:1301-1302 | A requested speed within the limit passes unchanged, any other is cut to the limit on its own side |
| `SimGoalLaws.DriveTakesOver` | adapters/adapter_sim/adapter_sim.py:1297-1308 | A drive within the limits drops and cancels the goal, halts an escape, publishes that very velocity, and counts as teleop exactly above 0.001 |
| `SimGoalLaws.HaltsDropGoal` | adapters/adapter_sim/adapter_sim.py:1287-1326 | Stop, cancel and reset drop and cancel the goal and publish a zero, and what each shows |
| `SimGoalLaws.NewGoalSent` | adapters/adapter_sim/adapter_sim.py:1075-1099 | A new goal drops the old one and is requested under the new generation, or fails at once without a server |
| `SimGoalLaws.ResultEndsGoal` | adapters/adapter_sim/adapter_sim.py:1127-1152 | Success and cancellation are shown as such; any other result of the current goal is a failure that arms the escape at the pose and time then read |
| `SimGoalLaws.ResponseDecides` | adapters/adapter_sim/adapter_sim.py:1101-1125 | An accepted current request is kept and its result awaited; a rejected or raising one is a failure |
| `SimGoalLaws.EscapeTickExactly` | adapters/adapter_sim/adapter_sim.py:1243-1274 | An escape goes on exactly while it has moved less than 0.45 m, is at most 15 s old, and is off the spot or within 2.5 s of its last progress |
| `SimGoalLaws.EscapeEnds` | adapters/adapter_sim/adapter_sim.py:1221-1285 | Left alone, an escape is some ticks of reverse and one zero, over by the first tick more than 15 s after the failure, and nothing after |
| `SimGoalLaws.WatchdogStopsTeleop` | adapters/adapter_sim/adapter_sim.py:1310-1320 | The drive watchdog stops a teleop exactly when it was not refreshed within the timeout |
| `Trajectory.HardwareBridge.NavigateTrajectory` | adapters/adapter_ros2/adapter_ros2.py:1323-1363 | In-place form of `Navigate`: readiness checks, then one holonomic goal or the first differential step |
| `Trajectory.HardwareBridge.ContinueDifferential` | adapters/adapter_ros2/adapter_ros2.py:1410-1474 | In-place form of `Continue`: step budget, recomputed error, arrival test, rotate / straight / rotate choice |
| `Trajectory.HardwareBridge.SendTrajectory` | adapters/adapter_ros2/adapter_ros2.py:1476-1512 | In-place form of `Send` |
| `Trajectory.HardwareBridge.GoalResponse` | adapters/adapter_ros2/adapter_ros2.py:1641-1669 | In-place form of `OnResponse` |
| `Trajectory.HardwareBridge.GoalResult` | adapters/adapter_ros2/adapter_ros2.py:1671-1716 | In-place form of `OnResult` |
| `Trajectory.HardwareBridge.StepMadeProgress` | adapters/adapter_ros2/adapter_ros2.py:1718-1748 | Whether a step the driver gave up on still reduced the error it was meant to reduce by the configured minimum |
| `Trajectory.HardwareBridge.CancelGoal` | adapters/adapter_ros2/adapter_ros2.py:1763-1793 | In-place form of `Cancel` |
| `TrajectoryRuns.TrajectorySafety` | adapters/adapter_ros2/adapter_ros2.py:1410-1512 | Over every interleaving: at most max(1, max_diff_drive_steps) Trajectory goals per differential generation and one per other generation, none after the generation is superseded, and a differential goal succeeds only on an error reading within max(0.01, tolerance) of the goal its generation was started for, heading included when one was asked for |
| `TrajectoryRuns.SendsAreCurrent` | adapters/adapter_ros2/adapter_ros2.py:1476-1512 | A step sends at most one goal, under the generation current at that moment |
| `TrajectoryRuns.RunKeepsInv` | adapters/adapter_ros2/adapter_ros2.py:1641-1793 | The inductive invariant behind it: one pending request or result per current generation, sends counted against the step budget |
| `TrajectoryOrders.StepsAreJustified` | adapters/adapter_ros2/adapter_ros2.py:1436-1474 | In every run each goal sent for a differential generation is an align, drive or final turn that its own reading calls for: align only for a lateral miss beyond the position tolerance, drive only for one within it, final turn only at the goal and for a heading asked for and missed; the pose sent never moves sideways, and either turns or drives |
| `TrajectoryOrders.ProgressExactly` | adapters/adapter_ros2/adapter_ros2.py:1718-1748 | In every run a step the driver gave up on is carried on exactly when the error it was sent for has come within its tolerance or shrunk by the least useful amount since |
| `TrajectoryOrders.StandingStillIsProgress` | adapters/adapter_ros2/adapter_ros2.py:1718-1748 | The very reading that caused a step counts as progress exactly for an align whose bearing was within the heading tolerance already |
| `TrajectoryOrders.FarGoalRotatesForNothing` | adapters/adapter_ros2/adapter_ros2.py:1436-1448 | The failing case: a goal 10 m ahead and 0.2 m aside is rotated for, and standing still counts as progress |
| `TrajectoryStatus.ActiveGoalIsOwed` | adapters/adapter_ros2/adapter_ros2.py:1323-1716 | In every run a goal shown as active has a request or a result of its own generation still to come |
| `TrajectoryStatus.CancelIsFinal` | adapters/adapter_ros2/adapter_ros2.py:1763-1793 | After a cancel, whatever answers and results come in, no Trajectory goal is sent and the status stays cancelled until a new goal |
| `TrajectoryStatus.DrivePreemptsExactly` | adapters/adapter_ros2/adapter_ros2.py:1079-1093 | Operator motion leaves something under way exactly when something was and the status did not say active |
| `TrajectoryStatus.RefusedGoalHidesRunning` | adapters/adapter_ros2/adapter_ros2.py:1329-1341 | The failing case: a goal refused while another executes marks the status failed, and operator motion no longer preempts the running one |
| `TrajectoryStatus.PlainResult` | adapters/adapter_ros2/adapter_ros2.py:1671-1716 | How a result ends a goal that is not driven step by step |
| `TrajectoryStatus.ContinueDecides` | adapters/adapter_ros2/adapter_ros2.py:1410-1474 | A step is sent exactly when the budget allows it, the error is known and not small enough and sending does not raise; a small enough error within the budget is success, anything else failure |
| `TrajectoryStatus.StepResult` | adapters/adapter_ros2/adapter_ros2.py:1671-1716 | A target driven step by step goes on exactly after a successful step, or one given up as "not at goal" with progress; any other result ends it as cancelled or failed |
| `TrajectoryStatus.ResponseDecides` | adapters/adapter_ros2/adapter_ros2.py:1641-1669 | A stale acceptance is cancelled, a current one kept and its result awaited, a current refusal ends the goal as failed |
| `TrajectoryStatus.GoalTaken` | adapters/adapter_ros2/adapter_ros2.py:1329-1363 | A new goal is refused without the server or a pose, refused to idle without the velocity limit, or begun under a new generation |
| `TrajectoryStatus.FirstStepDecides` | adapters/adapter_ros2/adapter_ros2.py:1349-1474 | A differential goal taken on starts with a fresh budget: its first step is sent exactly when the error is known and not small enough and sending does not raise |
| `TrajectoryStatus.CancelClears` | adapters/adapter_ros2/adapter_ros2.py:1763-1780 | A cancel clears all that is shown of the goal and has the held handle cancelled |
| `TrajectoryHandles.NewGoalLeaksExactly` | adapters/adapter_ros2/adapter_ros2.py:1349-1363 | A new goal whose request, if it sends one, is answered before anything else happens leaves every accepted handle current, cancelled or delivered if and only if the bridge held no executing goal when it was given |
| `TrajectoryHandles.HandlesLeakExactly` | adapters/adapter_ros2/adapter_ros2.py:1323-1793 | In every run, with cancels, answers and results in any order, handles are accounted for in all states if and only if no step forgets a goal executing at that moment: a new goal that fails or arrives at once, or the answer to a new goal's request |
| `TrajectoryHandles.StepLeaksExactly` | adapters/adapter_ros2/adapter_ros2.py:1323-1793 | The same for one step from any state in which handles are accounted for |
| `TrajectoryHandles.HandlesNeverLeakOneAtATime` | adapters/adapter_ros2/adapter_ros2.py:1323-1716 | In every run that gives goals only while none is executing, no accepted handle leaks |
| `TrajectoryHandles.SecondGoalLeaksFirst` | adapters/adapter_ros2/adapter_ros2.py:1349-1363 | The failing case: two accepted goals in a row, and the first keeps executing, neither current nor cancelled |
| `TrajectoryHandles.CancelAccounts` | adapters/adapter_ros2/adapter_ros2.py:1763-1793 | A cancel accounts for the held handle |
| `Deadman.AdapterLink.OnDriveCommand` | adapters/session.py:96-100 | The session latches a drive command and applies it at once |
| `Deadman.AdapterLink.DriveTwist` | adapters/adapter_ros2/adapter_ros2.py:1079-1093 | In-place form of `Drive` |
| `Deadman.AdapterLink.RunWatchdogs` | adapters/runtime.py:574-603 | In-place form of the three watchdogs in their order |
| `Deadman.AdapterLink.OnPlannerVelocity` | adapters/runtime.py:558-561 | Planner velocity is relayed only with an active goal and a fresh link |
| `Deadman.DeadmanBound` | adapters/runtime.py:567-585 | After a moving drive command with ticks at most tau apart and no operator command: the velocity is repeated once within tau, one zero velocity follows within drive_timeout_s + 2 tau of the command, and nothing else is ever published |
| `Deadman.TimeoutFires` | adapters/runtime.py:579-585 | With the latch spent the watchdog fires exactly once, within one tick period of the timeout |
| `Deadman.RestIsKept` | adapters/runtime.py:558-603 | Once at rest, no tick, heartbeat or planner velocity publishes anything |
| `Deadman.DriveCommandTakesOver` | adapters/session.py:96-100 | The whole state after a drive command: a moving one preempts an active goal, is published and starts the clock |
| `Deadman.LinkLossStops` | adapters/runtime.py:558-603 | With a goal active and no heartbeat any more: planner velocities are relayed for the link timeout at most, the first tick past it cancels the goal and publishes the zeros no more than one period late, and nothing is published after |
| `Deadman.PlannerRelayedExactly` | adapters/runtime.py:558-561 | A planner velocity is published exactly while a goal is active and the link no older than the timeout, and changes nothing else |
| `RtpFraming.PacketCounter.Receive` | scripts/robot_tool.py:575-591 | Draining one received chunk takes exactly the frames of buffer and chunk; what stays buffered is their rest, up to at most three bytes of leading garbage |
| `RtpFraming.FramesAppend` | scripts/robot_tool.py:575-591 | The frames of a continued stream are those of its start followed by those of what the start left over and the continuation |
| `RtpFraming.ChunkingIsIrrelevant` | scripts/robot_tool.py:568-591 | For any stream and any cut into chunks, draining after each chunk yields the same frames and rest as the whole stream at once |
| `RtpFraming.GarbageIsIrrelevant` | scripts/robot_tool.py:577-581 | Buffers that differ only before their first `$` continue alike |
| `RtpFraming.VerdictMonotone` | scripts/robot_tool.py:563-591 | Frames and distinct sequence numbers of a prefix stay those of the longer stream |
| `RtpFraming.Probe` | scripts/robot_tool.py:563-605 | The verdict is true exactly when the bytes seen hold RTP packets of two different sequence numbers; a false one has counted every packet, byte and number, a true one those up to the end of the first read that decided it |
| `RtpFraming.LeftoverMatters` | scripts/robot_tool.py:559-576 | Not examining the bytes left over from the PLAY response changes the verdict exactly when nothing follows them and they were enough by themselves |
| `RtpFraming.LeftoverPacketsMissed` | scripts/robot_tool.py:559-576 | The failing case: two packets that came with the response and nothing after |
| `RtpFraming.StreamReads` | scripts/robot_tool.py:569-575 | Timeouts add nothing, data is appended, and the peer's close ends the stream whatever is listed behind it |
| `RtpWriter.FrameBack` | scripts/robot_tool.py:576-587 | A packet of any channel and of any length below 65536, written behind any garbage without a `$`, is read back, and reading goes on right behind it |
| `RtpWriter.StreamBack` | scripts/robot_tool.py:576-587 | Any packets with any garbage between them are read back in order, and an unfinished packet is kept |
| `RtpWriter.EveryStreamIsWritten` | scripts/robot_tool.py:576-587 | Every byte stream is such a sequence, so reading loses nothing but garbage |
| `RtpWriter.SequenceBack` | scripts/robot_tool.py:591 | A sequence number written high byte first in bytes 2 and 3 is read back |
| `RtpWriter.RtpExactly` | scripts/robot_tool.py:588 | A packet counts exactly on an even channel, with twelve bytes and a first byte 0x80 to 0xBF |
| `RtpWriter.CountedPacket` | scripts/robot_tool.py:588-590 | What one more packet adds to the packet and byte counts |
| `RtpWriter.VerdictOnPackets` | scripts/robot_tool.py:563-594 | For any packets and garbage on the wire the verdict is positive exactly when two counting packets differ in their number bytes |
| `RtspResponse.Connection.ReadResponse` | scripts/robot_tool.py:453-482 | The two receive loops compute `Read`, including the three errors and slices by a negative length |
| `RtspResponse.ReadConserves` | scripts/robot_tool.py:453-482 | Header, blank line, body, leftover and the unread chunks are the supplied bytes, for every announced length |
| `RtspResponse.ChainConserves` | scripts/robot_tool.py:513-561 | Three chained responses, each given the previous leftover: no byte lost or duplicated |
| `RtspResponse.ReadIsParseStream` | scripts/robot_tool.py:453-482 | With a length that is non-negative, or negative by at least the bytes that follow, the outcome is that of the whole stream however it is cut |
| `RtspResponse.OutcomeOfBytesExactly` | scripts/robot_tool.py:453-482 | Every two cuts of the same bytes give the same reply and rest if and only if the announced length is non-negative or its size at least the bytes behind the blank line |
| `RtspResponse.NegativeLengthDependsOnChunks` | scripts/robot_tool.py:472-482 | With any other length, cutting right behind the blank line gives an empty body and receiving at once a nonempty one |
| `RtspWriter.ResponseBack` | scripts/robot_tool.py:453-482 | A response written as header, CR LF CR LF and a body of the announced length is read back whole in any cut, and what follows is left over |
| `RtspWriter.ResponseFails` | scripts/robot_tool.py:464-475 | An unreadable status line and a body that ends early are reported as such, in any cut |
| `RtspWriter.NoBlankCloses` | scripts/robot_tool.py:456-460 | Without CR LF CR LF the reader reports the close |
| `RtspProbe.ProbeVideo` | scripts/robot_tool.py:513-605 | Responses read in turn off one connection, then the packet loop: the outcome is that of the session on the received chunks |
| `RtspProbe.OutcomeOfBytesExactly` | scripts/robot_tool.py:453-605 | With usable lengths, the outcome of all responses and the probe together is the same for every cut of the bytes if and only if they stop at a refusal or the bytes behind the last response are not progressing by themselves |
| `RtspProbe.SessionMeans` | scripts/robot_tool.py:453-605 | For any cut a refusal is the one the bytes give, and a positive verdict implies progressing bytes |
| `RtspWriter.SessionBack` | scripts/robot_tool.py:513-605 | Good responses written in turn take the probe, in any cut, to the packets behind them, and progress is reported only if those show it |
| `RtspWriter.OtherResponseRefuses` | scripts/robot_tool.py:516-561 | Any status but 200, or a response without what the next request needs, ends the probe at that response |
| `BridgeWire.BridgeLoop.PostStep` | argos/loop_functions/swarmdeck_bridge_loop_functions.cpp:276-511 | Sends exactly one grammar-shaped observation on each exchange tick and nothing on the others |
| `BridgeWire.BridgeLoop.AppendRobot` | argos/loop_functions/swarmdeck_bridge_loop_functions.cpp:298-498 | One robot's blocks in order, each optional one behind its presence flag |
| `BridgeWire.BridgeLoop.AppendFrame` | argos/loop_functions/swarmdeck_bridge_loop_functions.cpp:459-494 | Camera block with black padding when the pixel payload has the wrong size |
| `BridgeWire.BridgeLoop.AppendScan` | argos/loop_functions/swarmdeck_bridge_loop_functions.cpp:425-456 | Lidar block with its reading count |
| `BridgeRoundTrip.DecodesExactlyWhenFramed` | argos/loop_functions/swarmdeck_bridge_loop_functions.cpp:8-25 | decode(encode(obs) ++ rest) gives back obs as far as the wire can carry it, and rest untouched, if and only if counts fit 32 bits and each depth frame is absent or width x height |
| `BridgeRoundTrip.LosslessExactly` | argos/loop_functions/swarmdeck_bridge_loop_functions.cpp:8-25 | The very observation comes back if and only if it is framed, every ID is below 256 bytes, every ring below 65536 and every pixel payload complete |
| `BridgeRoundTrip.DecodesUniquely` | argos/loop_functions/swarmdeck_bridge_loop_functions.cpp:8-25 | Equal bytes in front of any two rests carry equal observations and rests |
| `BridgeRoundTrip.ObservationBack` | argos/loop_functions/swarmdeck_bridge_loop_functions.cpp:290-499 | The round trip for any fleet and any mix of optional blocks |
| `BridgeRoundTrip.RobotBack` | argos/loop_functions/swarmdeck_bridge_loop_functions.cpp:298-498 | The round trip of one robot record |
| `BridgeRoundTrip.CameraBack` | argos/loop_functions/swarmdeck_bridge_loop_functions.cpp:459-494 | A missing or short pixel payload reads back as a full black frame and everything after it stays in place |
| `BridgeRoundTrip.ScanBack` | argos/loop_functions/swarmdeck_bridge_loop_functions.cpp:425-456 | The round trip of a scan with any number of readings below 2^32 |
| `BridgeRoundTrip.ManyBack` | argos/loop_functions/swarmdeck_bridge_loop_functions.cpp:8-21 | Repeated blocks read back as a list whenever each block reads back in front of anything |
| `BridgeRoundTrip.ObservationFramed` | swarmdeck_ros/src/swarmdeck_sim/nodes/swarmdeck_argos_bridge.py:484-760 | The reader yields nothing but observations that keep the size rules |
| `BridgeLayout.ObservationLayout` | argos/loop_functions/swarmdeck_bridge_loop_functions.cpp:8-9 | The 16 header bytes: "SDB2", tick, tick rate and robot count, least significant byte first |
| `BridgeLayout.RobotLayout` | argos/loop_functions/swarmdeck_bridge_loop_functions.cpp:10-21 | A robot record: length byte, ID, 104 bytes of motion, then the five sensors each behind a presence byte |
| `BridgeLayout.MotionLayout` | argos/loop_functions/swarmdeck_bridge_loop_functions.cpp:11 | The thirteen 64-bit words of a motion, orientation with the scalar first |
| `BridgeLayout.ScanLayout` | argos/loop_functions/swarmdeck_bridge_loop_functions.cpp:425-456 | The offset of every field of a scan and of its 19-byte readings |
| `BridgeLayout.FrameLayout` | argos/loop_functions/swarmdeck_bridge_loop_functions.cpp:459-494 | The offset of every field of a frame: pixels as given or black, the depth flag and each depth word |
| `BridgeLayout.CommandsLayout` | swarmdeck_ros/src/swarmdeck_sim/nodes/swarmdeck_argos_bridge.py:768-789 | "SDCMD", tick and count, the commands, and the reset flag at the end |
| `BridgeLayout.CmdLayout` | argos/loop_functions/swarmdeck_bridge_loop_functions.cpp:24-25 | The offset of every field of a command, with 56 bytes of pose behind a set flag |
| `BridgeLayout.TruncatedRefused` | argos/loop_functions/swarmdeck_bridge_loop_functions.cpp:214-566 | A packed command message cut off anywhere is refused |
| `BridgeLayout.ForeignRefused` | argos/loop_functions/swarmdeck_bridge_loop_functions.cpp:513-520 | A message without its magic is refused |
| `BridgeCommands.Simulator.RecvAll` | argos/loop_functions/swarmdeck_bridge_loop_functions.cpp:214-233 | Exactly the next n bytes however the peer's data is segmented, or a failure when it closes first |
| `BridgeCommands.Simulator.HandleCommands` | argos/loop_functions/swarmdeck_bridge_loop_functions.cpp:513-566 | Consumes exactly one well-formed command message, leaves the rest untouched and applies it; raises on anything else |
| `BridgeCommands.Simulator.ObeyCommand` | argos/loop_functions/swarmdeck_bridge_loop_functions.cpp:542-557 | Only the first robot with the commanded ID is touched; a teleport resets its controller and pose history |
| `BridgeCommands.CommandsBack` | swarmdeck_ros/src/swarmdeck_sim/nodes/swarmdeck_argos_bridge.py:768-789 | What the ROS side packs is read back whole by the simulator, whatever follows |
| `BridgeCommands.LastCommandWins` | argos/loop_functions/swarmdeck_bridge_loop_functions.cpp:524-557 | A robot ends as the last command for its ID says; a teleported robot stands still at its new pose |
| `BridgeCommands.LastTeleportWins` | argos/loop_functions/swarmdeck_bridge_loop_functions.cpp:524-557 | The pose and previous pose of a robot are those of the last teleport that reached it, whatever velocity commands follow |
| `BridgeCommands.PoseKept` | argos/loop_functions/swarmdeck_bridge_loop_functions.cpp:545-557 | Velocity commands, in any number, leave a robot's pose and previous pose as they were |
| `BridgeCommands.IdentityKept` | argos/loop_functions/swarmdeck_bridge_loop_functions.cpp:545-557 | No command changes a robot's ID or start pose |
| `BridgeCommands.PlainMessageMovesNobody` | argos/loop_functions/swarmdeck_bridge_loop_functions.cpp:513-566 | A message with neither teleports nor a reset leaves every robot's ID, start, pose and previous pose as they were |
| `BridgeCommands.SecondNamesakeUntouched` | argos/loop_functions/swarmdeck_bridge_loop_functions.cpp:545-549 | Of two robots with one ID the second is never reached |
| `BridgeCommands.UnnamedUntouched` | argos/loop_functions/swarmdeck_bridge_loop_functions.cpp:545-557 | A robot no command names keeps its state |
| `BridgeCommands.ResetWins` | argos/loop_functions/swarmdeck_bridge_loop_functions.cpp:560-586 | A world reset leaves every robot at the start pose it had, still, with no pose history, under its own ID |
| `UniqueRows.PackRows` | adapters/runtime.py:306-315 | Column-by-column packing in 64-bit wrap-around arithmetic, spans taken from the wrapped columns |
| `UniqueRows.UniqueRowIndex` | adapters/runtime.py:294-315 | The first occurrence of each distinct row in lexicographic row order, if and only if the guard takes the fallback or the wrapped packing keeps the order of the rows; always while column spans fit 64 bits, for any rounding of the guard product within two per cent; for one column of 64-bit keys, exactly when the guard takes the fallback or the keys span at most 2^63 - 1 |
| `UniqueRows.WrappedIsPacked` | adapters/runtime.py:306-315 | While the spans fit, the wrapped number is the unbounded mixed-radix number |
| `UniqueRows.PackingDecides` | adapters/runtime.py:312-315 | The packed branch gives the row-wise answer if and only if the wrapped numbers keep the order of the rows, for any number and width of columns |
| `UniqueRows.WideColumnMayBeRight` | adapters/runtime.py:306-315 | A column of full 64-bit width whose rows still come out in order, so the spans alone do not decide |
| `UniqueRows.PackOrder` | adapters/runtime.py:312-315 | Mixed-radix packing is injective and order-preserving |
| `UniqueRows.NoOverflow` | adapters/runtime.py:309-315 | Every intermediate product and sum stays below 2^63 when the span product does |
| `UniqueRows.PackedIsRowUnique` | adapters/runtime.py:312-315 | One-dimensional unique of the packed numbers is row-wise unique, both directions |
| `UniqueRows.RowUniqueIsDetermined` | adapters/runtime.py:311 | Row-wise unique has a single answer, so both paths agree |
| `UniqueRows.Int32KeysFit` | adapters/runtime.py:305 | 32-bit keys always fit |
| `UniqueRows.OneColumnExactly` | adapters/runtime.py:305-315 | For one column of 64-bit keys the packed branch by itself is right if and only if the keys span at most 2^63 - 1 |
| `UniqueRows.WrapsAround` | adapters/runtime.py:306-315 | Wrapped arithmetic differs by whole turns of 2^64 and stays in 64 bits |
| `UniqueRows.FirstDifferenceDecides` | adapters/runtime.py:311 | Lexicographic order is decided by the first column in which two rows differ |
| `Voxels.VoxelDownsample` | adapters/keyframe_producer.py:123-128 | Keeps, for each occupied voxel, its first point and no other, in lexicographic voxel order |
| `UniqueRows.OnePointPerVoxel` | adapters/keyframe_producer.py:123-128 | Every row has its voxel's representative, no later than itself, and no voxel has two |
| `PoseLookup.Lookup` | adapters/adapter_sim/adapter_sim.py:647-700 | The single reverse scan of an arbitrarily ordered log with duplicates answers what stable sort and bisection answer, for every stable order of it; and what that is: the newest sample of the very stamp, a pose on the way between close neighbours, or the nearer neighbour within 0.5 s |
| `PoseLookup.StableOrderExists` | adapters/adapter_sim/adapter_sim.py:647-700 | Such an order always exists |
| `PoseLookup.ExactAgrees` | adapters/adapter_sim/adapter_sim.py:655-658 | An exact hit is the newest sample of that stamp on both sides |
| `PoseLookup.ScanAgrees` | adapters/adapter_sim/adapter_sim.py:659-663 | Without a hit the scan's two neighbours are the bisection's, ties included |
| `PoseLookup.BracketRequired` | adapters/adapter_sim/adapter_sim.py:664-694 | With `require_bracket` there is an answer if and only if a sample has the stamp or two samples at most 0.5 s apart enclose it |
| `PoseLookup.InterpolationBetween` | adapters/adapter_sim/adapter_sim.py:671-682 | An interpolated position lies between its endpoints and its heading is normalised |
| `PoseLookup.InterpolationOnTheWay` | adapters/adapter_sim/adapter_sim.py:671-682 | x and y have covered the share of their way that the stamp has of the time between the samples, and the heading the same share of the shortest turn, modulo whole turns |
| `PoseLookup.OnTheWayIsUnique` | adapters/adapter_sim/adapter_sim.py:671-682 | Only one pose does so |
| `PoseLookup.BetweenIsAnswered` | adapters/adapter_sim/adapter_sim.py:664-700 | What the two neighbours decide: coincident, bracketed within 0.5 or 1 s, refused, the nearer one within 0.5 s with ties to the earlier, or the current pose |
| `Angles.ModBounds` | adapters/adapter_sim/adapter_sim.py:673-682 | Floored modulus by a positive number lies in [0, m) |
| `Angles.WrapKeepsHeading` | adapters/adapter_sim/adapter_sim.py:673-682 | Wrapping changes an angle by whole turns only and brings it into [-pi, pi) |
| `Angles.WrapIsShortest` | adapters/adapter_sim/adapter_sim.py:673 | The wrapped difference of two headings is the shortest turn between them |
| `Keyframes.KeyframeUploader.ConsiderScan` | adapters/keyframe_producer.py:387-517 | In-place form of `Consider` |
| `Keyframes.KeyframeUploader.CheckTurnRate` | adapters/keyframe_producer.py:519-557 | In-place form of the turn-rate gate, including the stamps that keep the old reference |
| `Keyframes.KeyframeUploader.Upload` | adapters/keyframe_producer.py:572-593 | Pops the oldest blob, then posts it; a failing post loses it |
| `KeyframeRuns.UploadsConserved` | adapters/keyframe_producer.py:480-517 | In every run enqueued = dropped + sent + failed + queued, the queue is the newest part of what was enqueued and within capacity, and posted sequence numbers strictly increase |
| `KeyframeRuns.AcceptedRateBounded` | adapters/keyframe_producer.py:519-557 | With the gate on, `max_accepted_yaw_rate` never exceeds `max_yaw_rate` |
| `KeyframeRuns.UnusableScansErasable` | adapters/keyframe_producer.py:540-557 | With the gate on, erasing every scan whose stamp is not more than 1e-3 past the reference changes nothing but the rejection counters |
| `KeyframeRuns.SpanBetween` | adapters/keyframe_producer.py:410-416 | Captures i and j are at least (j - i) minimum periods apart |
| `KeyframeRuns.WindowBound` | adapters/keyframe_producer.py:410-416 | Any window of length w holds at most w / min_period_s + 1 captures, in every run |
| `KeyframeLaws.CapturedExactly` | adapters/keyframe_producer.py:387-517 | A scan becomes a keyframe exactly when it is usable, turning no faster than permitted, spaced from the last capture by both clocks, dense, news against the last capture, and encodes |
| `KeyframeLaws.GateDecides` | adapters/keyframe_producer.py:519-557 | The gate off or without a reference passes, an interval of at most 1 ms is turned away and keeps the reference, otherwise the shortest turn over the interval is the rate that decides |
| `KeyframeLaws.CaptureQueues` | adapters/keyframe_producer.py:496-517 | A capture takes the next number and the end of the queue, and the oldest blob is dropped exactly from a full queue |
| `KeyframeLaws.CapturesAreNovel` | adapters/keyframe_producer.py:387-517 | In every run each captured scan is usable, dense, encodable and news against the one captured before it |
| `KeyframeLaws.RejectionOnlyCounts` | adapters/keyframe_producer.py:387-517 | A scan that is not captured leaves queue, history and last capture alone |
| `KeyframeLaws.UploadTakesOldest` | adapters/keyframe_producer.py:572-593 | An upload takes the oldest blob off the queue whether or not its post succeeds |
| `KeyframeLaws.FailedEncodingCostsNumber` | adapters/keyframe_producer.py:475-495 | A rejected scan costs a sequence number exactly when only its encoding failed |
| `KeyframeLaws.RejectionsCounted` | adapters/keyframe_producer.py:395-408 | What the two rejection counters count, and when the reference scan is replaced |
| `ProviderRuntime.Run` | agent/agent_cortex/runtime.py:22-89 | Relays the parsed events in order; unless cancelled, a done or error is among what it yields; what is added after a broken or silent process is exactly determined, and nothing is added after the provider's own verdict |
| `ProviderRuntime.OutputGrows` | agent/agent_cortex/runtime.py:47-70 | What each further line makes of the output: an event, nothing, or its end |
| `ProviderRuntime.OutputStops` | agent/agent_cortex/runtime.py:47-89 | Nothing behind a broken or cancelled line is read |
| `ProviderRuntime.OutputReachesExactly` | agent/agent_cortex/runtime.py:47-89 | The output is read to its end exactly when no line broke or was cancelled |
| `ProviderRuntime.VerdictMeans` | agent/agent_cortex/runtime.py:71-89 | What is added when the process ends by itself, for every answer of its closing hook |
| `ProviderRuntime.OwnVerdictStands` | agent/agent_cortex/runtime.py:71-89 | Nothing is added to a stream that brought a done or an error |
| `ProviderRuntime.ReadStderr` | agent/agent_cortex/runtime.py:34-46 | Keeps whole chunks, at most 65536 bytes, such that one more older chunk would exceed the bound |
| `ProviderRuntime.TailNearlyFull` | agent/agent_cortex/runtime.py:38-45 | A tail that dropped anything is within one read of the bound |
| `AuditStream.AuditRun.FlushTokens` | agent/agent_cortex/supervisor.py:216-227 | In-place form of `Flush`: pending tokens become one stored row, or nothing when there are none |
| `AuditStream.AuditRun.ObserveEvent` | agent/agent_cortex/supervisor.py:231-247 | In-place form of `Observe`: terminal type, coalescing, flush before every other event |
| `AuditStream.AuditRun.Run` | agent/agent_cortex/supervisor.py:199-266 | Forwards every event unchanged, and leaves the store as `Closed` of the audited stream says |
| `AuditFaithfulness.TrailIsFaithful` | agent/agent_cortex/supervisor.py:229-257 | Expanding the stored trail gives the yielded text character by character in the same place between the same other events, whatever the shadow planner stored in between |
| `AuditFaithfulness.PhaseFollowsStream` | agent/agent_cortex/supervisor.py:255-266 | The job ends completed without an error text exactly when a done and no error was yielded, and otherwise failed with the stream-ended text |
| `AuditFaithfulness.FailsOnlyOnError` | agent/agent_cortex/supervisor.py:231-266 | With the runtime's terminal guarantee the job fails exactly when an error was yielded |
| `AuditFaithfulness.CutShortLosesTail` | agent/agent_cortex/supervisor.py:249-254 | A cancelled or raising stream stores everything but exactly the token text yielded since the last flush, less than 4096 characters, and the phase says so |
| `AuditFaithfulness.CutShortIsCompleteExactly` | agent/agent_cortex/supervisor.py:249-254 | Its trail is complete if and only if no token text was waiting |
| `AuditFaithfulness.CancelledTokenIsLost` | agent/agent_cortex/supervisor.py:249-251 | The failing case: any one token shorter than a flush, then a cancel, and the trail stays empty |
| `AuditFaithfulness.TokensAreJoined` | agent/agent_cortex/supervisor.py:236-240 | Among the provider rows one run stores, no token row shorter than 4096 characters is directly followed by another token row |
| `CortexStore.CortexStore.AppendEvent` | agent/agent_cortex/store.py:136-157 | Stores the row under one more than the job's highest number and returns it; an unknown job stores nothing |
| `CortexStore.CortexStore.SetPhase` | agent/agent_cortex/store.py:159-166 | Sets phase, error and time of a known job; otherwise changes nothing |
| `CortexStore.CortexStore.InterruptRunningJobs` | agent/agent_cortex/store.py:168-185 | Marks exactly the running jobs interrupted, with the restart text and time, leaves every other job and all events alone, and returns how many there were |
| `CortexStore.CortexStore.AddCompaction` | agent/agent_cortex/store.py:277-290 | Adds a compaction for a known job |
| `CortexStore.CortexStore.CreateJob` | agent/agent_cortex/store.py:102-134 | Creates a running job under a new ID |
| `CortexStore.CortexStore.GetEvents` | agent/agent_cortex/store.py:202-217 | Every stored row of the job as often as it is stored, no row of another job, by ascending sequence |
| `CortexStore.CortexStore.GetReplayContext` | agent/agent_cortex/store.py:292-331 | The mark and summary of a latest compaction, or mark 0 without one; the rows are exactly the job's rows numbered past the mark, as often as stored, ascending |
| `CortexStore.LatestIsGreatest` | agent/agent_cortex/store.py:299-307 | The chosen compaction covers the most of its job's, and is the youngest of those that do |
| `CortexStore.UpdatesOneJob` | agent/agent_cortex/store.py:102-290 | Creating, appending, setting a phase and compacting touch one job's record, never change or remove anything stored, and do nothing to the tables for an unknown job |
| `StoreRuns.TrailIsGapFree` | agent/agent_cortex/store.py:136-157 | In every run each job's events are numbered exactly 1 to n in the order stored, and the replay is the trail without its first `through` events, also for a mark that is negative or too large |
| `StoreRuns.ReplayCompletes` | agent/agent_cortex/store.py:292-331 | In any database the events up to the latest compaction followed by the replay are the full list |
| `StoreRuns.TrailOnlyGrows` | agent/agent_cortex/store.py:292-297 | Whatever follows, an earlier trail stays the beginning of the later one, and the replay mark never moves back |
| `CortexStore.OrderedRows` | agent/agent_cortex/store.py:202-206 | Ordering by sequence permutes the rows into ascending order |
| `StoreRuns.RunningSinceRestart` | agent/agent_cortex/store.py:168-185 | After a restart only jobs created, or set running, since then can be running |

## Left out

- UniqueRows.UniqueRowIndex: for several columns with one wider than 64 bits the exact condition compares the wrapped numbers pair by pair; no bound on the spans alone is exact. The floating-point guard product enters as a number within two per cent of the exact one; NaN and rounding of other floats are not modelled.
- Voxels.VoxelDownsample: rounding a coordinate to its voxel is a parameter that yields three 32-bit numbers; the cast of coordinates beyond that range is not modelled.
- BridgeCommands.Simulator.HandleCommands: what a message that fails half-way has already applied is not stated.
- BridgeWire.BridgeLoop.PostStep: velocities arrive as given words; differencing ground-truth poses into velocities and the overflow of the frame size in machine integers are not modelled. Connecting, pacing and shutdown are left out.
- Trajectory.HardwareBridge.NavigateTrajectory: transforms, velocity limits and service calls are answers of the environment; the planner action of `navigate_to` in the same file is not modelled.
- Deadman.DeadmanBound: excludes `set_mode` and `cancel_goal` during teleop, which take the run outside the watchdog's condition; one clock reading serves a whole watchdog round; the bridge without a velocity publisher is left out.
- SimGoals.RobotBridge.DriveCommand: drive messages whose fields are not numbers are left out.
- SimGoals.RobotBridge.TickEscape: the distance driven is a reading; display fields (planned path) and the pose reset service are left out.
- Exploration.MggExploration.TimerTick: one tick takes the two clock readings that matter; warnings are left out, and bridge calls made by the controller do not raise, except the navigate call.
- MissionRuns.DeadlockFree: approval, dispatch and cancellation are steps of the environment, and a blocked task may be cancelled; one task per robot holds within a wave only, as in the source. Python's recursion limit on very deep plans is not modelled.
- PoseLookup.Lookup: diagnostic counters, the composition of two looked-up transforms and non-finite stamps are left out.
- Keyframes.KeyframeUploader.ConsiderScan: point selection, the novelty test and encoding are answers of the scan; one producer thread, method bodies atomic.
- ProviderRuntime.Run: starting, reading, parsing and closing are outcomes per line; closing the generator early from outside is left out.
- AuditStream.AuditRun.Run: redaction of stored payloads is a function assumed only to turn no other value into a string delta; store calls succeed for a known job, and for an unknown one nothing is stored.
- CortexStore.CortexStore.GetReplayContext: ties of mark and creation time are broken by insertion order, where the query leaves them open; the mark does not depend on it.
- ExploringRobot.Next: calls reach the robot at once and in order, with one reading of goal and server state per controller step; the simulator's own second stop of exploration, which finds it stopped, is left out.
- RtspProbe.ProbeVideo: requests, session header and track selection are one check of each accepted response; socket errors, timeouts and the deadline of the packet loop are left out.
- The SQLite file, locking, memories and their review, job listing and JSON encoding.
- ROS nodes, transforms, sensor pipelines, detection, HTTP uploads, video publishing, remote services, calibration and display code: I/O or floating-point work without an exact law.
- Tool argument building, provider command lines, job classification and planner policy: settled by reading one branch.
