/** Whole runs of the mission executive: any interleaving of waves, dispatches, results, approvals and cancellations. */
module MissionRuns {
  import opened TaskGraph
  import opened Missions
  import opened MissionWaves

  datatype Step =
    | Approve(i: nat)
    | Wave
    | Dispatch(i: nat)
    | Result(i: nat, succeeded: bool)
    | Cancel(i: nat)

  predicate AcceptsResult(st: TaskStatus) {
    st == Ready || st == Running
  }

  predicate Finished(st: TaskStatus) {
    st == Succeeded || st == Failed || st == Cancelled
  }

  /** A step that does not apply raises or is ignored, and changes nothing. */
  ghost function Next(ts: seq<Task>, step: Step): (r: seq<Task>)
    ensures |r| == |ts|
  {
    match step
    case Wave => AfterWave(ts)
    case Approve(i) => if i < |ts| then ts[i := ts[i].(approved := true)] else ts
    case Dispatch(i) => if i < |ts| && ts[i].status == Ready then ts[i := ts[i].(status := Running)] else ts
    case Result(i, ok) =>
      if i < |ts| && AcceptsResult(ts[i].status) then ts[i := ts[i].(status := if ok then Succeeded else Failed)]
          else ts
    case Cancel(i) => if i < |ts| && !Finished(ts[i].status) then ts[i := ts[i].(status := Cancelled)] else ts
  }

  ghost function Run(ts: seq<Task>, steps: seq<Step>): (r: seq<Task>)
    ensures |r| == |ts|
    decreases steps
  {
    if steps == [] then ts else Run(Next(ts, steps[0]), steps[1..])
  }

  ghost predicate Initial(ts: seq<Task>) {
    PlanAccepted(ts) && forall i :: 0 <= i < |ts| ==> ts[i].status == Pending
  }

  /** Two states of one plan: only approvals and statuses differ. */
  ghost predicate SameTasks(ts: seq<Task>, r: seq<Task>) {
    && |r| == |ts|
    && forall i :: 0 <= i < |ts| ==> r[i] == ts[i].(status := r[i].status, approved := r[i].approved)
  }

  /** "Depends on, directly or through other tasks", as a relation on task IDs. */
  type Relation = (Id, Id) -> bool

  ghost function Ancestry(ts: seq<Task>): Relation {
    var g := Dependencies(ts);
    (u, v) => DependsOn(g, u, v)
  }

  ghost predicate Transitive(dep: Relation) {
    forall u, v, w :: dep(u, v) && dep(v, w) ==> dep(u, w)
  }

  ghost predicate CoversDependencies(dep: Relation, ts: seq<Task>) {
    forall i, j :: 0 <= i < |ts| && 0 <= j < |ts| && ts[j].id in ts[i].dependsOn ==> dep(ts[i].id, ts[j].id)
  }

  lemma AncestryLaws(ts: seq<Task>)
    requires UniqueIds(ts)
    ensures Transitive(Ancestry(ts)) && CoversDependencies(Ancestry(ts), ts)
  {
    DependenciesOf(ts);
    var g := Dependencies(ts);
    forall u, v, w | Ancestry(ts)(u, v) && Ancestry(ts)(v, w) ensures Ancestry(ts)(u, w) {
      DependsOnTransitive(g, u, v, w);
    }
    forall i, j | 0 <= i < |ts| && 0 <= j < |ts| && ts[j].id in ts[i].dependsOn
        ensures Ancestry(ts)(ts[i].id, ts[j].id) {
      DirectDependency(g, ts[i].id, ts[j].id);
    }
  }

  /** A task that ever left the waiting states has all its dependencies succeeded. */
  ghost predicate StartedAfterDependencies(ts: seq<Task>) {
    forall i: nat :: i < |ts| && ts[i].status in {Ready, Running, Succeeded, Failed} ==> DependenciesSucceeded(ts, i)
  }

  ghost predicate HasDeadAncestor(dep: Relation, ts: seq<Task>, i: nat)
    requires i < |ts|
  {
    exists j :: 0 <= j < |ts| && dep(ts[i].id, ts[j].id) && ts[j].status in {Failed, Cancelled}
  }

  ghost predicate BlockedHaveCause(dep: Relation, ts: seq<Task>) {
    forall i: nat :: i < |ts| && ts[i].status == Blocked ==> HasDeadAncestor(dep, ts, i)
  }

  /** Nor without the approval it needs. */
  ghost predicate StartedApproved(ts: seq<Task>) {
    forall i: nat :: i < |ts| && ts[i].status in {Ready, Running, Succeeded, Failed} ==>
      (ts[i].requiresApproval ==> ts[i].approved)
  }

  ghost predicate Inv(dep: Relation, ts: seq<Task>) {
    && Transitive(dep) && CoversDependencies(dep, ts)
    && StartedAfterDependencies(ts) && StartedApproved(ts) && BlockedHaveCause(dep, ts)
  }

  /** How a step may change one task's status. */
  ghost predicate StatusMove(a: TaskStatus, b: TaskStatus) {
    || a == b
    || (IsOpen(a) && b == Blocked)
    || (IsOpen(a) && b == Ready)
    || (a == Ready && b == Running)
    || (AcceptsResult(a) && (b == Succeeded || b == Failed))
    || (!Finished(a) && b == Cancelled)
  }

  /** Same tasks; only approvals and statuses differ, statuses only by legal moves, and no approval is withdrawn. */
  ghost predicate Moves(ts: seq<Task>, r: seq<Task>) {
    && |r| == |ts|
    && forall i :: 0 <= i < |ts| ==>
      && r[i] == ts[i].(status := r[i].status, approved := r[i].approved)
      && StatusMove(ts[i].status, r[i].status)
      && (ts[i].approved ==> r[i].approved)
  }

  lemma NextMoves(ts: seq<Task>, step: Step)
    ensures Moves(ts, Next(ts, step))
  {
    if step == Wave {
      forall i: nat | i < |ts|
        ensures AfterWave(ts)[i] == ts[i].(status := AfterWave(ts)[i].status)
            && StatusMove(ts[i].status, AfterWave(ts)[i].status)
      {
        AfterWaveTask(ts, i);
      }
    }
  }

  lemma MovesKeepCover(dep: Relation, ts: seq<Task>, r: seq<Task>)
    requires CoversDependencies(dep, ts) && Moves(ts, r)
    ensures CoversDependencies(dep, r)
  {
    forall i, j | 0 <= i < |r| && 0 <= j < |r| && r[j].id in r[i].dependsOn ensures dep(r[i].id, r[j].id) {
      assert ts[j].id in ts[i].dependsOn;
    }
  }

  /** Any legal moves keep the start invariant, provided nothing becomes ready before its dependencies succeeded. */
  lemma MovesKeepStarted(ts: seq<Task>, r: seq<Task>)
    requires StartedAfterDependencies(ts) && Moves(ts, r)
    requires forall i: nat :: i < |ts| && ts[i].status != Ready && r[i].status == Ready ==> DependenciesSucceeded(ts, i)
    ensures StartedAfterDependencies(r)
  {
    forall i: nat | i < |r| && r[i].status in {Ready, Running, Succeeded, Failed} ensures DependenciesSucceeded(r, i) {
      assert DependenciesSucceeded(ts, i);
      forall j | 0 <= j < |r| && r[j].id in r[i].dependsOn ensures r[j].status == Succeeded {
        assert ts[j].id in ts[i].dependsOn;
      }
    }
  }

  lemma MovesKeepApproved(ts: seq<Task>, r: seq<Task>)
    requires StartedApproved(ts) && Moves(ts, r)
    requires forall i: nat :: i < |ts| && ts[i].status != Ready && r[i].status == Ready && ts[i].requiresApproval ==>
        ts[i].approved
    ensures StartedApproved(r)
  {
  }

  lemma MovesKeepCause(dep: Relation, ts: seq<Task>, r: seq<Task>)
    requires BlockedHaveCause(dep, ts) && Moves(ts, r)
    requires forall i: nat :: i < |ts| && ts[i].status != Blocked && r[i].status == Blocked ==>
        HasDeadAncestor(dep, ts, i)
    ensures BlockedHaveCause(dep, r)
  {
    forall i: nat | i < |r| && r[i].status == Blocked ensures HasDeadAncestor(dep, r, i) {
      assert HasDeadAncestor(dep, ts, i);
      var j :| 0 <= j < |ts| && dep(ts[i].id, ts[j].id) && ts[j].status in {Failed, Cancelled};
      assert dep(r[i].id, r[j].id) && r[j].status in {Failed, Cancelled};
    }
  }

  lemma BlockableHasCause(dep: Relation, s: seq<Task>, i: nat)
    requires Transitive(dep) && CoversDependencies(dep, s) && BlockedHaveCause(dep, s)
    requires i < |s| && Blockable(s, i)
    ensures HasDeadAncestor(dep, s, i)
  {
    var j :| 0 <= j < |s| && s[j].id in s[i].dependsOn && IsBad(s[j].status);
    if s[j].status == Blocked {
      var k :| 0 <= k < |s| && dep(s[j].id, s[k].id) && s[k].status in {Failed, Cancelled};
      assert dep(s[i].id, s[k].id);
    }
  }

  /** Blocking spreads only from failed or cancelled tasks, however many tasks one pass has already blocked. */
  lemma {:induction false} SweepCause(dep: Relation, ts: seq<Task>, n: nat)
    requires Transitive(dep) && CoversDependencies(dep, ts) && BlockedHaveCause(dep, ts) && n <= |ts|
    ensures CoversDependencies(dep, Sweep(ts, n)) && BlockedHaveCause(dep, Sweep(ts, n))
  {
    if n > 0 {
      SweepCause(dep, ts, n - 1);
      SweepOneCause(dep, Sweep(ts, n - 1), n - 1);
    }
  }

  lemma SweepOneCause(dep: Relation, s: seq<Task>, i: nat)
    requires Transitive(dep) && CoversDependencies(dep, s) && BlockedHaveCause(dep, s) && i < |s|
    ensures CoversDependencies(dep, SweepOne(s, i)) && BlockedHaveCause(dep, SweepOne(s, i))
  {
    if Blockable(s, i) {
      BlockableHasCause(dep, s, i);
      var r := s[i := s[i].(status := Blocked)];
      MovesKeepCover(dep, s, r);
      MovesKeepCause(dep, s, r);
    }
  }

  lemma WaveKeepsCause(dep: Relation, ts: seq<Task>)
    requires Transitive(dep) && CoversDependencies(dep, ts) && BlockedHaveCause(dep, ts)
    ensures BlockedHaveCause(dep, AfterWave(ts))
  {
    var s, r := Sweep(ts, |ts|), AfterWave(ts);
    SweepCause(dep, ts, |ts|);
    forall i: nat | i < |ts| ensures r[i] == s[i] || (IsOpen(s[i].status) && r[i] == s[i].(status := Ready)) {
      if Chosen(ts, i) {
        EligibleNotSwept(ts, i, |ts|);
      }
    }
    MovesKeepCause(dep, s, r);
  }

  lemma NextKeepsInv(dep: Relation, ts: seq<Task>, step: Step)
    requires Inv(dep, ts)
    ensures Inv(dep, Next(ts, step))
  {
    var r := Next(ts, step);
    NextMoves(ts, step);
    MovesKeepCover(dep, ts, r);
    if step == Wave {
      forall i: nat | i < |ts| && ts[i].status != Ready && r[i].status == Ready
        ensures DependenciesSucceeded(ts, i) && (ts[i].requiresApproval ==> ts[i].approved)
      {
        AfterWaveTask(ts, i);
      }
      MovesKeepStarted(ts, r);
      MovesKeepApproved(ts, r);
      WaveKeepsCause(dep, ts);
    } else {
      MovesKeepStarted(ts, r);
      MovesKeepApproved(ts, r);
      MovesKeepCause(dep, ts, r);
    }
  }

  lemma {:induction false} RunKeepsInv(dep: Relation, ts: seq<Task>, steps: seq<Step>)
    requires Inv(dep, ts)
    ensures Inv(dep, Run(ts, steps))
    decreases steps
  {
    if steps != [] {
      NextKeepsInv(dep, ts, steps[0]);
      RunKeepsInv(dep, Next(ts, steps[0]), steps[1..]);
    }
  }

  /**
   * Safety over every run of an accepted plan: whatever has been started has its dependencies succeeded and its
   * approval given where it needs one; whatever is blocked descends from a failed or cancelled task.
   */
  lemma RunInvariant(ts: seq<Task>, steps: seq<Step>)
    requires Initial(ts)
    ensures var s := Run(ts, steps);
      forall i :: 0 <= i < |s| && s[i].status in {Ready, Running, Succeeded, Failed} ==>
        && (s[i].requiresApproval ==> s[i].approved)
        && (forall j :: 0 <= j < |s| && s[j].id in s[i].dependsOn ==> s[j].status == Succeeded)
    ensures StartedAfterDependencies(Run(ts, steps))
    ensures BlockedHaveCause(Ancestry(ts), Run(ts, steps))
    ensures Inv(Ancestry(ts), Run(ts, steps))
  {
    AncestryLaws(ts);
    RunKeepsInv(Ancestry(ts), ts, steps);
  }

  lemma {:induction false} RunKeepsTasks(ts: seq<Task>, steps: seq<Step>)
    ensures SameTasks(ts, Run(ts, steps))
    decreases steps
  {
    if steps != [] {
      NextMoves(ts, steps[0]);
      RunKeepsTasks(Next(ts, steps[0]), steps[1..]);
    }
  }

  /** Succeeded, failed and cancelled are permanent. */
  lemma {:induction false} FinishedForever(ts: seq<Task>, steps: seq<Step>, i: nat)
    requires i < |ts| && Finished(ts[i].status)
    ensures Run(ts, steps)[i].status == ts[i].status
    decreases steps
  {
    if steps != [] {
      NextMoves(ts, steps[0]);
      FinishedForever(Next(ts, steps[0]), steps[1..], i);
    }
  }

  /** How many results the executive accepts for task `i` over a run. */
  ghost function AcceptedResults(ts: seq<Task>, steps: seq<Step>, i: nat): nat
    requires i < |ts|
    decreases steps
  {
    if steps == [] then 0 else
      (if steps[0].Result? && steps[0].i == i && AcceptsResult(ts[i].status) then 1 else 0)
      + AcceptedResults(Next(ts, steps[0]), steps[1..], i)
  }

  /** At most one result per task; exactly one if and only if the run ends with the task succeeded or failed. */
  lemma {:induction false} ResultAcceptedOnce(ts: seq<Task>, steps: seq<Step>, i: nat)
    requires i < |ts| && ts[i].status !in {Succeeded, Failed}
    ensures AcceptedResults(ts, steps, i) == if Run(ts, steps)[i].status in {Succeeded, Failed} then 1 else 0
    decreases steps
  {
    if steps != [] {
      NextMoves(ts, steps[0]);
      var r := Next(ts, steps[0]);
      if r[i].status in {Succeeded, Failed} {
        FinishedForever(r, steps[1..], i);
        NoResultAfterFinish(r, steps[1..], i);
        if steps[0] == Wave {
          AfterWaveTask(ts, i);
        }
      } else {
        ResultAcceptedOnce(r, steps[1..], i);
      }
    }
  }

  lemma {:induction false} NoResultAfterFinish(ts: seq<Task>, steps: seq<Step>, i: nat)
    requires i < |ts| && Finished(ts[i].status)
    ensures AcceptedResults(ts, steps, i) == 0
    decreases steps
  {
    if steps != [] {
      NextMoves(ts, steps[0]);
      NoResultAfterFinish(Next(ts, steps[0]), steps[1..], i);
    }
  }

  // ---- blocking

  ghost predicate NothingBlockable(ts: seq<Task>) {
    forall i: nat :: i < |ts| ==> !Blockable(ts, i)
  }

  /** A task that is blockable when the call starts is blocked by it. */
  lemma WaveBlocks(ts: seq<Task>, i: nat)
    requires i < |ts| && Blockable(ts, i)
    ensures AfterWave(ts)[i].status == Blocked
  {
    SweepFrame(ts, i);
    var s := Sweep(ts, i);
    var j :| 0 <= j < |ts| && ts[j].id in ts[i].dependsOn && IsBad(ts[j].status);
    assert s[j].id in s[i].dependsOn && IsBad(s[j].status);
    assert Sweep(ts, i + 1)[i].status == Blocked;
    SweepOnwards(ts, i + 1, |ts|, i);
  }

  /**
   * Which tasks one call leaves blocked: besides those blocked before, the waiting ones with a dead dependency, where a
   * dependency listed earlier counts as the call has left it and one listed later as the call found it.
   */
  lemma BlockedByOneCall(ts: seq<Task>, i: nat)
    requires i < |ts|
    ensures AfterWave(ts)[i].status == Blocked <==>
      || ts[i].status == Blocked
      || (ts[i].status in {Pending, Ready} && exists j ::
            && 0 <= j < |ts| && ts[j].id in ts[i].dependsOn
            && (if j < i then AfterWave(ts)[j] else ts[j]).status in {Failed, Blocked, Cancelled})
  {
    var s, r := Sweep(ts, i), AfterWave(ts);
    SweepFrame(ts, i);
    SweepOnwards(ts, i + 1, |ts|, i);
    forall j: nat | j < |ts|
      ensures s[j].id == ts[j].id && s[i] == ts[i]
      ensures IsBad(s[j].status) <==> IsBad((if j < i then r[j] else ts[j]).status)
    {
      if j < i {
        SweepOnwards(ts, j + 1, |ts|, j);
        SweepOnwards(ts, j + 1, i, j);
        if Chosen(ts, j) {
          EligibleNotSwept(ts, j, |ts|);
        }
      }
    }
    if Chosen(ts, i) {
      EligibleNotSwept(ts, i, |ts|);
    }
  }

  /** A pass never returns to a task. */
  lemma {:induction false} SweepOnwards(ts: seq<Task>, m: nat, n: nat, i: nat)
    requires i < m <= n <= |ts|
    ensures Sweep(ts, n)[i] == Sweep(ts, m)[i]
  {
    if m < n {
      SweepOnwards(ts, m, n - 1, i);
    }
  }

  lemma {:induction false} QuietSweep(ts: seq<Task>, n: nat)
    requires NothingBlockable(ts) && n <= |ts|
    ensures Sweep(ts, n) == ts
  {
    if n > 0 {
      QuietSweep(ts, n - 1);
    }
  }

  /** Once nothing more can be blocked, every descendant of a dead task is blocked or cancelled. */
  lemma {:induction false} DescendantsStuck(g: Graph, s: seq<Task>, p: seq<Id>, i: nat, j: nat)
    requires StartedAfterDependencies(s) && NothingBlockable(s) && UniqueIds(s)
    requires g.Keys == Ids(s) && forall k :: 0 <= k < |s| ==> s[k].id in g && g[s[k].id] == s[k].dependsOn
    requires i < |s| && j < |s| && WalkBetween(g, p, s[i].id, s[j].id) && s[j].status in {Failed, Cancelled}
    ensures s[i].status in {Blocked, Cancelled}
    decreases |p|
  {
    assert p[1] in Ids(s);
    var k :| 0 <= k < |s| && s[k].id == p[1];
    assert p[1] in g[p[0]];
    if |p| > 2 {
      assert WalkBetween(g, p[1..], s[k].id, s[j].id);
      DescendantsStuck(g, s, p[1..], k, j);
    } else {
      assert k == j;
    }
    StuckBehindBad(s, i, k);
  }

  lemma StuckBehindBad(s: seq<Task>, i: nat, k: nat)
    requires StartedAfterDependencies(s) && NothingBlockable(s)
    requires i < |s| && k < |s| && s[k].id in s[i].dependsOn && IsBad(s[k].status)
    ensures s[i].status in {Blocked, Cancelled}
  {
    assert !DependenciesSucceeded(s, i);
    assert SomeDependency(s, i, IsBad);
    assert !Blockable(s, i);
  }

  ghost function Waves(ts: seq<Task>, k: nat): (r: seq<Task>)
    ensures |r| == |ts|
  {
    if k == 0 then ts else AfterWave(Waves(ts, k - 1))
  }

  lemma {:induction false} WavesKeepInv(dep: Relation, ts: seq<Task>, k: nat)
    requires Inv(dep, ts)
    ensures Inv(dep, Waves(ts, k))
  {
    if k > 0 {
      WavesKeepInv(dep, ts, k - 1);
      NextKeepsInv(dep, Waves(ts, k - 1), Wave);
    }
  }

  /** Waves neither finish nor revive anything. */
  lemma {:induction false} WavesMove(ts: seq<Task>, k: nat, i: nat)
    requires i < |ts|
    ensures Waves(ts, k)[i] == ts[i].(status := Waves(ts, k)[i].status)
    ensures Waves(ts, k)[i].status == ts[i].status
        || (IsOpen(ts[i].status) && Waves(ts, k)[i].status in {Ready, Blocked})
  {
    if k > 0 {
      WavesMove(ts, k - 1, i);
      AfterWaveTask(Waves(ts, k - 1), i);
    }
  }

  ghost function OpenCount(ts: seq<Task>): (n: nat)
    ensures n <= |ts|
  {
    if ts == [] then 0 else OpenCount(ts[..|ts| - 1]) + if IsOpen(ts[|ts| - 1].status) then 1 else 0
  }

  lemma {:induction false} OpenCountFalls(a: seq<Task>, b: seq<Task>)
    requires |a| == |b| && forall i :: 0 <= i < |a| && IsOpen(b[i].status) ==> IsOpen(a[i].status)
    ensures OpenCount(b) <= OpenCount(a)
    ensures (exists i :: 0 <= i < |a| && IsOpen(a[i].status) && !IsOpen(b[i].status)) ==> OpenCount(b) < OpenCount(a)
  {
    if a != [] {
      var n := |a| - 1;
      OpenCountFalls(a[..n], b[..n]);
      if i :| 0 <= i < n && IsOpen(a[i].status) && !IsOpen(b[i].status) {
        assert a[..n][i] == a[i] && b[..n][i] == b[i];
      }
    }
  }

  lemma {:induction false} NoneOpen(ts: seq<Task>, i: nat)
    requires i < |ts| && OpenCount(ts) == 0
    ensures !IsOpen(ts[i].status)
  {
    if i < |ts| - 1 {
      NoneOpen(ts[..|ts| - 1], i);
    }
  }

  /** Each call blocks something new until the fixpoint is reached, so the number of tasks bounds the calls. */
  lemma {:induction false} WavesReachFixpoint(ts: seq<Task>, k: nat)
    ensures NothingBlockable(Waves(ts, k)) || OpenCount(Waves(ts, k)) + k <= |ts|
  {
    if k > 0 {
      WavesReachFixpoint(ts, k - 1);
      var s := Waves(ts, k - 1);
      if NothingBlockable(s) {
        QuietWave(s);
      } else {
        WaveShrinks(s);
      }
    }
  }

  lemma WaveShrinks(s: seq<Task>)
    requires !NothingBlockable(s)
    ensures OpenCount(AfterWave(s)) < OpenCount(s)
  {
    var i: nat :| i < |s| && Blockable(s, i);
    WaveBlocks(s, i);
    forall x: nat | x < |s| && IsOpen(AfterWave(s)[x].status) ensures IsOpen(s[x].status) {
      AfterWaveTask(s, x);
    }
    OpenCountFalls(s, AfterWave(s));
  }

  lemma QuietWave(ts: seq<Task>)
    requires NothingBlockable(ts)
    ensures NothingBlockable(AfterWave(ts))
  {
    QuietSweep(ts, |ts|);
    var r := AfterWave(ts);
    forall i: nat | i < |ts| ensures !Blockable(r, i) {
      if Blockable(r, i) {
        var j :| 0 <= j < |r| && r[j].id in r[i].dependsOn && IsBad(r[j].status);
        assert ts[j].id in ts[i].dependsOn && IsBad(ts[j].status);
        assert Blockable(ts, i);
        assert false;
      }
    }
  }

  /** At the fixpoint, a waiting task is blocked exactly when it descends from a dead one. */
  lemma BlockedExactly(ts0: seq<Task>, ts: seq<Task>, k: nat, i: nat)
    requires UniqueIds(ts0) && SameTasks(ts0, ts) && Inv(Ancestry(ts0), ts)
    requires NothingBlockable(Waves(ts, k)) && i < |ts| && IsOpen(ts[i].status)
    ensures Waves(ts, k)[i].status == Blocked <==> HasDeadAncestor(Ancestry(ts0), ts, i)
  {
    var dep, r := Ancestry(ts0), Waves(ts, k);
    WavesKeepInv(dep, ts, k);
    WavesMove(ts, k, i);
    if r[i].status == Blocked {
      CauseWasThere(dep, ts, k, i);
    }
    if HasDeadAncestor(dep, ts, i) {
      var j :| 0 <= j < |ts| && dep(ts[i].id, ts[j].id) && ts[j].status in {Failed, Cancelled};
      WavesMove(ts, k, j);
      FixpointReaches(ts0, ts, k, i, j);
    }
  }

  lemma CauseWasThere(dep: Relation, ts: seq<Task>, k: nat, i: nat)
    requires i < |ts| && HasDeadAncestor(dep, Waves(ts, k), i)
    ensures HasDeadAncestor(dep, ts, i)
  {
    var r := Waves(ts, k);
    var j :| 0 <= j < |r| && dep(r[i].id, r[j].id) && r[j].status in {Failed, Cancelled};
    WavesMove(ts, k, i);
    WavesMove(ts, k, j);
  }

  lemma FixpointReaches(ts0: seq<Task>, ts: seq<Task>, k: nat, i: nat, j: nat)
    requires UniqueIds(ts0) && SameTasks(ts0, ts) && StartedAfterDependencies(Waves(ts, k))
    requires NothingBlockable(Waves(ts, k)) && i < |ts| && j < |ts|
    requires Ancestry(ts0)(ts[i].id, ts[j].id) && Waves(ts, k)[j].status in {Failed, Cancelled}
    ensures Waves(ts, k)[i].status in {Blocked, Cancelled}
  {
    var g, r := Dependencies(ts0), Waves(ts, k);
    DependenciesOf(ts0);
    forall x: nat | x < |r| ensures r[x].id == ts0[x].id && r[x].dependsOn == ts0[x].dependsOn {
      WavesMove(ts, k, x);
    }
    SameIds(ts0, r);
    var p :| WalkBetween(g, p, ts[i].id, ts[j].id);
    DescendantsStuck(g, r, p, i, j);
  }

  lemma SameIds(a: seq<Task>, b: seq<Task>)
    requires |a| == |b| && forall i :: 0 <= i < |a| ==> a[i].id == b[i].id
    ensures Ids(a) == Ids(b)
  {
  }

  /** With no other steps, as many calls as there are tasks block exactly the waiting descendants of dead tasks. */
  lemma BlockingFixpoint(ts: seq<Task>, steps: seq<Step>, i: nat)
    requires Initial(ts) && i < |ts| && IsOpen(Run(ts, steps)[i].status)
    ensures Waves(Run(ts, steps), |ts|)[i].status == Blocked <==> HasDeadAncestor(Ancestry(ts), Run(ts, steps), i)
  {
    RunInvariant(ts, steps);
    RunKeepsTasks(ts, steps);
    var s := Run(ts, steps);
    WavesReachFixpoint(s, |ts|);
    if OpenCount(Waves(s, |ts|)) == 0 {
      forall k: nat | k < |s| ensures !Blockable(Waves(s, |ts|), k) {
        NoneOpen(Waves(s, |ts|), k);
      }
    }
    BlockedExactly(ts, s, |ts|, i);
  }

  ghost predicate ListedDependenciesFirst(ts: seq<Task>) {
    forall i, d :: 0 <= i < |ts| && d in ts[i].dependsOn ==> exists j :: 0 <= j < i && ts[j].id == d
  }

  /** A list in dependency order reaches the fixpoint in one call. */
  lemma OneCallSuffices(ts: seq<Task>, steps: seq<Step>, i: nat)
    requires Initial(ts) && ListedDependenciesFirst(ts) && i < |ts| && IsOpen(Run(ts, steps)[i].status)
    ensures AfterWave(Run(ts, steps))[i].status == Blocked <==> HasDeadAncestor(Ancestry(ts), Run(ts, steps), i)
  {
    RunInvariant(ts, steps);
    RunKeepsTasks(ts, steps);
    var s := Run(ts, steps);
    forall k: nat | k < |s| ensures !Blockable(AfterWave(s), k) {
      OrderedWaveIsQuiet(ts, s, k);
    }
    assert Waves(s, 1) == AfterWave(Waves(s, 0));
    BlockedExactly(ts, s, 1, i);
  }

  lemma OrderedWaveIsQuiet(ts: seq<Task>, s: seq<Task>, k: nat)
    requires UniqueIds(ts) && ListedDependenciesFirst(ts) && SameTasks(ts, s) && k < |s|
    ensures !Blockable(AfterWave(s), k)
  {
    var r := AfterWave(s);
    AfterWaveTask(s, k);
    if SomeDependency(r, k, IsBad) {
      var j :| 0 <= j < |r| && r[j].id in r[k].dependsOn && IsBad(r[j].status);
      AfterWaveTask(s, j);
      assert ts[j].id in ts[k].dependsOn;
      var e :| 0 <= e < k && ts[e].id == ts[j].id;
      assert e == j;
      OrderedSweepBlocks(s, j, k);
    }
  }

  /** When the dependency comes first in the list, its new status is already visible. */
  lemma OrderedSweepBlocks(s: seq<Task>, j: nat, k: nat)
    requires j < k < |s| && s[j].id in s[k].dependsOn && IsBad(AfterWave(s)[j].status)
    ensures !IsOpen(AfterWave(s)[k].status)
  {
    AfterWaveTask(s, j);
    AfterWaveTask(s, k);
    SweepFrame(s, k);
    SweepOnwards(s, k, |s|, j);
    var t := Sweep(s, k);
    assert t[j] == Sweep(s, |s|)[j];
    assert IsBad(t[j].status) && t[j].id in t[k].dependsOn;
    if IsOpen(t[k].status) {
      assert Blockable(t, k);
      SweepOnwards(s, k + 1, |s|, k);
    }
    assert !IsOpen(Sweep(s, |s|)[k].status) by {
      SweepOnwards(s, k + 1, |s|, k);
    }
    if Chosen(s, k) {
      EligibleNotSwept(s, k, |s|);
    }
  }

  // ---- deadlock-freedom

  /** Every approval is given, nothing is in progress, and a wave is empty and changes nothing. */
  ghost predicate Stalled(s: seq<Task>) {
    && (forall i :: 0 <= i < |s| ==> (s[i].requiresApproval ==> s[i].approved) && !AcceptsResult(s[i].status))
    && IsWave(s, [])
    && AfterWave(s) == s
  }

  /** No run gets stuck: when it stalls, every task has reached an end state. */
  lemma DeadlockFree(ts: seq<Task>, steps: seq<Step>)
    requires Initial(ts) && Stalled(Run(ts, steps))
    ensures forall i :: 0 <= i < |ts| ==> Run(ts, steps)[i].status in {Succeeded, Failed, Blocked, Cancelled}
  {
    RunKeepsTasks(ts, steps);
    var s := Run(ts, steps);
    var waiting := Waiting(s);
    PendingAreWaiting(s);
    if waiting != {} {
      DependenciesOf(ts);
      SameIds(ts, s);
      var u := LeastTask(Dependencies(ts), waiting);
      var i: nat :| i < |s| && s[i].status == Pending && s[i].id == u;
      PendingMoves(s, i);
    }
  }

  ghost function Waiting(s: seq<Task>): set<Id> {
    set i | 0 <= i < |s| && s[i].status == Pending :: s[i].id
  }

  lemma PendingAreWaiting(s: seq<Task>)
    ensures forall j :: 0 <= j < |s| ==> s[j].status == Pending ==> s[j].id in Waiting(s)
  {
  }

  /** A pending task none of whose dependencies is pending or in progress is either blocked by a wave or eligible. */
  lemma PendingMoves(s: seq<Task>, i: nat)
    requires i < |s| && s[i].status == Pending && (s[i].requiresApproval ==> s[i].approved)
    requires forall j :: 0 <= j < |s| && s[j].id in s[i].dependsOn ==>
        s[j].status != Pending && !AcceptsResult(s[j].status)
    ensures AfterWave(s)[i].status == Blocked || exists c: nat :: Chosen(s, c)
  {
    if SomeDependency(s, i, IsBad) {
      WaveBlocks(s, i);
    } else {
      forall j | 0 <= j < |s| && s[j].id in s[i].dependsOn ensures s[j].status == Succeeded {
        assert !IsBad(s[j].status);
      }
      WaveServesRobot(s, i);
    }
  }
}
