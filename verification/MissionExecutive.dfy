/** Selects waves and records results in place on the plan's task objects. */
module MissionExecutive {
  import opened TaskGraph
  import opened Missions
  import opened MissionPlan
  import opened MissionWaves

  /** A validated plan: distinct task objects with unique IDs, every dependency known. */
  ghost predicate ValidPlan(tasks: seq<MissionTask>) {
    && (forall i, j :: 0 <= i < j < |tasks| ==> tasks[i] != tasks[j] && tasks[i].id != tasks[j].id)
    && (forall i, d :: 0 <= i < |tasks| && d in tasks[i].dependsOn ==> HasId(tasks, d))
  }

  ghost predicate HasId(tasks: seq<MissionTask>, d: Id) {
    exists j :: 0 <= j < |tasks| && tasks[j].id == d
  }

  /** Checked plans are what the validator accepts. */
  lemma AcceptedIsValid(tasks: seq<MissionTask>)
    requires PlanAccepted(Snapshot(tasks))
    ensures ValidPlan(tasks)
  {
    var ts := Snapshot(tasks);
    CleanTasksAreClosed(ts);
    forall i, j | 0 <= i < j < |tasks| ensures tasks[i] != tasks[j] && tasks[i].id != tasks[j].id {
      assert ts[i].id != ts[j].id;
    }
    forall i, d | 0 <= i < |tasks| && d in tasks[i].dependsOn ensures HasId(tasks, d) {
      assert d in ts[i].dependsOn && d !in Missing(ts, i);
      assert d in Ids(ts);
      var j :| 0 <= j < |ts| && ts[j].id == d;
      assert tasks[j].id == d;
    }
  }

  method SetStatus(tasks: seq<MissionTask>, i: nat, status: TaskStatus)
    requires ValidPlan(tasks) && i < |tasks|
    modifies {tasks[i]}
    ensures Snapshot(tasks) == old(Snapshot(tasks))[i := old(Snapshot(tasks))[i].(status := status)]
  {
    tasks[i].status := status;
    assert forall j :: 0 <= j < |tasks| && j != i ==> tasks[j] != tasks[i];
  }

  /** Python's stable `list.sort` for a key with two values. */
  function StopsFirst(tasks: seq<MissionTask>, c: seq<nat>): (r: seq<nat>)
    requires forall k :: 0 <= k < |c| ==> c[k] < |tasks|
    ensures forall i :: i in r <==> i in c
  {
    Filter(tasks, c, true) + Filter(tasks, c, false)
  }

  function Filter(tasks: seq<MissionTask>, c: seq<nat>, stop: bool): (r: seq<nat>)
    requires forall k :: 0 <= k < |c| ==> c[k] < |tasks|
    ensures forall i :: i in r <==> i in c && (tasks[i].action == Stop <==> stop)
  {
    if c == [] then [] else
      var rest := Filter(tasks, c[..|c| - 1], stop);
      if (tasks[c[|c| - 1]].action == Stop) == stop then rest + [c[|c| - 1]] else rest
  }

  ghost predicate Ascending(c: seq<nat>) {
    forall a, b :: 0 <= a < b < |c| ==> c[a] < c[b]
  }

  lemma {:induction false} FilterAscends(tasks: seq<MissionTask>, c: seq<nat>, stop: bool)
    requires (forall k :: 0 <= k < |c| ==> c[k] < |tasks|) && Ascending(c)
    ensures Ascending(Filter(tasks, c, stop))
  {
    if c != [] {
      FilterAscends(tasks, c[..|c| - 1], stop);
      var rest := Filter(tasks, c[..|c| - 1], stop);
      forall k | 0 <= k < |rest| ensures rest[k] < c[|c| - 1] {
        assert rest[k] in rest;
      }
    }
  }

  lemma StopsFirstInDispatchOrder(tasks: seq<MissionTask>, ts: seq<Task>, c: seq<nat>)
    requires (forall k :: 0 <= k < |c| ==> c[k] < |tasks|) && Ascending(c)
    requires |ts| == |tasks| && forall i :: 0 <= i < |ts| ==> ts[i].action == tasks[i].action
    ensures InDispatchOrder(ts, StopsFirst(tasks, c))
  {
    FilterAscends(tasks, c, true);
    FilterAscends(tasks, c, false);
    var stops, others := Filter(tasks, c, true), Filter(tasks, c, false);
    var w := stops + others;
    forall k | 0 <= k < |w| ensures w[k] < |ts| && (ts[w[k]].action == Stop <==> k < |stops|) {
      if k < |stops| {
        assert w[k] in stops;
      } else {
        assert others[k - |stops|] in others;
      }
    }
  }

  /** `t` with the tasks listed in `w` marked ready. */
  ghost predicate MarkedReady(t: seq<Task>, w: seq<nat>, marked: seq<Task>) {
    && |marked| == |t|
    && forall i: nat :: i < |t| ==> marked[i] == if i in w then t[i].(status := Ready) else t[i]
  }

  method ReadyWave(tasks: seq<MissionTask>) returns (wave: seq<MissionTask>, ghost picks: seq<nat>)
    requires ValidPlan(tasks)
    modifies tasks
    ensures Snapshot(tasks) == AfterWave(old(Snapshot(tasks)))
    ensures IsWave(old(Snapshot(tasks)), picks)
    ensures |wave| == |picks| && forall k :: 0 <= k < |wave| ==> picks[k] < |tasks| && wave[k] == tasks[picks[k]]
    ensures forall t :: t in wave ==> t.status == Ready && (t.requiresApproval ==> t.approved)
    ensures forall t, u :: t in wave && u in tasks && u.id in t.dependsOn ==> u.status == Succeeded
  {
    ghost var ts := Snapshot(tasks);
    var candidates := SweepTasks(tasks);
    CandidatesAreEligible(ts, |ts|);
    SameActions(tasks, ts, |ts|);
    StopsFirstInDispatchOrder(tasks, ts, candidates);
    wave, picks := SelectWave(tasks, StopsFirst(tasks, candidates), ts);
    MarkedIsAfterWave(ts, picks, Snapshot(tasks));
    forall k | 0 <= k < |wave|
      ensures wave[k].status == Ready && (wave[k].requiresApproval ==> wave[k].approved)
      ensures forall u :: u in tasks && u.id in wave[k].dependsOn ==> u.status == Succeeded
    {
      DispatchedIsGuarded(tasks, ts, picks, k);
    }
  }

  /** The guards of a dispatched task still hold once the wave is marked. */
  lemma DispatchedIsGuarded(tasks: seq<MissionTask>, ts: seq<Task>, picks: seq<nat>, k: nat)
    requires Snapshot(tasks) == AfterWave(ts) && IsWave(ts, picks) && k < |picks| && picks[k] < |tasks|
    ensures var t := tasks[picks[k]];
      && t.status == Ready && (t.requiresApproval ==> t.approved)
      && forall u :: u in tasks && u.id in t.dependsOn ==> u.status == Succeeded
  {
    WaveIsGuarded(ts, picks, k);
    var t := tasks[picks[k]];
    assert t.Value() == AfterWave(ts)[picks[k]];
    forall u | u in tasks && u.id in t.dependsOn ensures u.status == Succeeded {
      var j: nat :| j < |tasks| && tasks[j] == u;
      assert u.Value() == AfterWave(ts)[j];
      AfterWaveTask(ts, j);
    }
  }

  lemma MarkedIsAfterWave(ts: seq<Task>, picks: seq<nat>, marked: seq<Task>)
    requires IsWave(ts, picks) && MarkedReady(Sweep(ts, |ts|), picks, marked)
    ensures marked == AfterWave(ts)
  {
  }

  lemma SameActions(tasks: seq<MissionTask>, ts: seq<Task>, n: nat)
    requires n <= |ts| && Snapshot(tasks) == Sweep(ts, n)
    ensures forall i :: 0 <= i < |ts| ==> ts[i].action == tasks[i].action && ts[i].robot == tasks[i].robot
  {
    SweepFrame(ts, n);
    forall i | 0 <= i < |ts| ensures ts[i].action == tasks[i].action && ts[i].robot == tasks[i].robot {
      assert Snapshot(tasks)[i] == tasks[i].Value();
    }
  }

  /** The second loop of `ready_wave`: at most one candidate per robot, taken in sorted order. */
  method SelectWave(tasks: seq<MissionTask>, sorted: seq<nat>, ghost ts: seq<Task>)
    returns (wave: seq<MissionTask>, ghost picks: seq<nat>)
    requires ValidPlan(tasks) && |ts| == |tasks|
    requires forall i :: 0 <= i < |ts| ==> ts[i].robot == tasks[i].robot
    requires SortedCandidates(ts, sorted) && forall a :: 0 <= a < |sorted| ==> sorted[a] < |ts|
    modifies tasks
    ensures MarkedReady(old(Snapshot(tasks)), picks, Snapshot(tasks))
    ensures IsWave(ts, picks)
    ensures |wave| == |picks| && forall k :: 0 <= k < |wave| ==> picks[k] < |tasks| && wave[k] == tasks[picks[k]]
  {
    wave, picks := [], [];
    var occupied: set<string> := {};
    for k := 0 to |sorted|
      invariant |wave| == |picks| && forall a :: 0 <= a < |wave| ==> picks[a] < |tasks| && wave[a] == tasks[picks[a]]
      invariant Selected(ts, sorted, k, picks, occupied)
      invariant MarkedReady(old(Snapshot(tasks)), picks, Snapshot(tasks))
    {
      SelectOrSkip(ts, sorted, k, picks, occupied);
      var c := sorted[k];
      if tasks[c].robot !in occupied {
        SetStatus(tasks, c, Ready);
        occupied := occupied + {tasks[c].robot};
        wave := wave + [tasks[c]];
        picks := picks + [c];
      }
    }
    SelectedAllIsWave(ts, sorted, picks, occupied);
  }

  ghost predicate SortedCandidates(ts: seq<Task>, sorted: seq<nat>) {
    InDispatchOrder(ts, sorted) && forall i: nat :: i in sorted <==> Eligible(ts, i)
  }

  /** The selection loop after `k` candidates. */
  ghost predicate Selected(ts: seq<Task>, sorted: seq<nat>, k: nat, picks: seq<nat>, occupied: set<string>)
    requires SortedCandidates(ts, sorted) && k <= |sorted|
  {
    && (forall i: nat :: i in picks <==> i in sorted[..k] && Chosen(ts, i))
    && InDispatchOrder(ts, picks)
    && (forall a :: 0 <= a < |sorted| ==> sorted[a] < |ts|)
    && (forall r :: r in occupied <==> exists a :: 0 <= a < k && ts[sorted[a]].robot == r)
  }

  lemma SelectOrSkip(ts: seq<Task>, sorted: seq<nat>, k: nat, picks: seq<nat>, occupied: set<string>)
    requires SortedCandidates(ts, sorted) && k < |sorted| && Selected(ts, sorted, k, picks, occupied)
    ensures ts[sorted[k]].robot in occupied ==> Selected(ts, sorted, k + 1, picks, occupied)
    ensures ts[sorted[k]].robot !in occupied ==>
      Selected(ts, sorted, k + 1, picks + [sorted[k]], occupied + {ts[sorted[k]].robot})
  {
    var c := sorted[k];
    assert sorted[..k + 1] == sorted[..k] + [c];
    if ts[c].robot in occupied {
      var a :| 0 <= a < k && ts[sorted[a]].robot == ts[c].robot;
      assert Precedes(ts, sorted[a], c) && sorted[a] in sorted;
      assert !Chosen(ts, c);
    } else {
      FirstOfItsRobot(ts, sorted, k);
      AppendInOrder(ts, sorted, k, picks);
    }
  }

  lemma SelectedAllIsWave(ts: seq<Task>, sorted: seq<nat>, picks: seq<nat>, occupied: set<string>)
    requires SortedCandidates(ts, sorted) && Selected(ts, sorted, |sorted|, picks, occupied)
    ensures IsWave(ts, picks)
  {
    assert sorted[..|sorted|] == sorted;
  }

  lemma FirstOfItsRobot(ts: seq<Task>, sorted: seq<nat>, k: nat)
    requires SortedCandidates(ts, sorted) && k < |sorted|
    requires forall a :: 0 <= a < k ==>
        sorted[a] < |ts| && sorted[k] < |ts| && ts[sorted[a]].robot != ts[sorted[k]].robot
    ensures Chosen(ts, sorted[k])
  {
    assert sorted[k] in sorted;
    forall j: nat | Eligible(ts, j) && j != sorted[k] && ts[j].robot == ts[sorted[k]].robot
        ensures Precedes(ts, sorted[k], j) {
      var b :| 0 <= b < |sorted| && sorted[b] == j;
      assert b > k;
    }
  }

  lemma AppendInOrder(ts: seq<Task>, sorted: seq<nat>, k: nat, picks: seq<nat>)
    requires k < |sorted| && InDispatchOrder(ts, sorted) && sorted[k] < |ts|
    requires InDispatchOrder(ts, picks) && forall i :: i in picks ==> i in sorted[..k]
    ensures InDispatchOrder(ts, picks + [sorted[k]])
  {
    forall a | 0 <= a < |picks| ensures picks[a] < |ts| && Precedes(ts, picks[a], sorted[k]) {
      assert picks[a] in picks;
      var b :| 0 <= b < k && sorted[b] == picks[a];
      assert Precedes(ts, sorted[b], sorted[k]);
    }
  }

  /** The dictionary of the tasks by ID. */
  ghost predicate Indexed(tasks: seq<MissionTask>, byId: map<Id, MissionTask>) {
    forall j :: 0 <= j < |tasks| ==> tasks[j].id in byId && byId[tasks[j].id] == tasks[j]
  }

  method IndexTasks(tasks: seq<MissionTask>) returns (byId: map<Id, MissionTask>)
    requires ValidPlan(tasks)
    ensures Indexed(tasks, byId)
  {
    byId := map i | 0 <= i < |tasks| :: tasks[i].id := tasks[i];
  }

  /** The tasks the first loop keeps, judged by the list as it stands when each is reached. */
  ghost function Candidates(ts: seq<Task>, n: nat): seq<nat>
    requires n <= |ts|
  {
    if n == 0 then [] else
      Candidates(ts, n - 1) + if Eligible(Sweep(ts, n - 1), n - 1) then [n - 1] else []
  }

  lemma {:induction false} CandidatesAreEligible(ts: seq<Task>, n: nat)
    requires n <= |ts|
    ensures Ascending(Candidates(ts, n)) && forall k :: 0 <= k < |Candidates(ts, n)| ==> Candidates(ts, n)[k] < n
    ensures forall i: nat :: i in Candidates(ts, n) <==> i < n && Eligible(ts, i)
  {
    if n > 0 {
      CandidatesAreEligible(ts, n - 1);
      EligibleDuringSweep(ts, n - 1, n - 1);
    }
  }

  /** `swept` and `candidates` are what the first loop has made of `ts` after `n` tasks. */
  ghost predicate SweptTo(ts: seq<Task>, n: nat, swept: seq<Task>, candidates: seq<nat>) {
    n <= |ts| && swept == Sweep(ts, n) && candidates == Candidates(ts, n)
  }

  lemma SweepStep(ts: seq<Task>, n: nat, swept: seq<Task>, candidates: seq<nat>, more: seq<nat>)
    requires SweptTo(ts, n, swept, candidates) && n < |ts|
    requires more == candidates + if Eligible(swept, n) then [n] else []
    ensures SweptTo(ts, n + 1, SweepOne(swept, n), more)
  {
  }

  /** The first loop of `ready_wave`: blocks tasks behind bad dependencies and collects the eligible ones. */
  method SweepTasks(tasks: seq<MissionTask>) returns (candidates: seq<nat>)
    requires ValidPlan(tasks)
    modifies tasks
    ensures SweptTo(old(Snapshot(tasks)), |tasks|, Snapshot(tasks), candidates)
  {
    ghost var ts := Snapshot(tasks);
    ghost var swept := ts;
    var byId := IndexTasks(tasks);
    candidates := [];
    for i := 0 to |tasks|
      invariant Snapshot(tasks) == swept
      invariant SweptTo(ts, i, swept, candidates)
    {
      var candidate := SweepTask(tasks, byId, i, swept);
      var more := candidates + if candidate then [i] else [];
      SweepStep(ts, i, swept, candidates, more);
      candidates, swept := more, SweepOne(swept, i);
    }
  }

  /** One iteration: block the task, skip it, or keep it as a candidate. */
  method SweepTask(tasks: seq<MissionTask>, byId: map<Id, MissionTask>, i: nat, ghost ts: seq<Task>)
    returns (candidate: bool)
    requires ValidPlan(tasks) && i < |tasks| && ts == Snapshot(tasks)
    requires Indexed(tasks, byId)
    modifies {tasks[i]}
    ensures Snapshot(tasks) == SweepOne(ts, i)
    ensures candidate <==> Eligible(ts, i)
  {
    if !IsOpen(tasks[i].status) {
      return false;
    }
    var dependencies := DependencyStatuses(tasks, byId, i);
    if exists st | st in dependencies :: IsBad(st) {
      BlockableIsNotEligible(ts, i);
      SetStatus(tasks, i, Blocked);
      return false;
    }
    if !(forall st | st in dependencies :: st == Succeeded) {
      return false;
    }
    return !tasks[i].requiresApproval || tasks[i].approved;
  }

  lemma BlockableIsNotEligible(ts: seq<Task>, i: nat)
    requires i < |ts|
    ensures Blockable(ts, i) ==> !Eligible(ts, i)
  {
  }

  /** Looking dependencies up by ID asks the same questions as scanning the list for them. */
  method DependencyStatuses(tasks: seq<MissionTask>, byId: map<Id, MissionTask>, i: nat) returns (sts: seq<TaskStatus>)
    requires ValidPlan(tasks) && i < |tasks|
    requires Indexed(tasks, byId)
    ensures SomeDependency(Snapshot(tasks), i, IsBad) <==> exists st :: st in sts && IsBad(st)
    ensures DependenciesSucceeded(Snapshot(tasks), i) <==> forall st :: st in sts ==> st == Succeeded
  {
    var deps := tasks[i].dependsOn;
    forall k | 0 <= k < |deps| ensures deps[k] in byId && byId[deps[k]] in tasks && byId[deps[k]].id == deps[k] {
      assert deps[k] in deps && HasId(tasks, deps[k]);
      var j :| 0 <= j < |tasks| && tasks[j].id == deps[k];
    }
    sts := [];
    for k := 0 to |deps|
      invariant |sts| == k && forall a :: 0 <= a < k ==> sts[a] == byId[deps[a]].status
    {
      sts := sts + [byId[deps[k]].status];
    }
    ghost var ts := Snapshot(tasks);
    forall j | 0 <= j < |ts| && ts[j].id in ts[i].dependsOn ensures ts[j].status in sts {
      var k :| 0 <= k < |deps| && deps[k] == ts[j].id;
      assert sts[k] == tasks[j].status;
    }
    forall st | st in sts ensures exists j :: 0 <= j < |ts| && ts[j].id in ts[i].dependsOn && ts[j].status == st {
      var k :| 0 <= k < |sts| && sts[k] == st;
      var j :| 0 <= j < |tasks| && tasks[j] == byId[deps[k]];
      assert ts[j].id in ts[i].dependsOn && ts[j].status == st;
    }
  }

  /** Only a ready or running task accepts a result; otherwise the call raises and changes nothing. */
  method MarkResult(task: MissionTask, succeeded: bool) returns (accepted: bool)
    modifies task`status
    ensures accepted <==> old(task.status) in {Ready, Running}
    ensures task.status == if !accepted then old(task.status) else if succeeded then Succeeded else Failed
  {
    if task.status !in {Ready, Running} {
      return false;
    }
    task.status := if succeeded then Succeeded else Failed;
    return true;
  }
}
