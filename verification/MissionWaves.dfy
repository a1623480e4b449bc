/** What one `ready_wave` call does to a plan's tasks, as functions of the task list. */
module MissionWaves {
  import opened TaskGraph
  import opened Missions

  predicate IsBad(st: TaskStatus) {
    st == Failed || st == Blocked || st == Cancelled
  }

  predicate IsOpen(st: TaskStatus) {
    st == Pending || st == Ready
  }

  /** Index of the task with this ID; the length of the list when there is none. */
  function IndexOf(ts: seq<Task>, id: Id): (i: nat)
    ensures i <= |ts|
    ensures i < |ts| ==> ts[i].id == id
    ensures i == |ts| ==> id !in Ids(ts)
  {
    if ts == [] then 0
    else if ts[|ts| - 1].id == id then |ts| - 1
    else
      IdsExtend(ts);
      var i := IndexOf(ts[..|ts| - 1], id);
      if i == |ts| - 1 then |ts| else i
  }

  /** Some task that `ts[i]` depends on has a status satisfying `p`. */
  ghost predicate SomeDependency(ts: seq<Task>, i: nat, p: TaskStatus -> bool)
    requires i < |ts|
  {
    exists j :: 0 <= j < |ts| && ts[j].id in ts[i].dependsOn && p(ts[j].status)
  }

  ghost predicate DependenciesSucceeded(ts: seq<Task>, i: nat)
    requires i < |ts|
  {
    forall j :: 0 <= j < |ts| && ts[j].id in ts[i].dependsOn ==> ts[j].status == Succeeded
  }

  ghost predicate Blockable(ts: seq<Task>, i: nat)
    requires i < |ts|
  {
    IsOpen(ts[i].status) && SomeDependency(ts, i, IsBad)
  }

  ghost predicate Eligible(ts: seq<Task>, i: nat) {
    && i < |ts|
    && IsOpen(ts[i].status)
    && DependenciesSucceeded(ts, i)
    && (ts[i].requiresApproval ==> ts[i].approved)
  }

  /** The list after `ts[i]` has been looked at. */
  ghost function SweepOne(ts: seq<Task>, i: nat): (r: seq<Task>)
    requires i < |ts|
    ensures |r| == |ts|
  {
    if Blockable(ts, i) then ts[i := ts[i].(status := Blocked)] else ts
  }

  /** The list after the first `n` tasks have been looked at in list order. */
  ghost function Sweep(ts: seq<Task>, n: nat): (r: seq<Task>)
    requires n <= |ts|
    ensures |r| == |ts|
  {
    if n == 0 then ts else SweepOne(Sweep(ts, n - 1), n - 1)
  }

  /** All that a sweep may do: block open tasks among the first `n`. */
  lemma {:induction false} SweepFrame(ts: seq<Task>, n: nat)
    requires n <= |ts|
    ensures forall i :: 0 <= i < |ts| ==>
      Sweep(ts, n)[i] == ts[i] || (i < n && IsOpen(ts[i].status) && Sweep(ts, n)[i] == ts[i].(status := Blocked))
  {
    if n > 0 {
      SweepFrame(ts, n - 1);
    }
  }

  /** Eligibility is not disturbed by the blocking that happens in the same pass. */
  lemma EligibleDuringSweep(ts: seq<Task>, n: nat, i: nat)
    requires n <= i < |ts|
    ensures Eligible(Sweep(ts, n), i) <==> Eligible(ts, i)
  {
    SweepFrame(ts, n);
    var s := Sweep(ts, n);
    assert s[i] == ts[i];
    if Eligible(s, i) {
      forall j | 0 <= j < |ts| && ts[j].id in ts[i].dependsOn ensures ts[j].status == Succeeded {
        assert s[j].id == ts[j].id;
      }
    }
  }

  // ---- choosing the wave

  /** Emergency stops sort before everything else; the sort is stable. */
  predicate Precedes(ts: seq<Task>, i: nat, j: nat)
    requires i < |ts| && j < |ts|
  {
    if ts[i].action == Stop && ts[j].action != Stop then true
    else if ts[i].action != Stop && ts[j].action == Stop then false
    else i < j
  }

  /** `i` is dispatched by this wave: no other eligible task of its robot sorts before it. */
  ghost predicate Chosen(ts: seq<Task>, i: nat) {
    && Eligible(ts, i)
    && forall j: nat :: Eligible(ts, j) && j != i && ts[j].robot == ts[i].robot ==> Precedes(ts, i, j)
  }

  /** Dispatch order: stops first, then list order. */
  ghost predicate InDispatchOrder(ts: seq<Task>, w: seq<nat>) {
    && (forall a :: 0 <= a < |w| ==> w[a] < |ts|)
    && (forall a, b :: 0 <= a < b < |w| ==> Precedes(ts, w[a], w[b]))
  }

  ghost predicate IsWave(ts: seq<Task>, wave: seq<nat>) {
    (forall i: nat :: i in wave <==> Chosen(ts, i)) && InDispatchOrder(ts, wave)
  }

  /** The task list after a whole `ready_wave` call. */
  ghost function AfterWave(ts: seq<Task>): (r: seq<Task>)
    ensures |r| == |ts|
  {
    var s := Sweep(ts, |ts|);
    seq(|ts|, i requires 0 <= i < |ts| => if Chosen(ts, i) then s[i].(status := Ready) else s[i])
  }

  /** A wave is determined by the task list. */
  lemma {:induction false} WaveUnique(ts: seq<Task>, v: seq<nat>, w: seq<nat>)
    requires IsWave(ts, v) && IsWave(ts, w)
    ensures v == w
  {
    SortedByPrecedes(ts, v, w);
  }

  lemma HeadIn(w: seq<nat>)
    ensures w != [] ==> w[0] in w
  {
  }

  lemma {:induction false} SortedByPrecedes(ts: seq<Task>, v: seq<nat>, w: seq<nat>)
    requires forall i: nat :: i in v <==> i in w
    requires InDispatchOrder(ts, v) && InDispatchOrder(ts, w)
    ensures v == w
  {
    HeadIn(v);
    HeadIn(w);
    if v != [] && w != [] {
      var k :| 0 <= k < |w| && w[k] == v[0];
      var l :| 0 <= l < |v| && v[l] == w[0];
      assert v[0] == w[0];
      forall i: nat ensures i in v[1..] <==> i in w[1..] {
        if i in v[1..] {
          var a :| 1 <= a < |v| && v[a] == i;
          assert Precedes(ts, v[0], v[a]);
          assert i in w;
        }
        if i in w[1..] {
          var a :| 1 <= a < |w| && w[a] == i;
          assert Precedes(ts, w[0], w[a]);
          assert i in v;
        }
      }
      SortedByPrecedes(ts, v[1..], w[1..]);
    }
  }

  /** At most one task per robot. */
  lemma WaveSerializesRobots(ts: seq<Task>, i: nat, j: nat)
    requires Chosen(ts, i) && Chosen(ts, j) && ts[i].robot == ts[j].robot
    ensures i == j
  {
  }

  /** No robot with an eligible task is left out, and a robot with an eligible stop gets a stop. */
  lemma WaveServesRobot(ts: seq<Task>, i: nat)
    requires Eligible(ts, i)
    ensures exists c: nat ::
        Chosen(ts, c) && ts[c].robot == ts[i].robot && (ts[i].action == Stop ==> ts[c].action == Stop)
  {
    var c := BestOf(ts, i, |ts|);
    assert Chosen(ts, c);
  }

  lemma {:induction false} BestOf(ts: seq<Task>, i: nat, n: nat) returns (c: nat)
    requires Eligible(ts, i) && n <= |ts|
    ensures Eligible(ts, c) && ts[c].robot == ts[i].robot && (c == i || Precedes(ts, c, i))
    ensures forall j: nat :: j < n && Eligible(ts, j) && j != c && ts[j].robot == ts[i].robot ==> Precedes(ts, c, j)
  {
    if n == 0 {
      c := i;
    } else {
      c := BestOf(ts, i, n - 1);
      if Eligible(ts, n - 1) && n - 1 != c && ts[n - 1].robot == ts[i].robot && !Precedes(ts, c, n - 1) {
        c := n - 1;
      }
    }
  }

  /** What a call changes, task by task. */
  lemma AfterWaveTask(ts: seq<Task>, i: nat)
    requires i < |ts|
    ensures AfterWave(ts)[i] == ts[i].(status := AfterWave(ts)[i].status)
    ensures AfterWave(ts)[i].status == ts[i].status
      || (IsOpen(ts[i].status) && AfterWave(ts)[i].status == Blocked && !Eligible(ts, i))
      || (Chosen(ts, i) && AfterWave(ts)[i].status == Ready)
    ensures Chosen(ts, i) ==> AfterWave(ts)[i].status == Ready
  {
    SweepFrame(ts, |ts|);
    if Eligible(ts, i) {
      EligibleNotSwept(ts, i, |ts|);
    }
  }

  lemma {:induction false} EligibleNotSwept(ts: seq<Task>, i: nat, n: nat)
    requires Eligible(ts, i) && n <= |ts|
    ensures Sweep(ts, n)[i] == ts[i]
  {
    if n > 0 {
      EligibleNotSwept(ts, i, n - 1);
      SweepFrame(ts, n - 1);
      var s := Sweep(ts, n - 1);
      assert forall j :: 0 <= j < |s| && s[j].id in s[i].dependsOn ==> ts[j].status == Succeeded;
    }
  }

  /** Calling again at once gives the same wave: a call changes no task's eligibility. */
  lemma EligibleAfterWave(ts: seq<Task>, i: nat)
    ensures Eligible(AfterWave(ts), i) <==> Eligible(ts, i)
  {
    forall j: nat | j < |ts| ensures AfterWave(ts)[j].id == ts[j].id && AfterWave(ts)[j].dependsOn == ts[j].dependsOn
      && (AfterWave(ts)[j].status == Succeeded <==> ts[j].status == Succeeded)
    {
      AfterWaveTask(ts, j);
    }
    if i < |ts| {
      AfterWaveTask(ts, i);
      assert DependenciesSucceeded(AfterWave(ts), i) <==> DependenciesSucceeded(ts, i) by {
        if DependenciesSucceeded(AfterWave(ts), i) {
          forall j | 0 <= j < |ts| && ts[j].id in ts[i].dependsOn ensures ts[j].status == Succeeded {
            assert AfterWave(ts)[j].id in AfterWave(ts)[i].dependsOn;
          }
        }
      }
    }
  }

  lemma PrecedesAfterWave(ts: seq<Task>, i: nat, j: nat)
    requires i < |ts| && j < |ts|
    ensures Precedes(AfterWave(ts), i, j) <==> Precedes(ts, i, j)
  {
    AfterWaveTask(ts, i);
    AfterWaveTask(ts, j);
  }

  /** Nor does it change which tasks are chosen. */
  lemma ChosenAfterWave(ts: seq<Task>, i: nat)
    ensures Chosen(AfterWave(ts), i) <==> Chosen(ts, i)
  {
    EligibleAfterWave(ts, i);
    if Eligible(ts, i) {
      AfterWaveTask(ts, i);
      forall j: nat | j < |ts|
        ensures Eligible(AfterWave(ts), j) <==> Eligible(ts, j)
        ensures AfterWave(ts)[j].robot == ts[j].robot
        ensures Precedes(AfterWave(ts), i, j) <==> Precedes(ts, i, j)
      {
        EligibleAfterWave(ts, j);
        AfterWaveTask(ts, j);
        PrecedesAfterWave(ts, i, j);
      }
    }
  }

  /** Dispatch order depends on the tasks only through what precedes what. */
  lemma SameOrder(r: seq<Task>, ts: seq<Task>, w: seq<nat>)
    requires |r| == |ts| && InDispatchOrder(r, w)
    requires forall i: nat, j: nat :: i < |ts| && j < |ts| && Precedes(r, i, j) ==> Precedes(ts, i, j)
    ensures InDispatchOrder(ts, w)
  {
    forall a, b | 0 <= a < b < |w| ensures Precedes(ts, w[a], w[b]) {
      assert Precedes(r, w[a], w[b]);
    }
  }

  lemma WaveIsStable(ts: seq<Task>, v: seq<nat>, w: seq<nat>)
    requires IsWave(ts, v) && IsWave(AfterWave(ts), w)
    ensures v == w
  {
    forall i: nat ensures i in w <==> Chosen(ts, i) {
      ChosenAfterWave(ts, i);
    }
    forall i: nat, j: nat | i < |ts| && j < |ts| && Precedes(AfterWave(ts), i, j) ensures Precedes(ts, i, j) {
      PrecedesAfterWave(ts, i, j);
    }
    SameOrder(AfterWave(ts), ts, w);
    WaveUnique(ts, v, w);
  }

  // ---- a wave read off the tasks alone

  /** Whatever goes out was waiting, with every dependency succeeded, and with its approval not needed or given. */
  lemma WaveIsGuarded(ts: seq<Task>, wave: seq<nat>, k: nat)
    requires IsWave(ts, wave) && k < |wave|
    ensures wave[k] < |ts| && ts[wave[k]].status in {Pending, Ready}
    ensures forall j :: 0 <= j < |ts| && ts[j].id in ts[wave[k]].dependsOn ==> ts[j].status == Succeeded
    ensures ts[wave[k]].requiresApproval ==> ts[wave[k]].approved
    ensures AfterWave(ts)[wave[k]] == ts[wave[k]].(status := Ready)
  {
    assert wave[k] in wave;
    AfterWaveTask(ts, wave[k]);
  }

  /** Stops go out first and list order decides otherwise; no two tasks of a wave share a robot. */
  lemma WaveIsOrdered(ts: seq<Task>, wave: seq<nat>, a: nat, b: nat)
    requires IsWave(ts, wave) && a < b < |wave| && wave[a] < |ts| && wave[b] < |ts|
    ensures ts[wave[b]].action == Stop ==> ts[wave[a]].action == Stop
    ensures (ts[wave[a]].action == Stop <==> ts[wave[b]].action == Stop) ==> wave[a] < wave[b]
    ensures ts[wave[a]].robot != ts[wave[b]].robot
  {
    assert wave[a] in wave && wave[b] in wave;
    assert Precedes(ts, wave[a], wave[b]);
    assert wave[a] != wave[b];
  }

  /** A task that could go out is passed over only for its robot's first such stop, or first such task without one. */
  lemma WaveTakesFirst(ts: seq<Task>, wave: seq<nat>, i: nat)
    requires IsWave(ts, wave) && i < |ts| && ts[i].status in {Pending, Ready}
    requires forall j :: 0 <= j < |ts| && ts[j].id in ts[i].dependsOn ==> ts[j].status == Succeeded
    requires ts[i].requiresApproval ==> ts[i].approved
    ensures exists c: nat ::
        && c in wave && c < |ts| && ts[c].robot == ts[i].robot
        && (c == i || (ts[c].action == Stop && (ts[i].action != Stop || c < i)) || (ts[i].action != Stop && c < i))
  {
    assert Eligible(ts, i);
    var c := BestOf(ts, i, |ts|);
    assert Chosen(ts, c) && c in wave;
  }
}
