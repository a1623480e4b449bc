/** Mission plans as values, and what makes a plan acceptable. */
module Missions {
  import opened TaskGraph

  datatype TaskStatus = Pending | Ready | Running | Succeeded | Failed | Blocked | Cancelled

  datatype Action = Doctor | Deploy | Drive | Navigate | CancelGoal | Stop | Body

  datatype Task = Task(
    id: Id,
    robot: string,
    action: Action,
    dependsOn: seq<Id>,
    requiresApproval: bool,
    approved: bool,
    status: TaskStatus)

  ghost predicate UniqueIds(ts: seq<Task>) {
    forall i, j :: 0 <= i < j < |ts| ==> ts[i].id != ts[j].id
  }

  function Ids(ts: seq<Task>): set<Id> {
    set i | 0 <= i < |ts| :: ts[i].id
  }

  /** The dictionary from task ID to `depends_on`; a later task overwrites an earlier one of the same ID. */
  function Dependencies(ts: seq<Task>): Graph {
    if ts == [] then map[] else
      var last := ts[|ts| - 1];
      Dependencies(ts[..|ts| - 1])[last.id := last.dependsOn]
  }

  lemma IdsExtend(ts: seq<Task>)
    requires ts != []
    ensures Ids(ts) == Ids(ts[..|ts| - 1]) + {ts[|ts| - 1].id}
  {
    var init := ts[..|ts| - 1];
    forall x | x in Ids(ts) ensures x in Ids(init) + {ts[|ts| - 1].id} {
      var i :| 0 <= i < |ts| && ts[i].id == x;
      if i < |init| {
        assert init[i].id == x;
      }
    }
    forall x | x in Ids(init) ensures x in Ids(ts) {
      var i :| 0 <= i < |init| && init[i].id == x;
      assert ts[i].id == x;
    }
  }

  lemma {:induction false} DependenciesOf(ts: seq<Task>)
    requires UniqueIds(ts)
    ensures Dependencies(ts).Keys == Ids(ts)
    ensures forall i :: 0 <= i < |ts| ==> ts[i].id in Dependencies(ts) && Dependencies(ts)[ts[i].id] == ts[i].dependsOn
  {
    if ts != [] {
      var init := ts[..|ts| - 1];
      DependenciesOf(init);
      IdsExtend(ts);
      forall i | 0 <= i < |ts| ensures ts[i].id in Dependencies(ts) && Dependencies(ts)[ts[i].id] == ts[i].dependsOn {
        if i < |init| {
          assert init[i] == ts[i];
        }
      }
    }
  }

  /** The law of the validator: unique IDs, known dependencies, no cycles. */
  ghost predicate PlanAccepted(ts: seq<Task>) {
    UniqueIds(ts) && Closed(Dependencies(ts)) && Acyclic(Dependencies(ts))
  }

  function Missing(ts: seq<Task>, i: nat): set<Id>
    requires i < |ts|
  {
    (set d | d in ts[i].dependsOn) - Ids(ts)
  }

  ghost predicate CleanTask(ts: seq<Task>, i: nat)
    requires i < |ts|
  {
    Missing(ts, i) == {} && ts[i].id !in ts[i].dependsOn
  }

  ghost predicate FirstFault(ts: seq<Task>, i: nat) {
    i < |ts| && !CleanTask(ts, i) && forall j :: 0 <= j < i ==> CleanTask(ts, j)
  }

  lemma CleanTasksAreClosed(ts: seq<Task>)
    requires UniqueIds(ts)
    ensures Closed(Dependencies(ts)) <==> forall i :: 0 <= i < |ts| ==> Missing(ts, i) == {}
  {
    DependenciesOf(ts);
    var g := Dependencies(ts);
    if Closed(g) {
      forall i | 0 <= i < |ts| ensures Missing(ts, i) == {} {
        forall d | d in ts[i].dependsOn ensures d in Ids(ts) {
          assert ts[i].id in g && d in g[ts[i].id];
        }
      }
    }
    if forall i :: 0 <= i < |ts| ==> Missing(ts, i) == {} {
      forall u, v | u in g && v in g[u] ensures v in g {
        var i :| 0 <= i < |ts| && ts[i].id == u;
        assert v in (set d | d in ts[i].dependsOn) && v !in Missing(ts, i);
      }
    }
  }

  lemma SelfDependencyIsCycle(ts: seq<Task>, i: nat)
    requires UniqueIds(ts) && i < |ts| && ts[i].id in ts[i].dependsOn
    ensures !Acyclic(Dependencies(ts))
  {
    DependenciesOf(ts);
    DirectDependency(Dependencies(ts), ts[i].id, ts[i].id);
  }

  /** Comparing a list's length with its set's size, as the validator does, is exactly the distinctness test. */
  lemma {:induction false} IdCount(ts: seq<Task>)
    ensures |Ids(ts)| <= |ts|
    ensures |Ids(ts)| == |ts| <==> UniqueIds(ts)
  {
    if ts != [] {
      var n := |ts| - 1;
      var init := ts[..n];
      IdCount(init);
      IdsExtend(ts);
      if ts[n].id in Ids(init) {
        var i :| 0 <= i < n && init[i].id == ts[n].id;
        assert ts[i].id == ts[n].id;
        assert Ids(ts) == Ids(init);
      } else {
        assert forall i :: 0 <= i < n ==> init[i].id in Ids(init);
        assert UniqueIds(init) ==> UniqueIds(ts) by {
          assert forall i :: 0 <= i < n ==> init[i] == ts[i];
        }
        assert UniqueIds(ts) ==> UniqueIds(init);
      }
    }
  }

  /** Every task is listed, behind all that it depends on. */
  ghost predicate Schedules(ts: seq<Task>, order: seq<Id>) {
    && (forall i :: 0 <= i < |ts| ==> ts[i].id in order)
    && (forall k, i :: 0 <= k < |order| && 0 <= i < |ts| && ts[i].id == order[k] ==>
          forall d :: d in ts[i].dependsOn ==> d in order[..k])
    && (forall k :: 0 <= k < |order| ==> order[k] in Ids(ts))
  }

  lemma SchedulesIsOrder(ts: seq<Task>, order: seq<Id>)
    requires UniqueIds(ts)
    ensures var g := Dependencies(ts);
      Schedules(ts, order) <==> DependencyOrder(g, order) && forall u :: u in g ==> u in order
  {
    DependenciesOf(ts);
    var g := Dependencies(ts);
    if Schedules(ts, order) {
      forall k | 0 <= k < |order| ensures order[k] in g && forall d :: d in g[order[k]] ==> d in order[..k] {
        assert order[k] in Ids(ts);
        var i :| 0 <= i < |ts| && ts[i].id == order[k];
      }
    }
    if DependencyOrder(g, order) && forall u :: u in g ==> u in order {
      forall k, i | 0 <= k < |order| && 0 <= i < |ts| && ts[i].id == order[k]
        ensures forall d :: d in ts[i].dependsOn ==> d in order[..k]
      {
        assert g[order[k]] == ts[i].dependsOn;
      }
    }
  }

  lemma OrderCloses(g: Graph, order: seq<Id>)
    requires DependencyOrder(g, order) && forall u :: u in g ==> u in order
    ensures Closed(g)
  {
    forall u, v | u in g && v in g[u] ensures v in g {
      var k :| 0 <= k < |order| && order[k] == u;
      assert v in order[..k];
      var j :| 0 <= j < k && order[j] == v;
    }
  }

  /** A plan is acceptable exactly when no two tasks share an ID and all can be done in some order. */
  lemma AcceptedExactlySchedulable(ts: seq<Task>)
    ensures PlanAccepted(ts) <==>
      && (forall i, j :: 0 <= i < j < |ts| ==> ts[i].id != ts[j].id)
      && exists order :: Schedules(ts, order)
  {
    var g := Dependencies(ts);
    if PlanAccepted(ts) {
      var order := AcyclicHasOrder(g, g.Keys, []);
      SchedulesIsOrder(ts, order);
    }
    if UniqueIds(ts) {
      if order :| Schedules(ts, order) {
        SchedulesIsOrder(ts, order);
        OrderCloses(g, order);
        DependencyOrderIsAcyclic(g, order);
      }
    }
  }
}
