/** The plan validator: a depth-first search with visiting/visited sets. */
module MissionPlan {
  import opened TaskGraph
  import opened Missions

  class MissionTask {
    const id: Id
    const robot: string
    const action: Action
    const dependsOn: seq<Id>
    const requiresApproval: bool
    var approved: bool
    var status: TaskStatus

    constructor (id: Id, robot: string, action: Action, dependsOn: seq<Id>, requiresApproval: bool := true)
      ensures Value() == Task(id, robot, action, dependsOn, requiresApproval, false, Pending)
    {
      this.id, this.robot, this.action := id, robot, action;
      this.dependsOn, this.requiresApproval := dependsOn, requiresApproval;
      approved, status := false, Pending;
    }

    function Value(): Task
      reads this
    {
      Task(id, robot, action, dependsOn, requiresApproval, approved, status)
    }
  }

  function Snapshot(tasks: seq<MissionTask>): (ts: seq<Task>)
    reads tasks
    ensures |ts| == |tasks|
    ensures forall i :: 0 <= i < |tasks| ==> ts[i] == tasks[i].Value()
  {
    seq(|tasks|, i requires 0 <= i < |tasks| reads tasks => tasks[i].Value())
  }

  datatype Verdict =
    | Accepted
    | DuplicateIds
    | UnknownDependencies(task: Id, missing: set<Id>)
    | SelfDependency(task: Id)
    | CyclicDependencies

  class GraphVisitor {
    var visiting: set<Id>
    var visited: set<Id>
    ghost var finished: seq<Id>  // visited tasks in the order their visits ended

    constructor ()
      ensures visiting == {} && visited == {} && finished == []
    {
      visiting, visited, finished := {}, {}, [];
    }

    ghost predicate Valid(g: Graph)
      reads this
    {
      && visiting <= g.Keys
      && DependencyOrder(g, finished)
      && (forall u :: u in visited <==> u in finished)
    }

    /** `stack` is the chain of visits in progress; the call fails exactly by finding a cycle through it. */
    method Visit(g: Graph, id: Id, ghost stack: seq<Id>) returns (ok: bool)
      requires Closed(g) && Valid(g) && id in g
      requires forall u :: u in visiting <==> u in stack
      requires Walk(g, stack) && (|stack| > 0 ==> id in g[stack[|stack| - 1]])
      modifies this
      ensures ok ==> Valid(g) && visiting == old(visiting) && old(visited) <= visited && id in visited
      ensures !ok ==> !Acyclic(g)
      decreases g.Keys - visiting
    {
      if id in visiting {
        ClosingEdge(g, stack, id);
        return false;
      }
      if id in visited {
        return true;
      }
      visiting := visiting + {id};
      ghost var inner := stack + [id];
      assert Walk(g, inner) by {
        forall i | 0 <= i < |inner| - 1 ensures inner[i + 1] in g[inner[i]] {
          if i < |stack| - 1 {
            assert inner[i] == stack[i] && inner[i + 1] == stack[i + 1];
          }
        }
      }
      for i := 0 to |g[id]|
        invariant Valid(g) && visiting == old(visiting) + {id} && old(visited) <= visited
        invariant forall j :: 0 <= j < i ==> g[id][j] in visited
      {
        var descended := Visit(g, g[id][i], inner);
        if !descended {
          return false;
        }
      }
      visiting := visiting - {id};
      visited := visited + {id};
      finished := finished + [id];
      assert visiting == old(visiting);
      assert DependencyOrder(g, finished) by {
        forall i | 0 <= i < |finished|
            ensures finished[i] in g && forall d :: d in g[finished[i]] ==> d in finished[..i] {
          assert finished[..i] ==
              (if i == |finished| - 1 then finished[..|finished| - 1] else finished[..|finished| - 1][..i]);
        }
      }
      return true;
    }
  }

  /** Visits every task in list order; succeeds exactly when no cycle exists. */
  method VisitAll(ts: seq<Task>) returns (ok: bool)
    requires UniqueIds(ts) && Closed(Dependencies(ts))
    ensures ok <==> Acyclic(Dependencies(ts))
  {
    var g := Dependencies(ts);
    DependenciesOf(ts);
    var visitor := new GraphVisitor();
    for i := 0 to |ts|
      invariant fresh(visitor) && visitor.Valid(g) && visitor.visiting == {}
      invariant forall j :: 0 <= j < i ==> ts[j].id in visitor.visited
    {
      var visited := visitor.Visit(g, ts[i].id, []);
      if !visited {
        return false;
      }
    }
    forall u | u in g ensures u in visitor.finished {
      var i :| 0 <= i < |ts| && ts[i].id == u;
    }
    DependencyOrderIsAcyclic(g, visitor.finished);
    return true;
  }

  /** What each verdict says about the plan; the cases exclude one another and cover every plan. */
  ghost predicate IsVerdict(ts: seq<Task>, v: Verdict) {
    && (v.Accepted? <==> PlanAccepted(ts))
    && (v.DuplicateIds? <==> !UniqueIds(ts))
    && match v
       case UnknownDependencies(task, missing) =>
         UniqueIds(ts) && exists i: nat :: FirstFault(ts, i) && task == ts[i].id && missing == Missing(ts, i) != {}
       case SelfDependency(task) =>
         UniqueIds(ts) && exists i: nat :: FirstFault(ts, i) && task == ts[i].id && Missing(ts, i) == {}
       case CyclicDependencies =>
         UniqueIds(ts) && (forall i: nat :: i < |ts| ==> CleanTask(ts, i)) && !Acyclic(Dependencies(ts))
       case _ => true
  }

  /**
   * Rejects the plan at its first fault, in the order the checks are written; accepts exactly the acyclic closed plans.
   */
  method CheckGraph(ts: seq<Task>) returns (v: Verdict)
    ensures IsVerdict(ts, v)
  {
    var known := Ids(ts);
    IdCount(ts);
    if |ts| != |known| {
      return DuplicateIds;
    }
    CleanTasksAreClosed(ts);
    for i := 0 to |ts|
      invariant forall j :: 0 <= j < i ==> CleanTask(ts, j)
    {
      var missing := (set d | d in ts[i].dependsOn) - known;
      if missing != {} {
        assert missing == Missing(ts, i) && FirstFault(ts, i);
        return UnknownDependencies(ts[i].id, missing);
      }
      if ts[i].id in ts[i].dependsOn {
        SelfDependencyIsCycle(ts, i);
        assert FirstFault(ts, i);
        return SelfDependency(ts[i].id);
      }
    }
    forall i | 0 <= i < |ts| ensures Missing(ts, i) == {} {
      assert CleanTask(ts, i);
    }
    var ok := VisitAll(ts);
    return if ok then Accepted else CyclicDependencies;
  }

  /** The same verdict for task objects, which stay untouched. */
  method ValidateGraph(tasks: seq<MissionTask>) returns (v: Verdict)
    ensures IsVerdict(Snapshot(tasks), v)
  {
    v := CheckGraph(Snapshot(tasks));
  }
}
