/** Dependency graphs of mission plans: walks, acyclicity, and the two facts the scheduler leans on. */
module TaskGraph {

  type Id = string

  /** Each task's `depends_on` list, keyed by task ID. */
  type Graph = map<Id, seq<Id>>

  ghost predicate Closed(g: Graph) {
    forall u, v :: u in g && v in g[u] ==> v in g
  }

  /** Every vertex of `p` is a task, and each one depends directly on the next. */
  ghost predicate Walk(g: Graph, p: seq<Id>) {
    && (forall i :: 0 <= i < |p| ==> p[i] in g)
    && (forall i :: 0 <= i < |p| - 1 ==> p[i + 1] in g[p[i]])
  }

  ghost predicate WalkBetween(g: Graph, p: seq<Id>, u: Id, v: Id) {
    Walk(g, p) && |p| >= 2 && p[0] == u && p[|p| - 1] == v
  }

  /** `u` depends on `v` through one or more edges. */
  ghost predicate DependsOn(g: Graph, u: Id, v: Id) {
    exists p :: WalkBetween(g, p, u, v)
  }

  ghost predicate Acyclic(g: Graph) {
    forall u :: u in g ==> !DependsOn(g, u, u)
  }

  /** Every task in `order` has all its dependencies earlier in `order`. */
  ghost predicate DependencyOrder(g: Graph, order: seq<Id>) {
    forall i :: 0 <= i < |order| ==>
      order[i] in g && forall d :: d in g[order[i]] ==> d in order[..i]
  }

  lemma DirectDependency(g: Graph, u: Id, v: Id)
    requires u in g && v in g && v in g[u]
    ensures DependsOn(g, u, v)
  {
    assert WalkBetween(g, [u, v], u, v);
  }

  lemma DependsOnTransitive(g: Graph, u: Id, v: Id, w: Id)
    requires DependsOn(g, u, v) && DependsOn(g, v, w)
    ensures DependsOn(g, u, w)
  {
    var p :| WalkBetween(g, p, u, v);
    var q :| WalkBetween(g, q, v, w);
    var r := p + q[1..];
    forall i | 0 <= i < |r| - 1 ensures r[i + 1] in g[r[i]] {
      if i >= |p| - 1 {
        assert r[i] == q[i - |p| + 1] && r[i + 1] == q[i - |p| + 2];
      }
    }
    assert WalkBetween(g, r, u, w);
  }

  /** A walk that returns to a vertex it already visited contains a cycle. */
  lemma ClosingEdge(g: Graph, p: seq<Id>, d: Id)
    requires Walk(g, p) && |p| > 0 && d in g && d in g[p[|p| - 1]] && d in p
    ensures DependsOn(g, d, d)
  {
    var k :| 0 <= k < |p| && p[k] == d;
    var c := p[k..] + [d];
    forall i | 0 <= i < |c| - 1 ensures c[i + 1] in g[c[i]] {
      if i < |c| - 2 {
        assert c[i] == p[k + i] && c[i + 1] == p[k + i + 1];
      }
    }
    assert WalkBetween(g, c, d, d);
  }

  /** From a task at position `i` of a dependency order, a walk never gets back to `i` or beyond. */
  lemma WalkDescends(g: Graph, order: seq<Id>, p: seq<Id>, i: nat, k: nat)
    requires DependencyOrder(g, order) && i < |order|
    requires Walk(g, p) && 1 <= k < |p| && p[0] == order[i]
    ensures p[k] in order[..i]
  {
    if k > 1 {
      WalkDescends(g, order, p, i, k - 1);
      var j :| 0 <= j < i && order[j] == p[k - 1];
      assert p[k] in g[p[k - 1]];
      assert p[k] in order[..j];
    } else {
      assert p[1] in g[p[0]];
    }
  }

  lemma FirstOccurrence(order: seq<Id>, u: Id) returns (i: nat)
    requires u in order
    ensures i < |order| && order[i] == u && u !in order[..i]
  {
    i := 0;
    while order[i] != u
      invariant i < |order| && u !in order[..i]
      decreases |order| - i
    {
      i := i + 1;
    }
  }

  /** A plan whose tasks can all be listed dependencies-first has no cycle. */
  lemma DependencyOrderIsAcyclic(g: Graph, order: seq<Id>)
    requires DependencyOrder(g, order)
    requires forall u :: u in g ==> u in order
    ensures Acyclic(g)
  {
    forall u | u in g ensures !DependsOn(g, u, u) {
      if DependsOn(g, u, u) {
        var p :| WalkBetween(g, p, u, u);
        var i := FirstOccurrence(order, u);
        WalkDescends(g, order, p, i, |p| - 1);
        assert false;
      }
    }
  }

  lemma DistinctSeqFits(p: seq<Id>, s: set<Id>)
    requires forall i :: 0 <= i < |p| ==> p[i] in s
    requires forall i, j :: 0 <= i < j < |p| ==> p[i] != p[j]
    ensures |p| <= |s|
  {
    if |p| > 0 {
      DistinctSeqFits(p[..|p| - 1], s - {p[|p| - 1]});
    }
  }

  /** Well-founded descent: in an acyclic plan, any nonempty set of tasks has one that depends on none of the others. */
  lemma LeastTask(g: Graph, s: set<Id>) returns (u: Id)
    requires Acyclic(g) && Closed(g) && s <= g.Keys && s != {}
    ensures u in s && forall d :: d in g[u] ==> d !in s
  {
    var v :| v in s;
    u := LeastTaskFrom(g, s, [v]);
  }

  lemma LeastTaskFrom(g: Graph, s: set<Id>, p: seq<Id>) returns (u: Id)
    requires Acyclic(g) && Closed(g) && s <= g.Keys
    requires |p| > 0 && Walk(g, p) && forall i :: 0 <= i < |p| ==> p[i] in s
    requires forall i, j :: 0 <= i < j < |p| ==> p[i] != p[j]
    ensures u in s && forall d :: d in g[u] ==> d !in s
    decreases |s| - |p|
  {
    u := p[|p| - 1];
    if d :| d in g[u] && d in s {
      if d in p {
        ClosingEdge(g, p, d);
        assert false;
      }
      DistinctSeqFits(p + [d], s);
      u := LeastTaskFrom(g, s, p + [d]);
    }
  }

  /** Conversely, a plan without cycles can be listed that way: repeatedly take a task that waits for none left. */
  lemma {:induction false} AcyclicHasOrder(g: Graph, left: set<Id>, before: seq<Id>) returns (order: seq<Id>)
    requires Acyclic(g) && Closed(g) && left <= g.Keys && DependencyOrder(g, before)
    requires forall u :: u in g ==> u in left || u in before
    ensures DependencyOrder(g, order) && forall u :: u in g ==> u in order
    decreases |left|
  {
    order := before;
    if left != {} {
      var u := LeastTask(g, left);
      ExtendOrder(g, before, u);
      order := AcyclicHasOrder(g, left - {u}, before + [u]);
    }
  }

  lemma ExtendOrder(g: Graph, before: seq<Id>, u: Id)
    requires DependencyOrder(g, before) && u in g && forall d :: d in g[u] ==> d in before
    ensures DependencyOrder(g, before + [u])
  {
    var order := before + [u];
    forall i | 0 <= i < |order| ensures order[i] in g && forall d :: d in g[order[i]] ==> d in order[..i] {
      assert order[..i] == before[..i];
    }
  }
}
