/**
 Dependency graphs: paths along `depends_on` edges, cycles, and topological order.
 */
module Graph {
  import opened Text

  datatype Node = Node(id: Str, dependsOn: seq<Str>)

  predicate UniqueIds(g: seq<Node>) {
    forall i, j :: 0 <= i < j < |g| ==> g[i].id != g[j].id
  }

  function Ids(g: seq<Node>): set<Str> {
    set i | 0 <= i < |g| :: g[i].id
  }

  /** Every edge points at a node of the graph. */
  predicate Resolved(g: seq<Node>) {
    forall i, d :: 0 <= i < |g| && d in g[i].dependsOn ==> d in Ids(g)
  }

  predicate WellFormed(g: seq<Node>) {
    UniqueIds(g) && Resolved(g)
  }

  ghost predicate Edge(g: seq<Node>, u: Str, v: Str) {
    exists i :: 0 <= i < |g| && g[i].id == u && v in g[i].dependsOn
  }

  /** A walk of at least one node along dependency edges. */
  ghost predicate Walk(g: seq<Node>, p: seq<Str>) {
    |p| > 0 && forall i :: 0 <= i < |p| - 1 ==> Edge(g, p[i], p[i + 1])
  }

  ghost predicate Reaches(g: seq<Node>, u: Str, v: Str) {
    exists p :: Walk(g, p) && p[0] == u && p[|p| - 1] == v
  }

  ghost predicate OnCycle(g: seq<Node>, u: Str) {
    exists p :: Walk(g, p) && |p| > 1 && p[0] == u && p[|p| - 1] == u
  }

  /** The node is on a dependency cycle, or depends transitively on one. */
  ghost predicate ReachesCycle(g: seq<Node>, u: Str) {
    exists v :: Reaches(g, u, v) && OnCycle(g, v)
  }

  ghost predicate Acyclic(g: seq<Node>) {
    forall u :: u in Ids(g) ==> !ReachesCycle(g, u)
  }

  /** Each node is listed once, after all of its dependencies. */
  ghost predicate Ordered(g: seq<Node>, order: seq<Str>) {
    && NoDuplicates(order)
    && (forall k :: 0 <= k < |order| ==> order[k] in Ids(g))
    && (forall k, d :: 0 <= k < |order| && Edge(g, order[k], d) ==> d in order[..k])
  }

  ghost predicate TopologicalOrder(g: seq<Node>, order: seq<Str>) {
    Ordered(g, order) && ToSet(order) == Ids(g)
  }

  /** Every node outside `done` still waits for a node outside `done`. */
  ghost predicate Stuck(g: seq<Node>, done: set<Str>) {
    forall u :: u in Ids(g) && u !in done ==> exists d :: Edge(g, u, d) && d !in done
  }

  // ---- a node in an ordered prefix cannot reach a cycle

  ghost function IndexOf(s: seq<Str>, x: Str): (k: nat)
    requires x in s
    ensures k < |s| && s[k] == x
  {
    if s[0] == x then 0 else 1 + IndexOf(s[1..], x)
  }

  lemma {:induction false} WalkStaysOrdered(g: seq<Node>, order: seq<Str>, p: seq<Str>, k: nat)
    requires Ordered(g, order) && Walk(g, p) && p[0] in order && k < |p|
    ensures p[k] in order
    ensures IndexOf(order, p[k]) + k <= IndexOf(order, p[0])
  {
    if k > 0 {
      WalkStaysOrdered(g, order, p, k - 1);
      var i := IndexOf(order, p[k - 1]);
      assert Edge(g, p[k - 1], p[k - 1 + 1]);
      assert p[k] in order[..i];
      var j :| 0 <= j < i && order[j] == p[k];
      assert IndexOf(order, p[k]) == j;
    }
  }

  lemma OrderedReachesNoCycle(g: seq<Node>, order: seq<Str>, u: Str)
    requires Ordered(g, order) && u in order
    ensures !ReachesCycle(g, u)
  {
    forall v | Reaches(g, u, v)
      ensures !OnCycle(g, v)
    {
      var p :| Walk(g, p) && p[0] == u && p[|p| - 1] == v;
      WalkStaysOrdered(g, order, p, |p| - 1);
      forall c | Walk(g, c) && |c| > 1 && c[0] == v
        ensures c[|c| - 1] != v
      {
        WalkStaysOrdered(g, order, c, |c| - 1);
      }
    }
  }

  // ---- a node outside a stuck set reaches a cycle

  lemma EdgeTarget(g: seq<Node>, u: Str, v: Str)
    requires Resolved(g) && Edge(g, u, v)
    ensures u in Ids(g) && v in Ids(g)
  {
    var i :| 0 <= i < |g| && g[i].id == u && v in g[i].dependsOn;
    assert g[i].id in Ids(g);
  }

  lemma ExtendWalk(g: seq<Node>, p: seq<Str>, d: Str)
    requires Walk(g, p) && Edge(g, p[|p| - 1], d)
    ensures Walk(g, p + [d])
  {
    var q := p + [d];
    forall i | 0 <= i < |q| - 1
      ensures Edge(g, q[i], q[i + 1])
    {
      assert i < |p| - 1 ==> Edge(g, p[i], p[i + 1]);
    }
  }

  ghost predicate WithinSet(p: seq<Str>, s: set<Str>) {
    forall i :: 0 <= i < |p| ==> p[i] in s
  }

  ghost predicate DependsInto(g: seq<Node>, u: Str, s: set<Str>) {
    exists d :: d in s && Edge(g, u, d)
  }

  /** Every node of `s` depends on a node of `s`. */
  ghost predicate Trapped(g: seq<Node>, s: set<Str>) {
    forall u {:trigger DependsInto(g, u, s)} :: u in s ==> DependsInto(g, u, s)
  }

  lemma StuckIsTrapped(g: seq<Node>, done: set<Str>)
    requires Resolved(g) && Stuck(g, done)
    ensures Trapped(g, Ids(g) - done)
  {
    forall u | u in Ids(g) - done
      ensures DependsInto(g, u, Ids(g) - done)
    {
      var d :| Edge(g, u, d) && d !in done;
      EdgeTarget(g, u, d);
    }
  }

  /** Keep following a dependency inside a trapped set: walks of every length. */
  lemma {:induction false} TrappedWalk(g: seq<Node>, s: set<Str>, u: Str, n: nat) returns (p: seq<Str>)
    requires Trapped(g, s) && u in s
    ensures Walk(g, p) && |p| == n + 1 && p[0] == u
    ensures WithinSet(p, s)
  {
    if n == 0 {
      p := [u];
    } else {
      var q := TrappedWalk(g, s, u, n - 1);
      var last := q[|q| - 1];
      assert DependsInto(g, last, s);
      var d :| d in s && Edge(g, last, d);
      ExtendWalk(g, q, d);
      p := q + [d];
    }
  }

  lemma {:induction false} Pigeonhole(p: seq<Str>, s: set<Str>)
    requires WithinSet(p, s) && NoDuplicates(p)
    ensures |p| <= |s|
  {
    if |p| > 0 {
      assert forall i :: 0 <= i < |p[1..]| ==> p[1..][i] == p[i + 1];
      Pigeonhole(p[1..], s - {p[0]});
    }
  }

  lemma SubWalk(g: seq<Node>, p: seq<Str>, i: nat, j: nat)
    requires Walk(g, p) && i < j <= |p|
    ensures Walk(g, p[i..j])
  {
    var q := p[i..j];
    forall k | 0 <= k < |q| - 1
      ensures Edge(g, q[k], q[k + 1])
    {
      assert Edge(g, p[i + k], p[i + k + 1]);
    }
  }

  lemma RepeatReachesCycle(g: seq<Node>, p: seq<Str>, i: nat, j: nat)
    requires Walk(g, p) && i < j < |p| && p[i] == p[j]
    ensures ReachesCycle(g, p[0])
  {
    SubWalk(g, p, 0, i + 1);
    SubWalk(g, p, i, j + 1);
    var toCycle, cycle := p[0..i + 1], p[i..j + 1];
    assert toCycle[0] == p[0] && toCycle[|toCycle| - 1] == p[i];
    assert cycle[0] == p[i] && cycle[|cycle| - 1] == p[i];
    assert Reaches(g, p[0], p[i]) && OnCycle(g, p[i]);
  }

  lemma StuckReachesCycle(g: seq<Node>, done: set<Str>, u: Str)
    requires Resolved(g) && Stuck(g, done) && u in Ids(g) && u !in done
    ensures ReachesCycle(g, u)
  {
    var outside := Ids(g) - done;
    StuckIsTrapped(g, done);
    var p := TrappedWalk(g, outside, u, |outside|);
    if NoDuplicates(p) {
      Pigeonhole(p, outside);
    } else {
      var i, j :| 0 <= i < j < |p| && p[i] == p[j];
      RepeatReachesCycle(g, p, i, j);
    }
  }

  /**
   What a run of Kahn's algorithm leaves unprocessed is exactly what is on, or depends on, a
   cycle, whatever order it processed the rest in.
   */
  lemma ResidueIsCyclic(g: seq<Node>, order: seq<Str>, u: Str)
    requires WellFormed(g) && Ordered(g, order) && Stuck(g, ToSet(order)) && u in Ids(g)
    ensures u !in order <==> ReachesCycle(g, u)
  {
    if u in order {
      OrderedReachesNoCycle(g, order, u);
    } else {
      StuckReachesCycle(g, ToSet(order), u);
    }
  }

  /** A graph is free of cycles exactly when a topological order of it exists; Kahn's algorithm then finds one. */
  lemma AcyclicIffOrdered(g: seq<Node>, order: seq<Str>)
    requires WellFormed(g) && Ordered(g, order) && Stuck(g, ToSet(order))
    ensures Acyclic(g) <==> TopologicalOrder(g, order)
    ensures Acyclic(g) <==> exists o :: TopologicalOrder(g, o)
  {
    forall u | u in Ids(g)
      ensures u in order <==> !ReachesCycle(g, u)
    {
      ResidueIsCyclic(g, order, u);
    }
    forall o | TopologicalOrder(g, o)
      ensures Acyclic(g)
    {
      forall u | u in Ids(g)
        ensures !ReachesCycle(g, u)
      {
        OrderedReachesNoCycle(g, o, u);
      }
    }
  }
}
