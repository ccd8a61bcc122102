/** The ready frontier (src/domains/orchestration/ready-frontier.ts). */
module ReadyFrontier {
  import opened Text
  import opened Wrappers
  import opened Graph
  import opened Kahn

  datatype FrontierNode = FrontierNode(node: Node, readyAfterScheduling: bool, blocker: Option<Str>)

  predicate DependenciesPassed(n: Node, passed: set<Str>) {
    forall d :: d in n.dependsOn ==> d in passed
  }

  predicate InFrontier(n: Node, passed: set<Str>) {
    n.id !in passed && DependenciesPassed(n, passed)
  }

  function Entry(n: Node, blockers: map<Str, Str>): FrontierNode {
    if n.id in blockers then FrontierNode(n, false, Some(blockers[n.id])) else FrontierNode(n, true, None)
  }

  /** The comparison the list is sorted by; the source uses `localeCompare`. */
  ghost predicate TotalPreorder(leq: (Str, Str) -> bool) {
    && (forall a, b :: leq(a, b) || leq(b, a))
    && (forall a, b, c :: leq(a, b) && leq(b, c) ==> leq(a, c))
  }

  ghost predicate SortedById(s: seq<FrontierNode>, leq: (Str, Str) -> bool) {
    forall i, j :: 0 <= i < j < |s| ==> leq(s[i].node.id, s[j].node.id)
  }

  /** Stable insertion into a sorted list. */
  function InsertById(e: FrontierNode, s: seq<FrontierNode>, leq: (Str, Str) -> bool): (r: seq<FrontierNode>)
    ensures multiset(r) == multiset(s) + multiset{e}
    ensures |r| == |s| + 1
  {
    if |s| == 0 then [e]
    else
      var last := s[|s| - 1];
      assert s == s[..|s| - 1] + [last];
      if leq(last.node.id, e.node.id) then s + [e] else InsertById(e, s[..|s| - 1], leq) + [last]
  }

  lemma {:induction false} InsertByIdSorts(e: FrontierNode, s: seq<FrontierNode>, leq: (Str, Str) -> bool)
    requires TotalPreorder(leq) && SortedById(s, leq)
    ensures SortedById(InsertById(e, s, leq), leq)
  {
    if |s| > 0 {
      var last, front := s[|s| - 1], s[..|s| - 1];
      var r := InsertById(e, s, leq);
      if leq(last.node.id, e.node.id) {
        forall i | 0 <= i < |s|
          ensures leq(s[i].node.id, e.node.id)
        {
          assert i < |s| - 1 ==> leq(s[i].node.id, last.node.id);
        }
      } else {
        var t := InsertById(e, front, leq);
        InsertByIdSorts(e, front, leq);
        forall i | 0 <= i < |t|
          ensures leq(t[i].node.id, last.node.id)
        {
          assert t[i] in multiset(t);
          assert t[i] == e || t[i] in front;
        }
      }
    }
  }

  /** The frontier in node order, one entry for each node on it. */
  function Entries(nodes: seq<Node>, passed: set<Str>, blockers: map<Str, Str>): seq<FrontierNode> {
    if |nodes| == 0 then []
    else
      var last := nodes[|nodes| - 1];
      Entries(nodes[..|nodes| - 1], passed, blockers) + if InFrontier(last, passed) then [Entry(last, blockers)] else []
  }

  lemma EntriesSnoc(nodes: seq<Node>, i: nat, passed: set<Str>, blockers: map<Str, Str>)
    requires i < |nodes|
    ensures Entries(nodes[..i + 1], passed, blockers) ==
      Entries(nodes[..i], passed, blockers) + if InFrontier(nodes[i], passed) then [Entry(nodes[i], blockers)] else []
  {
    assert nodes[..i + 1][..i] == nodes[..i];
  }

  lemma {:induction false} EntriesAre(nodes: seq<Node>, passed: set<Str>, blockers: map<Str, Str>, e: FrontierNode)
    ensures e in Entries(nodes, passed, blockers) <==>
      e.node in nodes && InFrontier(e.node, passed) && e == Entry(e.node, blockers)
  {
    if |nodes| > 0 {
      EntriesAre(nodes[..|nodes| - 1], passed, blockers, e);
      AllButLast(nodes);
    }
  }

  lemma CountSnoc(s: seq<FrontierNode>, last: FrontierNode, e: FrontierNode)
    ensures multiset(s + [last])[e] == multiset(s)[e] + if e == last then 1 else 0
  {
  }

  lemma OtherIds(front: seq<Node>, last: Node, n: Node)
    requires UniqueIds(front + [last]) && n in front
    ensures n.id != last.id
  {
    var i :| 0 <= i < |front| && front[i] == n;
    assert (front + [last])[i] == n && (front + [last])[|front|] == last;
  }

  /** A node list without repetitions gives each entry once. */
  lemma {:induction false} EntriesOnce(nodes: seq<Node>, passed: set<Str>, blockers: map<Str, Str>, e: FrontierNode)
    requires UniqueIds(nodes)
    ensures multiset(Entries(nodes, passed, blockers))[e] <= 1
  {
    if |nodes| > 0 {
      var front, last := nodes[..|nodes| - 1], nodes[|nodes| - 1];
      var entries := Entries(front, passed, blockers);
      AllButLast(nodes);
      assert UniqueIds(front);
      EntriesOnce(front, passed, blockers, e);
      if InFrontier(last, passed) {
        CountSnoc(entries, Entry(last, blockers), e);
        if e == Entry(last, blockers) {
          LastIsNew(front, last, passed, blockers);
        }
      } else {
        assert entries + [] == entries;
      }
    }
  }

  lemma LastIsNew(front: seq<Node>, last: Node, passed: set<Str>, blockers: map<Str, Str>)
    requires UniqueIds(front + [last])
    ensures multiset(Entries(front, passed, blockers))[Entry(last, blockers)] == 0
  {
    EntriesAre(front, passed, blockers, Entry(last, blockers));
    if last in front {
      OtherIds(front, last, last);
    }
    assert Entry(last, blockers) !in Entries(front, passed, blockers);
  }

  lemma TwiceIsTwo(s: seq<FrontierNode>, i: nat, j: nat)
    requires i < j < |s| && s[i] == s[j]
    ensures multiset(s)[s[i]] >= 2
  {
    assert s == s[..j] + s[j..] && s[..j][i] == s[i] && s[j..][0] == s[j];
    assert s[i] in s[..j] && s[i] in s[j..];
    assert multiset(s) == multiset(s[..j]) + multiset(s[j..]);
  }

  /** Entries that are as many as those of the list, and of its nodes, are for different nodes. */
  lemma EntriesDistinct(nodes: seq<Node>, passed: set<Str>, blockers: map<Str, Str>, frontier: seq<FrontierNode>)
    requires UniqueIds(nodes) && multiset(frontier) == multiset(Entries(nodes, passed, blockers))
    ensures forall i, j :: 0 <= i < j < |frontier| ==> frontier[i].node.id != frontier[j].node.id
  {
    forall i, j | 0 <= i < j < |frontier|
      ensures frontier[i].node.id != frontier[j].node.id
    {
      EntriesOnce(nodes, passed, blockers, frontier[i]);
      assert frontier[i] in multiset(frontier) && frontier[j] in multiset(frontier);
      EntriesAre(nodes, passed, blockers, frontier[i]);
      EntriesAre(nodes, passed, blockers, frontier[j]);
      if frontier[i].node.id == frontier[j].node.id {
        TwiceIsTwo(frontier, i, j);
      }
    }
  }

  /**
   Exactly the unpassed nodes whose dependencies have all passed, each once and with its blocker
   if it has one, sorted by id. Whether the blocker itself has passed is not looked at.
   */
  method ComputeReadyFrontier(nodes: seq<Node>, passed: set<Str>, blockers: map<Str, Str>, leq: (Str, Str) -> bool)
    returns (frontier: seq<FrontierNode>)
    requires TotalPreorder(leq)
    ensures SortedById(frontier, leq)
    ensures multiset(frontier) == multiset(Entries(nodes, passed, blockers))
    ensures forall e :: e in frontier <==> e.node in nodes && InFrontier(e.node, passed) && e == Entry(e.node, blockers)
  {
    frontier := [];
    for i := 0 to |nodes|
      invariant SortedById(frontier, leq)
      invariant multiset(frontier) == multiset(Entries(nodes[..i], passed, blockers))
    {
      var node := nodes[i];
      EntriesSnoc(nodes, i, passed, blockers);
      if node.id !in passed && DependenciesPassed(node, passed) {
        InsertByIdSorts(Entry(node, blockers), frontier, leq);
        frontier := InsertById(Entry(node, blockers), frontier, leq);
      }
    }
    assert nodes[..|nodes|] == nodes;
    forall e
      ensures e in frontier <==> e.node in nodes && InFrontier(e.node, passed) && e == Entry(e.node, blockers)
    {
      EntriesAre(nodes, passed, blockers, e);
      assert e in frontier <==> e in multiset(frontier);
      assert e in Entries(nodes, passed, blockers) <==> e in multiset(Entries(nodes, passed, blockers));
    }
  }

  // ---- progress on an accepted graph without blockers

  ghost function FrontierIds(g: seq<Node>, passed: set<Str>): set<Str> {
    set i | 0 <= i < |g| && InFrontier(g[i], passed) :: g[i].id
  }

  /** Until every node has passed, something is ready, whatever has passed so far. */
  lemma FrontierNonEmpty(g: seq<Node>, passed: set<Str>)
    requires WellFormed(g) && Acyclic(g) && !(Ids(g) <= passed)
    ensures FrontierIds(g, passed) != {}
  {
    var u :| u in Ids(g) && u !in passed;
    if FrontierIds(g, passed) == {} {
      EmptyFrontierIsStuck(g, passed);
      StuckReachesCycle(g, passed, u);
    }
  }

  lemma EmptyFrontierIsStuck(g: seq<Node>, passed: set<Str>)
    requires FrontierIds(g, passed) == {}
    ensures Stuck(g, passed)
  {
    forall v | v in Ids(g) && v !in passed
      ensures exists d :: Edge(g, v, d) && d !in passed
    {
      var i :| 0 <= i < |g| && g[i].id == v;
      assert g[i].id !in FrontierIds(g, passed);
      var d :| d in g[i].dependsOn && d !in passed;
      assert Edge(g, v, d);
    }
  }

  /** The order in which nodes pass when every node of the frontier passes, round after round. */
  ghost function PassOrder(g: seq<Node>, rounds: nat): seq<Str> {
    if rounds == 0 then [] else PassOrder(g, rounds - 1) + NextRound(g, PassOrder(g, rounds - 1))
  }

  ghost function NextRound(g: seq<Node>, before: seq<Str>): seq<Str> {
    Keep(IdList(g), FrontierIds(g, ToSet(before)))
  }

  lemma {:induction false} PassOrderOrdered(g: seq<Node>, rounds: nat)
    requires WellFormed(g)
    ensures Ordered(g, PassOrder(g, rounds))
  {
    if rounds > 0 {
      PassOrderOrdered(g, rounds - 1);
      var before := PassOrder(g, rounds - 1);
      var passed := ToSet(before);
      var next := NextRound(g, before);
      KeepNoDuplicates(IdList(g), FrontierIds(g, passed));
      forall k | 0 <= k < |next|
        ensures FrontierMember(g, passed, next[k])
      {
        assert next[k] in FrontierIds(g, passed);
        FrontierMembers(g, passed, next[k]);
      }
      RoundExtends(g, before, next);
    }
  }

  ghost predicate FrontierMember(g: seq<Node>, passed: set<Str>, u: Str) {
    && u in Ids(g) && u !in passed
    && forall d :: Edge(g, u, d) ==> d in passed
  }

  lemma FrontierMembers(g: seq<Node>, passed: set<Str>, u: Str)
    requires UniqueIds(g) && u in FrontierIds(g, passed)
    ensures FrontierMember(g, passed, u)
  {
    var i :| 0 <= i < |g| && InFrontier(g[i], passed) && g[i].id == u;
    assert g[i].id in Ids(g);
    forall d | Edge(g, u, d)
      ensures d in passed
    {
      var j :| 0 <= j < |g| && g[j].id == u && d in g[j].dependsOn;
      Duplicated(g, i, j);
    }
  }

  lemma RoundExtends(g: seq<Node>, before: seq<Str>, next: seq<Str>)
    requires Ordered(g, before) && NoDuplicates(next)
    requires forall k :: 0 <= k < |next| ==> FrontierMember(g, ToSet(before), next[k])
    ensures Ordered(g, before + next)
  {
    var order := before + next;
    forall k, d | 0 <= k < |order| && Edge(g, order[k], d)
      ensures d in order[..k]
    {
      if k < |before| {
        assert order[..k] == before[..k];
        assert Edge(g, before[k], d);
      } else {
        assert FrontierMember(g, ToSet(before), next[k - |before|]);
        assert d in before && order[..k][..|before|] == before;
      }
    }
    forall i, j | 0 <= i < j < |order|
      ensures order[i] != order[j]
    {
      if i < |before| <= j {
        assert FrontierMember(g, ToSet(before), next[j - |before|]);
      }
    }
  }

  lemma RoundAdds(g: seq<Node>, before: seq<Str>)
    requires WellFormed(g) && Acyclic(g) && !(Ids(g) <= ToSet(before))
    ensures |NextRound(g, before)| > 0
  {
    FrontierNonEmpty(g, ToSet(before));
    var u :| u in FrontierIds(g, ToSet(before));
    FrontierIdsKnown(g, ToSet(before), u);
    assert u in NextRound(g, before);
  }

  lemma FrontierIdsKnown(g: seq<Node>, passed: set<Str>, u: Str)
    requires u in FrontierIds(g, passed)
    ensures u in IdList(g)
  {
    var i :| 0 <= i < |g| && InFrontier(g[i], passed) && g[i].id == u;
    assert IdList(g)[i] == u;
  }

  ghost predicate Covers(order: seq<Str>, ids: set<Str>) {
    ids <= ToSet(order)
  }

  lemma CoversMore(before: seq<Str>, next: seq<Str>, ids: set<Str>)
    requires Covers(before, ids)
    ensures Covers(before + next, ids)
  {
    assert ToSet(before) <= ToSet(before + next);
  }

  /** One round covers everything or adds a node. */
  ghost predicate Progress(before: seq<Str>, next: seq<Str>, ids: set<Str>) {
    if Covers(before, ids) then Covers(before + next, ids) else |next| > 0
  }

  lemma RoundProgress(g: seq<Node>, before: seq<Str>)
    requires WellFormed(g) && Acyclic(g)
    ensures Progress(before, NextRound(g, before), Ids(g))
  {
    if Covers(before, Ids(g)) {
      CoversMore(before, NextRound(g, before), Ids(g));
    } else {
      RoundAdds(g, before);
    }
  }

  lemma {:induction false} RoundsReach(g: seq<Node>, rounds: nat)
    requires forall before :: Progress(before, NextRound(g, before), Ids(g))
    ensures Reached(PassOrder(g, rounds), Ids(g), rounds)
  {
    if rounds > 0 {
      var before := PassOrder(g, rounds - 1);
      RoundsReach(g, rounds - 1);
      ReachedMore(before, NextRound(g, before), Ids(g), rounds);
    }
  }

  ghost predicate Reached(order: seq<Str>, ids: set<Str>, rounds: nat) {
    Covers(order, ids) || |order| >= rounds
  }

  lemma ReachedMore(before: seq<Str>, next: seq<Str>, ids: set<Str>, rounds: nat)
    requires rounds > 0 && Reached(before, ids, rounds - 1)
    requires Progress(before, next, ids)
    ensures Reached(before + next, ids, rounds)
  {
  }

  /**
   On an accepted graph, passing the whole frontier again and again passes every node within
   as many rounds as there are nodes, in a topological order.
   */
  lemma RoundsFinish(g: seq<Node>)
    requires WellFormed(g) && Acyclic(g)
    ensures TopologicalOrder(g, PassOrder(g, |g|))
  {
    var order := PassOrder(g, |g|);
    PassOrderOrdered(g, |g|);
    forall before
      ensures Progress(before, NextRound(g, before), Ids(g))
    {
      RoundProgress(g, before);
    }
    RoundsReach(g, |g|);
    NoDuplicatesSize(order);
    NoDuplicatesSize(IdList(g));
    assert ToSet(IdList(g)) == Ids(g);
    assert ToSet(order) <= Ids(g);
    if |order| >= |g| {
      Pigeonhole(order, Ids(g));
      SubsetOfSameSize(ToSet(order), Ids(g));
    }
  }
}
