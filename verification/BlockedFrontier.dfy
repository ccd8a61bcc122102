/**
 Dispatch with serialization blockers: the frontier asks whether a node has a blocker, never
 whether that blocker has passed (src/domains/orchestration/ready-frontier.ts,
 src/domains/orchestration/dispatch-service.ts).
 */
module BlockedFrontier {
  import opened Text
  import opened Graph
  import opened Kahn
  import opened ReadyFrontier

  // ---- which nodes can ever pass

  /** The node is blocked, or depends on a blocked node through any number of edges. */
  ghost predicate Held(g: seq<Node>, blocked: set<Str>, u: Str) {
    exists b :: b in blocked && Reaches(g, u, b)
  }

  ghost function HeldIds(g: seq<Node>, blocked: set<Str>): set<Str> {
    set u | u in Ids(g) && Held(g, blocked, u)
  }

  /** The nodes a pass works off: those on the frontier without a blocker. */
  ghost function Selected(g: seq<Node>, passed: set<Str>, blocked: set<Str>): set<Str> {
    FrontierIds(g, passed) - blocked
  }

  lemma BlockedIsHeld(g: seq<Node>, blocked: set<Str>, u: Str)
    requires u in blocked
    ensures Held(g, blocked, u)
  {
    assert Walk(g, [u]);
    assert Reaches(g, u, u);
  }

  lemma HeldThroughEdge(g: seq<Node>, blocked: set<Str>, u: Str, d: Str)
    requires Edge(g, u, d) && Held(g, blocked, d)
    ensures Held(g, blocked, u)
  {
    var b :| b in blocked && Reaches(g, d, b);
    var p :| Walk(g, p) && p[0] == d && p[|p| - 1] == b;
    var q := [u] + p;
    forall i | 0 <= i < |q| - 1
      ensures Edge(g, q[i], q[i + 1])
    {
      if i > 0 {
        assert Edge(g, p[i - 1], p[i - 1 + 1]);
      }
    }
    assert q[|q| - 1] == b;
    assert Reaches(g, u, b);
  }

  /** A held node is blocked itself, or one of its dependencies is held. */
  lemma HeldBecause(g: seq<Node>, blocked: set<Str>, u: Str)
    requires Held(g, blocked, u)
    ensures u in blocked || exists d :: Edge(g, u, d) && Held(g, blocked, d)
  {
    var b :| b in blocked && Reaches(g, u, b);
    var p :| Walk(g, p) && p[0] == u && p[|p| - 1] == b;
    if |p| > 1 {
      assert Edge(g, p[0], p[0 + 1]);
      SubWalk(g, p, 1, |p|);
      var q := p[1..|p|];
      assert q[0] == p[1] && q[|q| - 1] == b;
      assert Reaches(g, p[1], b);
    }
  }

  /** What has passed so far: a set closed under dependencies, without a held node. */
  ghost predicate PassedFreely(g: seq<Node>, blocked: set<Str>, passed: seq<Str>) {
    Ordered(g, passed) && forall u :: u in passed ==> !Held(g, blocked, u)
  }

  lemma SelectedIsFree(g: seq<Node>, blocked: set<Str>, passed: seq<Str>, u: Str)
    requires UniqueIds(g) && PassedFreely(g, blocked, passed) && u in Selected(g, ToSet(passed), blocked)
    ensures FrontierMember(g, ToSet(passed), u) && !Held(g, blocked, u)
  {
    FrontierMembers(g, ToSet(passed), u);
    if Held(g, blocked, u) {
      HeldBecause(g, blocked, u);
    }
  }

  /** If nothing is selected, every unpassed node that is not held waits for another one. */
  lemma NothingSelectedIsStuck(g: seq<Node>, blocked: set<Str>, passed: set<Str>)
    requires Selected(g, passed, blocked) == {}
    ensures Stuck(g, passed + HeldIds(g, blocked))
  {
    var done := passed + HeldIds(g, blocked);
    forall v | v in Ids(g) && v !in done
      ensures exists d :: Edge(g, v, d) && d !in done
    {
      var i :| 0 <= i < |g| && g[i].id == v;
      if v in blocked {
        BlockedIsHeld(g, blocked, v);
      }
      assert g[i].id !in Selected(g, passed, blocked);
      var d :| d in g[i].dependsOn && d !in passed;
      assert Edge(g, v, d);
      if d in HeldIds(g, blocked) {
        HeldThroughEdge(g, blocked, v, d);
      }
    }
  }

  /**
   Progress with blockers: a pass has something to work off if and only if some unpassed node
   neither has a blocker nor depends, through any number of edges, on a node that has one.
   */
  lemma SelectedExactly(g: seq<Node>, blocked: set<Str>, passed: seq<Str>)
    requires WellFormed(g) && Acyclic(g) && PassedFreely(g, blocked, passed)
    ensures Selected(g, ToSet(passed), blocked) != {} <==>
      exists u :: u in Ids(g) && u !in passed && !Held(g, blocked, u)
  {
    if u :| u in Selected(g, ToSet(passed), blocked) {
      SelectedIsFree(g, blocked, passed, u);
    } else if u :| u in Ids(g) && u !in passed && !Held(g, blocked, u) {
      NothingSelectedIsStuck(g, blocked, ToSet(passed));
      StuckReachesCycle(g, ToSet(passed) + HeldIds(g, blocked), u);
    }
  }

  // ---- round after round

  ghost function NextSelected(g: seq<Node>, blocked: set<Str>, before: seq<Str>): seq<Str> {
    Keep(IdList(g), Selected(g, ToSet(before), blocked))
  }

  /** The order in which nodes pass when every node a pass works off passes before the next pass. */
  ghost function SelectedOrder(g: seq<Node>, blocked: set<Str>, rounds: nat): seq<Str> {
    if rounds == 0 then []
    else SelectedOrder(g, blocked, rounds - 1) + NextSelected(g, blocked, SelectedOrder(g, blocked, rounds - 1))
  }

  lemma RoundStaysFree(g: seq<Node>, blocked: set<Str>, before: seq<Str>)
    requires WellFormed(g) && PassedFreely(g, blocked, before)
    ensures PassedFreely(g, blocked, before + NextSelected(g, blocked, before))
  {
    var next := NextSelected(g, blocked, before);
    KeepNoDuplicates(IdList(g), Selected(g, ToSet(before), blocked));
    forall k | 0 <= k < |next|
      ensures FrontierMember(g, ToSet(before), next[k]) && !Held(g, blocked, next[k])
    {
      assert next[k] in Selected(g, ToSet(before), blocked);
      SelectedIsFree(g, blocked, before, next[k]);
    }
    RoundExtends(g, before, next);
  }

  lemma {:induction false} OrderIsFree(g: seq<Node>, blocked: set<Str>, rounds: nat)
    requires WellFormed(g)
    ensures PassedFreely(g, blocked, SelectedOrder(g, blocked, rounds))
  {
    if rounds > 0 {
      OrderIsFree(g, blocked, rounds - 1);
      RoundStaysFree(g, blocked, SelectedOrder(g, blocked, rounds - 1));
    }
  }

  ghost function FreeIds(g: seq<Node>, blocked: set<Str>): set<Str> {
    Ids(g) - HeldIds(g, blocked)
  }

  lemma SelectedRoundProgress(g: seq<Node>, blocked: set<Str>, before: seq<Str>)
    requires WellFormed(g) && Acyclic(g) && PassedFreely(g, blocked, before)
    ensures Progress(before, NextSelected(g, blocked, before), FreeIds(g, blocked))
  {
    if Covers(before, FreeIds(g, blocked)) {
      CoversMore(before, NextSelected(g, blocked, before), FreeIds(g, blocked));
    } else {
      var u :| u in FreeIds(g, blocked) && u !in before;
      SelectedExactly(g, blocked, before);
      var v :| v in Selected(g, ToSet(before), blocked);
      FrontierIdsKnown(g, ToSet(before), v);
      assert v in NextSelected(g, blocked, before);
    }
  }

  /** Every round makes progress towards these nodes. */
  ghost predicate RoundsProgress(g: seq<Node>, blocked: set<Str>, ids: set<Str>) {
    forall k: nat ::
      Progress(SelectedOrder(g, blocked, k), NextSelected(g, blocked, SelectedOrder(g, blocked, k)), ids)
  }

  lemma {:induction false} SelectedRoundsReach(g: seq<Node>, blocked: set<Str>, ids: set<Str>, rounds: nat)
    requires RoundsProgress(g, blocked, ids)
    ensures Reached(SelectedOrder(g, blocked, rounds), ids, rounds)
  {
    if rounds > 0 {
      var before := SelectedOrder(g, blocked, rounds - 1);
      SelectedRoundsReach(g, blocked, ids, rounds - 1);
      ReachedMore(before, NextSelected(g, blocked, before), ids, rounds);
    }
  }

  lemma AllRoundsProgress(g: seq<Node>, blocked: set<Str>)
    requires WellFormed(g) && Acyclic(g)
    ensures RoundsProgress(g, blocked, FreeIds(g, blocked))
  {
    forall k: nat
      ensures Progress(
        SelectedOrder(g, blocked, k), NextSelected(g, blocked, SelectedOrder(g, blocked, k)), FreeIds(g, blocked))
    {
      OrderIsFree(g, blocked, k);
      SelectedRoundProgress(g, blocked, SelectedOrder(g, blocked, k));
    }
  }

  /**
   Round after round exactly the nodes pass that neither have a blocker nor depend on a node
   that has one, within as many rounds as there are nodes and after their dependencies.
   */
  lemma RoundsPassTheFree(g: seq<Node>, blocked: set<Str>)
    requires WellFormed(g) && Acyclic(g)
    ensures Ordered(g, SelectedOrder(g, blocked, |g|))
    ensures ToSet(SelectedOrder(g, blocked, |g|)) == FreeIds(g, blocked)
  {
    var order := SelectedOrder(g, blocked, |g|);
    OrderIsFree(g, blocked, |g|);
    AllRoundsProgress(g, blocked);
    SelectedRoundsReach(g, blocked, FreeIds(g, blocked), |g|);
    assert ToSet(order) <= FreeIds(g, blocked);
    if !Covers(order, FreeIds(g, blocked)) {
      NoDuplicatesSize(order);
      NoDuplicatesSize(IdList(g));
      assert ToSet(IdList(g)) == Ids(g);
      Pigeonhole(order, Ids(g));
      SubsetOfSameSize(ToSet(order), Ids(g));
    }
  }

  /** All nodes pass if and only if none of them has a blocker. */
  lemma AllPassExactly(g: seq<Node>, blocked: set<Str>)
    requires WellFormed(g) && Acyclic(g)
    ensures ToSet(SelectedOrder(g, blocked, |g|)) == Ids(g) <==> Ids(g) !! blocked
  {
    RoundsPassTheFree(g, blocked);
    if u :| u in Ids(g) && u in blocked {
      BlockedIsHeld(g, blocked, u);
      assert u !in FreeIds(g, blocked);
    } else {
      forall u | u in Ids(g)
        ensures !Held(g, blocked, u)
      {
        if Held(g, blocked, u) {
          ReachedKnown(g, blocked, u);
        }
      }
    }
  }

  /** The blocked node that holds a node of the graph is a node of the graph. */
  lemma ReachedKnown(g: seq<Node>, blocked: set<Str>, u: Str)
    requires Resolved(g) && u in Ids(g) && Held(g, blocked, u)
    ensures exists b :: b in blocked && b in Ids(g)
  {
    var b :| b in blocked && Reaches(g, u, b);
    var p :| Walk(g, p) && p[0] == u && p[|p| - 1] == b;
    if |p| > 1 {
      assert Edge(g, p[|p| - 2], p[|p| - 2 + 1]);
      EdgeTarget(g, p[|p| - 2], b);
    }
  }
}
