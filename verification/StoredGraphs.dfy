/**
 The dependency graphs that are stored: imports let in exactly the well-formed works without
 cycles, so in every run no stored node depends on itself through any number of edges.
 */
module StoredGraphs {
  import opened Text
  import opened Lifecycle
  import opened StoreModel
  import opened StoreInvariants
  import opened StoreRuns
  import opened DispatchSafety
  import opened Wrappers
  import DispatchService
  import Frontier = ReadyFrontier
  import BlockedFrontier
  import Graph

  // ---- graphs without closed walks

  /** No walk along at least one edge leads back to where it began. */
  ghost predicate NoClosedWalk(g: seq<Graph.Node>) {
    forall p :: Graph.Walk(g, p) && |p| > 1 ==> p[0] != p[|p| - 1]
  }

  lemma ClosedWalkIsCycle(g: seq<Graph.Node>, p: seq<Str>)
    requires Graph.Walk(g, p) && |p| > 1 && p[0] == p[|p| - 1]
    ensures p[0] in Graph.Ids(g) && Graph.ReachesCycle(g, p[0])
  {
    assert Graph.Edge(g, p[0], p[0 + 1]);
    assert Graph.OnCycle(g, p[0]);
    assert Graph.Walk(g, [p[0]]);
    assert Graph.Reaches(g, p[0], p[0]);
  }

  lemma AcyclicMeans(g: seq<Graph.Node>)
    ensures Graph.Acyclic(g) <==> NoClosedWalk(g)
  {
    if Graph.Acyclic(g) {
      forall p: seq<Str> | Graph.Walk(g, p) && |p| > 1
        ensures p[0] != p[|p| - 1]
      {
        if p[0] == p[|p| - 1] {
          ClosedWalkIsCycle(g, p);
        }
      }
    }
  }

  // ---- which works are imported

  ghost predicate NodesAllowed(g: seq<Graph.Node>) {
    forall i :: 0 <= i < |g| ==>
      && IsNonEmptyString(g[i].id, MAX_ID_LENGTH)
      && |g[i].dependsOn| <= MAX_DEPENDENCIES_PER_NODE && NoDuplicates(g[i].dependsOn)
  }

  /** Ids of allowed length, distinct nodes, edges to nodes of the work, none repeated, and no way back along them. */
  ghost predicate Importable(work: ApprovedWork) {
    && IsNonEmptyString(work.workId, MAX_ID_LENGTH) && 0 < |work.nodes| <= MAX_NODES
    && NodesAllowed(GraphOf(work)) && Graph.UniqueIds(GraphOf(work)) && Graph.Resolved(GraphOf(work))
    && NoClosedWalk(GraphOf(work))
  }

  /** What the checks on the nodes demand. */
  ghost predicate Checked(g: seq<Graph.Node>, seen: set<Str>) {
    && (forall i :: 0 <= i < |g| ==>
          && IsNonEmptyString(g[i].id, MAX_ID_LENGTH) && g[i].id !in seen
          && |g[i].dependsOn| <= MAX_DEPENDENCIES_PER_NODE
          && forall d :: d in g[i].dependsOn ==> IsNonEmptyString(d, MAX_ID_LENGTH))
    && Graph.UniqueIds(g)
  }

  lemma CheckedTail(g: seq<Graph.Node>, seen: set<Str>)
    requires |g| > 0
    ensures Checked(g, seen) <==>
      && IsNonEmptyString(g[0].id, MAX_ID_LENGTH) && g[0].id !in seen
      && |g[0].dependsOn| <= MAX_DEPENDENCIES_PER_NODE
      && (forall d :: d in g[0].dependsOn ==> IsNonEmptyString(d, MAX_ID_LENGTH))
      && Checked(g[1..], seen + {g[0].id})
  {
    var rest := g[1..];
    assert forall i :: 0 <= i < |rest| ==> rest[i] == g[i + 1];
    assert forall i :: 1 <= i < |g| ==> g[i] == rest[i - 1];
  }

  lemma {:induction false} CheckNodesExactly(g: seq<Graph.Node>, seen: set<Str>)
    ensures CheckNodes(g, seen).None? <==> Checked(g, seen)
    decreases |g|
  {
    if |g| > 0 {
      CheckedTail(g, seen);
      CheckNodesExactly(g[1..], seen + {g[0].id});
    }
  }

  lemma EdgesExactly(g: seq<Graph.Node>)
    requires NoClosedWalk(g)
    ensures EdgesOk(g) <==> Graph.Resolved(g)
  {
    forall i | 0 <= i < |g|
      ensures g[i].id !in g[i].dependsOn
    {
      var p := [g[i].id, g[i].id];
      assert g[i].id in g[i].dependsOn ==> Graph.Edge(g, p[0], p[1]);
      assert g[i].id in g[i].dependsOn ==> Graph.Walk(g, p);
    }
    assert EdgesOk(g) ==> forall i :: 0 <= i < |g| ==> NodeEdgesOk(g[i], Graph.Ids(g));
  }

  ghost predicate RepeatsNoEdge(g: seq<Graph.Node>) {
    forall i :: 0 <= i < |g| ==> NoDuplicates(g[i].dependsOn)
  }

  lemma ValidationExactly(work: ApprovedWork)
    ensures ValidateWork(work).None? && RepeatsNoEdge(GraphOf(work)) <==> Importable(work)
  {
    var g := GraphOf(work);
    AcyclicMeans(g);
    CheckNodesExactly(g, {});
    if NoClosedWalk(g) {
      EdgesExactly(g);
      if NodesAllowed(g) && Graph.Resolved(g) {
        forall i, d | 0 <= i < |g| && d in g[i].dependsOn
          ensures IsNonEmptyString(d, MAX_ID_LENGTH)
        {
          var j :| 0 <= j < |g| && g[j].id == d;
        }
      }
    }
  }

  /** All node rows of the work are there, pending, with their dependencies, and all others are as before. */
  ghost predicate RowsInserted(nodes: map<NodeKey, NodeRow>, nodes': map<NodeKey, NodeRow>, work: ApprovedWork) {
    && (forall i :: 0 <= i < |work.nodes| ==>
          var key := NodeKey(work.workId, work.nodes[i].graph.id);
          key in nodes' && nodes'[key] == NodeRow(Pending, 1, work.nodes[i].graph.dependsOn))
    && (forall k :: k in nodes' <==> k in nodes || (k.workId == work.workId && k.nodeId in Graph.Ids(GraphOf(work))))
    && (forall k :: k in nodes ==> nodes'[k] == nodes[k])
  }

  lemma InsertedRows(db: Db, work: ApprovedWork)
    requires Valid(db) && work.workId !in db.plan.works && Graph.UniqueIds(GraphOf(work))
    ensures RowsInserted(db.plan.nodes, InsertWork(db, work).plan.nodes, work)
  {
    var g := GraphOf(work);
    forall i | 0 <= i < |work.nodes|
      ensures var n := work.nodes[i].graph;
        var key := NodeKey(work.workId, n.id);
        key in FreshRows(work.workId, g) && FreshRows(work.workId, g)[key] == NodeRow(Pending, 1, n.dependsOn)
    {
      assert g[i] == work.nodes[i].graph;
      FreshRowAt(work.workId, g, i);
    }
    forall k
      ensures k in FreshRows(work.workId, g) <==> k.workId == work.workId && k.nodeId in Graph.Ids(g)
    {
      FreshRowsContent(work.workId, g, k);
    }
  }

  lemma FreshRowAt(workId: Str, g: seq<Graph.Node>, i: nat)
    requires i < |g| && Graph.UniqueIds(g)
    ensures var key := NodeKey(workId, g[i].id);
      key in FreshRows(workId, g) && FreshRows(workId, g)[key] == NodeRow(Pending, 1, g[i].dependsOn)
  {
    var key := NodeKey(workId, g[i].id);
    FreshRowsContent(workId, g, key);
    var j :| 0 <= j < |g| && g[j].id == key.nodeId && FreshRows(workId, g)[key] == NodeRow(Pending, 1, g[j].dependsOn);
  }

  /** A new work is imported if and only if it is well-formed and free of cycles; then all its rows are inserted. */
  lemma ImportExactly(db: Db, work: ApprovedWork)
    requires Valid(db) && work.workId !in db.plan.works
    ensures var step := Apply(db, ImportWorkCall(work));
      if Importable(work) then
        && step.reply == Done && RowsInserted(db.plan.nodes, step.db.plan.nodes, work)
        && step.db.plan.works.Keys == db.plan.works.Keys + {work.workId}
        && step.db.runs == db.runs && step.db.results == db.results && step.db.intake == db.intake
      else step.reply.Error? && step.db == db
  {
    ValidationExactly(work);
    if Importable(work) {
      InsertedRows(db, work);
      NewWorkInserted(db, work);
    } else {
      NewWorkRefused(db, work);
    }
  }

  lemma NewWorkInserted(db: Db, work: ApprovedWork)
    requires work.workId !in db.plan.works && ValidateWork(work).None? && RepeatsNoEdge(GraphOf(work))
    ensures Apply(db, ImportWorkCall(work)) == Step(InsertWork(db, work), Done)
  {
    assert forall i :: 0 <= i < |work.nodes| ==> work.nodes[i].graph == GraphOf(work)[i];
  }

  lemma NewWorkRefused(db: Db, work: ApprovedWork)
    requires work.workId !in db.plan.works && !(ValidateWork(work).None? && RepeatsNoEdge(GraphOf(work)))
    ensures Apply(db, ImportWorkCall(work)).reply.Error? && Apply(db, ImportWorkCall(work)).db == db
  {
    if ValidateWork(work).None? {
      var i :| 0 <= i < |GraphOf(work)| && !NoDuplicates(GraphOf(work)[i].dependsOn);
      assert !NoDuplicates(work.nodes[i].graph.dependsOn);
    }
  }

  // ---- importing a work again

  /** The works agree in everything but the order of dependency lists. */
  ghost predicate SameWork(w: ApprovedWork, w': ApprovedWork) {
    && w'.workId == w.workId && w'.origin == w.origin && w'.content == w.content && |w'.nodes| == |w.nodes|
    && forall i :: 0 <= i < |w.nodes| ==>
      && w'.nodes[i].content == w.nodes[i].content && w'.nodes[i].graph.id == w.nodes[i].graph.id
      && ToSet(w'.nodes[i].graph.dependsOn) == ToSet(w.nodes[i].graph.dependsOn)
  }

  lemma SortedListsAgree(a: seq<Str>, b: seq<Str>)
    requires NoDuplicates(a) && NoDuplicates(b)
    ensures Sort(a) == Sort(b) <==> ToSet(a) == ToSet(b)
  {
    SortAscends(a);
    SortAscends(b);
    if ToSet(a) == ToSet(b) {
      AscendingUnique(Sort(a), Sort(b));
    }
  }

  function CanonicalNode(n: ApprovedNode): ApprovedNode {
    n.(graph := n.graph.(dependsOn := Sort(n.graph.dependsOn)))
  }

  lemma CanonicalNodes(w: ApprovedWork, i: nat)
    requires i < |w.nodes|
    ensures |CanonicalWork(w).preimage.nodes| == |w.nodes|
    ensures CanonicalWork(w).preimage.nodes[i] == CanonicalNode(w.nodes[i])
  {
  }

  lemma NodesAgree(n: ApprovedNode, n': ApprovedNode)
    requires NoDuplicates(n.graph.dependsOn) && NoDuplicates(n'.graph.dependsOn)
    ensures CanonicalNode(n) == CanonicalNode(n') <==>
      && n'.content == n.content && n'.graph.id == n.graph.id
      && ToSet(n'.graph.dependsOn) == ToSet(n.graph.dependsOn)
  {
    SortedListsAgree(n.graph.dependsOn, n'.graph.dependsOn);
  }

  lemma CanonicalWorksAgree(w: ApprovedWork, w': ApprovedWork)
    requires RepeatsNoEdge(GraphOf(w)) && RepeatsNoEdge(GraphOf(w'))
    ensures CanonicalWork(w) == CanonicalWork(w') <==> SameWork(w, w')
  {
    var c, c' := CanonicalWork(w).preimage, CanonicalWork(w').preimage;
    forall i | 0 <= i < |w.nodes| && i < |w'.nodes|
      ensures c.nodes[i] == c'.nodes[i] <==>
        && w'.nodes[i].content == w.nodes[i].content && w'.nodes[i].graph.id == w.nodes[i].graph.id
        && ToSet(w'.nodes[i].graph.dependsOn) == ToSet(w.nodes[i].graph.dependsOn)
    {
      CanonicalNodes(w, i);
      CanonicalNodes(w', i);
      assert GraphOf(w)[i] == w.nodes[i].graph && GraphOf(w')[i] == w'.nodes[i].graph;
      NodesAgree(w.nodes[i], w'.nodes[i]);
    }
    if SameWork(w, w') {
      assert c.nodes == c'.nodes;
    }
  }

  /**
   Importing again: once a work has been imported, a well-formed work under its id is acknowledged if
   it is the same one, up to the order of dependency lists, and refused as conflicting otherwise.
   */
  lemma ReimportExactly(dbs: seq<Db>, calls: seq<Call>, i: nat, j: nat, w: ApprovedWork, w': ApprovedWork)
    requires ValidRun(dbs, calls) && i < j < |calls|
    requires calls[i] == ImportWorkCall(w) && w.workId !in dbs[i].plan.works && Apply(dbs[i], calls[i]).reply == Done
    requires calls[j] == ImportWorkCall(w') && w'.workId == w.workId && Importable(w')
    ensures Apply(dbs[j], calls[j]) == Step(dbs[j], if SameWork(w, w') then Done else Error(CONFLICTING_WORK))
  {
    DigestStored(dbs, calls, i, j, w);
    StoredWorkAnswers(dbs[j], w');
    CanonicalWorksAgree(w, w');
  }

  /** An imported work is stored by its digest, for good. */
  lemma DigestStored(dbs: seq<Db>, calls: seq<Call>, i: nat, j: nat, w: ApprovedWork)
    requires ValidRun(dbs, calls) && i < j < |calls|
    requires calls[i] == ImportWorkCall(w) && w.workId !in dbs[i].plan.works && Apply(dbs[i], calls[i]).reply == Done
    ensures w.workId in dbs[j].plan.works && dbs[j].plan.works[w.workId] == CanonicalWork(w)
    ensures RepeatsNoEdge(GraphOf(w))
  {
    NewWorkDone(dbs[i], w);
    assert w.workId in dbs[i + 1].plan.works && dbs[i + 1].plan.works[w.workId] == CanonicalWork(w);
    RunAdvances(dbs, calls, i + 1, j);
  }

  lemma NewWorkDone(db: Db, w: ApprovedWork)
    requires w.workId !in db.plan.works && Apply(db, ImportWorkCall(w)).reply == Done
    ensures Apply(db, ImportWorkCall(w)).db == InsertWork(db, w) && RepeatsNoEdge(GraphOf(w))
  {
    assert forall i :: 0 <= i < |w.nodes| ==> GraphOf(w)[i] == w.nodes[i].graph;
  }

  lemma StoredWorkAnswers(db: Db, w: ApprovedWork)
    requires w.workId in db.plan.works && Importable(w)
    ensures RepeatsNoEdge(GraphOf(w))
    ensures Apply(db, ImportWorkCall(w)) ==
      Step(db, if db.plan.works[w.workId] == CanonicalWork(w) then Done else Error(CONFLICTING_WORK))
  {
    ValidationExactly(w);
  }

  // ---- no stored node depends on itself

  /** No chain of stored dependencies leads from a node back to it. */
  ghost predicate NoStoredCycle(nodes: map<NodeKey, NodeRow>) {
    forall p :: Chain(nodes, p) && |p| > 1 ==> p[0] != p[|p| - 1]
  }

  lemma {:induction false} ChainInWork(nodes: map<NodeKey, NodeRow>, p: seq<NodeKey>, i: nat)
    requires Chain(nodes, p) && i < |p|
    ensures p[i].workId == p[0].workId && (i < |p| - 1 ==> p[i] in nodes)
  {
    if i > 0 {
      ChainInWork(nodes, p, i - 1);
      assert DependsOn(nodes, p[i - 1], p[i - 1 + 1]);
    }
    if i < |p| - 1 {
      assert DependsOn(nodes, p[i], p[i + 1]);
    }
  }

  function NodeIds(p: seq<NodeKey>): seq<Str> {
    seq(|p|, i requires 0 <= i < |p| => p[i].nodeId)
  }

  /** The rows of one work repeat the edges of a graph. */
  ghost predicate RowsOf(nodes: map<NodeKey, NodeRow>, workId: Str, g: seq<Graph.Node>) {
    forall k :: k in nodes && k.workId == workId ==>
      exists i :: 0 <= i < |g| && g[i].id == k.nodeId && g[i].dependsOn == nodes[k].dependsOn
  }

  lemma ChainIsWalk(nodes: map<NodeKey, NodeRow>, workId: Str, g: seq<Graph.Node>, p: seq<NodeKey>)
    requires RowsOf(nodes, workId, g) && Chain(nodes, p) && p[0].workId == workId
    ensures Graph.Walk(g, NodeIds(p))
  {
    var ids := NodeIds(p);
    forall i | 0 <= i < |ids| - 1
      ensures Graph.Edge(g, ids[i], ids[i + 1])
    {
      ChainInWork(nodes, p, i);
      assert DependsOn(nodes, p[i], p[i + 1]);
      var j :| 0 <= j < |g| && g[j].id == p[i].nodeId && g[j].dependsOn == nodes[p[i]].dependsOn;
    }
  }

  lemma ChainKept(nodes: map<NodeKey, NodeRow>, nodes': map<NodeKey, NodeRow>, p: seq<NodeKey>)
    requires Chain(nodes', p)
    requires forall k :: k in nodes' && k.workId == p[0].workId ==>
      k in nodes && nodes'[k].dependsOn == nodes[k].dependsOn
    ensures Chain(nodes, p)
  {
    forall i | 0 <= i < |p| - 1
      ensures DependsOn(nodes, p[i], p[i + 1])
    {
      ChainInWork(nodes', p, i);
      assert DependsOn(nodes', p[i], p[i + 1]);
    }
  }

  lemma InsertKeepsNoCycle(db: Db, work: ApprovedWork)
    requires Valid(db) && NoStoredCycle(db.plan.nodes) && work.workId !in db.plan.works && NoClosedWalk(GraphOf(work))
    ensures NoStoredCycle(InsertWork(db, work).plan.nodes)
  {
    var nodes, nodes', g := db.plan.nodes, InsertWork(db, work).plan.nodes, GraphOf(work);
    forall k
      ensures k in FreshRows(work.workId, g) <==> k.workId == work.workId && k.nodeId in Graph.Ids(g)
      ensures k in FreshRows(work.workId, g) ==>
        exists i :: 0 <= i < |g| && g[i].id == k.nodeId && FreshRows(work.workId, g)[k].dependsOn == g[i].dependsOn
    {
      FreshRowsContent(work.workId, g, k);
    }
    assert RowsOf(nodes', work.workId, g);
    forall p: seq<NodeKey> | Chain(nodes', p) && |p| > 1
      ensures p[0] != p[|p| - 1]
    {
      if p[0].workId == work.workId {
        ChainIsWalk(nodes', work.workId, g, p);
        assert NodeIds(p)[0] != NodeIds(p)[|p| - 1];
      } else {
        ChainKept(nodes, nodes', p);
      }
    }
  }

  /** What an import changes the store by has no closed walk. */
  lemma ImportedWalks(db: Db, call: Call)
    requires IsImport(call) && ApplyImport(db, call).db != db
    ensures NoClosedWalk(GraphOf(ImportedWork(call)))
  {
    AcyclicMeans(GraphOf(ImportedWork(call)));
  }

  lemma ImportKeepsNoCycle(db: Db, call: Call)
    requires Valid(db) && NoStoredCycle(db.plan.nodes) && IsImport(call)
    ensures NoStoredCycle(ApplyImport(db, call).db.plan.nodes)
  {
    var db' := ApplyImport(db, call).db;
    ImportChanges(db, call);
    if db' != db {
      ImportedWalks(db, call);
      InsertKeepsNoCycle(db, ImportedWork(call));
    }
  }

  /** Only imports bring in nodes. */
  lemma RowCallKeepsKeys(db: Db, call: Call)
    requires !IsImport(call)
    ensures ApplyRowCall(db, call).db.plan.nodes.Keys == db.plan.nodes.Keys
  {
    if !call.TransitionCall? && !call.CompleteCall? {
      RowCallNodes(db, call);
    }
  }

  lemma StepKeepsNoCycle(db: Db, call: Call)
    requires Valid(db) && NoStoredCycle(db.plan.nodes)
    ensures NoStoredCycle(Apply(db, call).db.plan.nodes)
  {
    if IsImport(call) {
      ImportKeepsNoCycle(db, call);
    } else {
      var nodes' := Apply(db, call).db.plan.nodes;
      RowCallKeepsKeys(db, call);
      StepAdvances(db, call);
      forall p: seq<NodeKey> | Chain(nodes', p) && |p| > 1
        ensures p[0] != p[|p| - 1]
      {
        assert forall k :: k in nodes' ==> k in nodes'.Keys;
        ChainKept(db.plan.nodes, nodes', p);
      }
    }
  }

  /** In every state of every run from the empty store no node depends on itself through any number of edges. */
  lemma {:induction false} NeverACycle(dbs: seq<Db>, calls: seq<Call>, i: nat)
    requires IsRun(dbs, calls) && dbs[0] == EmptyDb && i < |dbs|
    ensures Valid(dbs[i]) && NoStoredCycle(dbs[i].plan.nodes)
  {
    EmptyValid();
    if i > 0 {
      NeverACycle(dbs, calls, i - 1);
      RunKeepsValid(dbs, calls, i);
      StepKeepsNoCycle(dbs[i - 1], calls[i - 1]);
    } else {
      assert forall p :: Chain(EmptyDb.plan.nodes, p) && |p| > 1 ==> DependsOn(EmptyDb.plan.nodes, p[0], p[0 + 1]);
    }
  }

  // ---- so the frontier of a stored work is never empty too soon

  /** The listing shows each node of the work once. */
  ghost predicate ListsWork(db: Db, workId: Str, listed: seq<Str>) {
    NoDuplicates(listed) && forall n :: n in listed <==> n in ReadNodes(db, workId).nodes
  }

  /** The stored work as the graph that dispatch reads. */
  function StoredGraph(db: Db, workId: Str, listed: seq<Str>): seq<Graph.Node>
    requires forall n :: n in listed ==> n in ReadNodes(db, workId).nodes
  {
    DispatchService.ApprovedNodes(ReadNodes(db, workId), listed)
  }

  lemma WalkIsChain(db: Db, workId: Str, listed: seq<Str>, p: seq<Str>)
    requires ListsWork(db, workId, listed) && Graph.Walk(StoredGraph(db, workId, listed), p)
    ensures Chain(db.plan.nodes, seq(|p|, i requires 0 <= i < |p| => NodeKey(workId, p[i])))
  {
    var g := StoredGraph(db, workId, listed);
    var q := seq(|p|, i requires 0 <= i < |p| => NodeKey(workId, p[i]));
    forall i | 0 <= i < |q| - 1
      ensures DependsOn(db.plan.nodes, q[i], q[i + 1])
    {
      assert Graph.Edge(g, p[i], p[i + 1]);
      var j :| 0 <= j < |g| && g[j].id == p[i] && p[i + 1] in g[j].dependsOn;
      assert listed[j] in listed;
    }
  }

  lemma StoredIds(db: Db, workId: Str, listed: seq<Str>)
    requires ListsWork(db, workId, listed)
    ensures Graph.Ids(StoredGraph(db, workId, listed)) == ReadNodes(db, workId).nodes.Keys
    ensures Graph.UniqueIds(StoredGraph(db, workId, listed))
  {
    var g := StoredGraph(db, workId, listed);
    forall n
      ensures n in Graph.Ids(g) <==> n in listed
    {
      if n in listed {
        var i :| 0 <= i < |listed| && listed[i] == n;
        assert g[i].id == n;
      }
    }
  }

  lemma StoredResolved(db: Db, workId: Str, listed: seq<Str>)
    requires Valid(db) && ListsWork(db, workId, listed)
    ensures Graph.Resolved(StoredGraph(db, workId, listed))
  {
    var g := StoredGraph(db, workId, listed);
    StoredIds(db, workId, listed);
    forall i, d | 0 <= i < |g| && d in g[i].dependsOn
      ensures d in Graph.Ids(g)
    {
      assert listed[i] in listed;
      assert NodeKey(workId, d) in db.plan.nodes;
    }
  }

  lemma StoredWalks(db: Db, workId: Str, listed: seq<Str>)
    requires NoStoredCycle(db.plan.nodes) && ListsWork(db, workId, listed)
    ensures NoClosedWalk(StoredGraph(db, workId, listed))
  {
    forall p: seq<Str> | Graph.Walk(StoredGraph(db, workId, listed), p) && |p| > 1
      ensures p[0] != p[|p| - 1]
    {
      WalkIsChain(db, workId, listed, p);
    }
  }

  lemma StoredGraphAcyclic(db: Db, workId: Str, listed: seq<Str>)
    requires Valid(db) && NoStoredCycle(db.plan.nodes) && ListsWork(db, workId, listed)
    ensures Graph.WellFormed(StoredGraph(db, workId, listed)) && Graph.Acyclic(StoredGraph(db, workId, listed))
    ensures Graph.Ids(StoredGraph(db, workId, listed)) == ReadNodes(db, workId).nodes.Keys
  {
    StoredIds(db, workId, listed);
    StoredResolved(db, workId, listed);
    StoredWalks(db, workId, listed);
    AcyclicMeans(StoredGraph(db, workId, listed));
  }

  /** In every run, as long as a node of a work has not passed, the frontier of the work is not empty. */
  lemma StoredFrontierNonEmpty(dbs: seq<Db>, calls: seq<Call>, i: nat, workId: Str, listed: seq<Str>)
    requires IsRun(dbs, calls) && dbs[0] == EmptyDb && i < |dbs| && ListsWork(dbs[i], workId, listed)
    requires exists k :: k in dbs[i].plan.nodes && k.workId == workId && !dbs[i].plan.nodes[k].state.Passed?
    ensures Frontier.FrontierIds(
      StoredGraph(dbs[i], workId, listed), DispatchService.PassedIds(ReadNodes(dbs[i], workId))) != {}
  {
    var s := ReadNodes(dbs[i], workId);
    NeverACycle(dbs, calls, i);
    StoredGraphAcyclic(dbs[i], workId, listed);
    var k :| k in dbs[i].plan.nodes && k.workId == workId && !dbs[i].plan.nodes[k].state.Passed?;
    assert k.nodeId in s.nodes && k.nodeId !in DispatchService.PassedIds(s);
    Frontier.FrontierNonEmpty(StoredGraph(dbs[i], workId, listed), DispatchService.PassedIds(s));
  }

  /** Every stored work can come to its end: its rounds pass all nodes if and only if none has a blocker. */
  lemma StoredWorkEnds(dbs: seq<Db>, calls: seq<Call>, i: nat, workId: Str, listed: seq<Str>, blocked: set<Str>)
    requires IsRun(dbs, calls) && dbs[0] == EmptyDb && i < |dbs| && ListsWork(dbs[i], workId, listed)
    ensures var g := StoredGraph(dbs[i], workId, listed);
      && Graph.TopologicalOrder(g, Frontier.PassOrder(g, |g|))
      && (ToSet(BlockedFrontier.SelectedOrder(g, blocked, |g|)) == Graph.Ids(g) <==> Graph.Ids(g) !! blocked)
  {
    NeverACycle(dbs, calls, i);
    StoredGraphAcyclic(dbs[i], workId, listed);
    Frontier.RoundsFinish(StoredGraph(dbs[i], workId, listed));
    BlockedFrontier.AllPassExactly(StoredGraph(dbs[i], workId, listed), blocked);
  }
}
