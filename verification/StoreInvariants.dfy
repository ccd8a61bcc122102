/** What every transaction of the store keeps. */
module StoreInvariants {
  import opened Text
  import opened Wrappers
  import opened Lifecycle
  import opened StoreModel
  import Graph

  /** A node's version counts its transitions. */
  ghost predicate VersionsCount(nodes: map<NodeKey, NodeRow>) {
    forall k :: k in nodes ==> nodes[k].version == 1 + Position(nodes[k].state)
  }

  /** Dependencies resolve within their work. */
  ghost predicate DependenciesResolve(nodes: map<NodeKey, NodeRow>) {
    forall k, d :: k in nodes && d in nodes[k].dependsOn ==> NodeKey(k.workId, d) in nodes
  }

  ghost predicate NodesHaveWork(nodes: map<NodeKey, NodeRow>, works: map<Str, Digest<ApprovedWork>>) {
    forall k :: k in nodes ==> k.workId in works
  }

  ghost predicate AttemptsHaveNode(attempts: map<Str, AttemptRow>, nodes: map<NodeKey, NodeRow>) {
    forall a :: a in attempts ==> attempts[a].node in nodes
  }

  /** A stored lease carries the generation its attempt's counter shows. */
  ghost predicate LeasesCurrent(leases: map<Str, LeaseRow>, attempts: map<Str, AttemptRow>) {
    forall a :: a in leases ==> a in attempts && leases[a].generation == attempts[a].leaseGeneration
  }

  /** Accepted results belong to their attempt and name versions and generations that existed. */
  ghost predicate ResultsConsistent(
    accepted: map<Str, ResultRow>, attempts: map<Str, AttemptRow>, nodes: map<NodeKey, NodeRow>)
  {
    forall a :: a in accepted ==>
      && a in attempts
      && accepted[a].attemptId == a
      && accepted[a].node == attempts[a].node
      && accepted[a].node in nodes
      && 1 <= accepted[a].generation <= attempts[a].leaseGeneration
      && accepted[a].expectedNodeVersion <= nodes[accepted[a].node].version
  }

  /** Authorizations repeat the identity of their accepted result. */
  ghost predicate AuthorizationsConsistent(
    authorizations: map<Str, AuthorizationRow>, accepted: map<Str, ResultRow>)
  {
    forall a :: a in authorizations ==>
      && a in accepted
      && authorizations[a] == AuthorizationRow(accepted[a].node, accepted[a].resultId, accepted[a].expectedNodeVersion)
  }

  ghost predicate Valid(db: Db) {
    && VersionsCount(db.plan.nodes)
    && DependenciesResolve(db.plan.nodes)
    && NodesHaveWork(db.plan.nodes, db.plan.works)
    && AttemptsHaveNode(db.runs.attempts, db.plan.nodes)
    && db.runs.routing.Keys == db.runs.attempts.Keys
    && LeasesCurrent(db.runs.leases, db.runs.attempts)
    && ResultsConsistent(db.results.accepted, db.runs.attempts, db.plan.nodes)
    && AuthorizationsConsistent(db.results.authorizations, db.results.accepted)
  }

  lemma EmptyValid()
    ensures Valid(EmptyDb)
  {
  }

  // ---- how tables may grow

  /** No node is removed, loses its dependency list or goes back in version. */
  ghost predicate NodesAdvance(nodes: map<NodeKey, NodeRow>, nodes': map<NodeKey, NodeRow>) {
    forall k :: k in nodes ==>
      k in nodes' && nodes'[k].version >= nodes[k].version && nodes'[k].dependsOn == nodes[k].dependsOn
  }

  /** No attempt is removed, changes node or goes back in lease generation. */
  ghost predicate AttemptsAdvance(attempts: map<Str, AttemptRow>, attempts': map<Str, AttemptRow>) {
    forall a :: a in attempts ==>
      a in attempts' && attempts'[a].node == attempts[a].node
        && attempts'[a].leaseGeneration >= attempts[a].leaseGeneration
  }

  lemma ResultsStayConsistent(
    accepted: map<Str, ResultRow>, attempts: map<Str, AttemptRow>, nodes: map<NodeKey, NodeRow>,
    attempts': map<Str, AttemptRow>, nodes': map<NodeKey, NodeRow>)
    requires ResultsConsistent(accepted, attempts, nodes)
    requires AttemptsAdvance(attempts, attempts') && NodesAdvance(nodes, nodes')
    ensures ResultsConsistent(accepted, attempts', nodes')
  {
  }

  // ---- importing

  lemma {:induction false} FreshRowsContent(workId: Str, g: seq<Graph.Node>, k: NodeKey)
    ensures k in FreshRows(workId, g) <==> k.workId == workId && k.nodeId in Graph.Ids(g)
    ensures k in FreshRows(workId, g) ==>
      exists i :: 0 <= i < |g| && g[i].id == k.nodeId && FreshRows(workId, g)[k] == NodeRow(Pending, 1, g[i].dependsOn)
  {
    if |g| > 0 {
      var rest := g[..|g| - 1];
      FreshRowsContent(workId, rest, k);
      SnocIds(g, k.nodeId);
      if k in FreshRows(workId, rest) {
        var i :| 0 <= i < |rest| && rest[i].id == k.nodeId
          && FreshRows(workId, rest)[k] == NodeRow(Pending, 1, rest[i].dependsOn);
        assert g[i] == rest[i];
      }
    }
  }

  lemma SnocIds(g: seq<Graph.Node>, x: Str)
    requires |g| > 0
    ensures x in Graph.Ids(g) <==> x == g[|g| - 1].id || x in Graph.Ids(g[..|g| - 1])
  {
    var rest := g[..|g| - 1];
    if x in Graph.Ids(g) && x != g[|g| - 1].id {
      var i :| 0 <= i < |g| && g[i].id == x;
      assert rest[i].id == x;
    }
    if x in Graph.Ids(rest) {
      var i :| 0 <= i < |rest| && rest[i].id == x;
      assert g[i].id == x;
    }
  }

  lemma FreshRowsAreFresh(db: Db, work: ApprovedWork)
    requires Valid(db) && work.workId !in db.plan.works && EdgesOk(GraphOf(work))
    ensures var added := FreshRows(work.workId, GraphOf(work));
      && VersionsCount(added) && DependenciesResolve(added)
      && (forall k :: k in added ==> k.workId == work.workId && k !in db.plan.nodes && added[k].state == Pending)
  {
    var g := GraphOf(work);
    var added := FreshRows(work.workId, g);
    forall k | k in added
      ensures k.workId == work.workId && k !in db.plan.nodes && added[k].state == Pending && added[k].version == 1
    {
      FreshRowsContent(work.workId, g, k);
    }
    forall k, d | k in added && d in added[k].dependsOn
      ensures NodeKey(k.workId, d) in added
    {
      FreshRowsContent(work.workId, g, k);
      var i :| 0 <= i < |g| && g[i].id == k.nodeId && added[k] == NodeRow(Pending, 1, g[i].dependsOn);
      assert NodeEdgesOk(g[i], Graph.Ids(g));
      FreshRowsContent(work.workId, g, NodeKey(k.workId, d));
    }
  }

  lemma MergedDependenciesResolve(nodes: map<NodeKey, NodeRow>, added: map<NodeKey, NodeRow>)
    requires DependenciesResolve(nodes) && DependenciesResolve(added)
    ensures DependenciesResolve(nodes + added)
  {
    forall k, d | k in nodes + added && d in (nodes + added)[k].dependsOn
      ensures NodeKey(k.workId, d) in nodes + added
    {
      if k in added {
        assert NodeKey(k.workId, d) in added;
      } else {
        assert NodeKey(k.workId, d) in nodes;
      }
    }
  }

  /** Importing a validated new work adds pending nodes and touches no other row. */
  lemma InsertWorkKeeps(db: Db, work: ApprovedWork)
    requires Valid(db) && work.workId !in db.plan.works && EdgesOk(GraphOf(work))
    ensures Valid(InsertWork(db, work))
    ensures OnlyAddsPending(db.plan.nodes, InsertWork(db, work).plan.nodes)
  {
    var db' := InsertWork(db, work);
    var added := FreshRows(work.workId, GraphOf(work));
    FreshRowsAreFresh(db, work);
    MergedDependenciesResolve(db.plan.nodes, added);
    ResultsStayConsistent(db.results.accepted, db.runs.attempts, db.plan.nodes, db'.runs.attempts, db'.plan.nodes);
  }

  ghost function ImportedWork(call: Call): ApprovedWork
    requires IsImport(call)
  {
    if call.ImportWorkCall? then call.work else call.input.work
  }

  /** What an import call that changed the database did: it inserted all its rows, under free keys. */
  ghost predicate Inserted(db: Db, call: Call, db': Db)
    requires IsImport(call)
  {
    var work := ImportedWork(call);
    && work.workId !in db.plan.works && EdgesOk(GraphOf(work))
    && match call
       case ImportWorkCall(_) => db' == InsertWork(db, work)
       case ImportDirectTaskCall(input) =>
         && db' == InsertDirectTask(db, input)
         && input.submissionId !in db.intake.submissions
         && (input.scopeKey.Some? ==> input.scopeKey.value !in db.intake.idempotency)
  }

  /** An import inserts all of its rows or none. */
  lemma ImportChanges(db: Db, call: Call)
    requires IsImport(call)
    ensures ApplyImport(db, call).db == db || Inserted(db, call, ApplyImport(db, call).db)
  {
  }

  lemma InsertedKeeps(db: Db, call: Call, db': Db)
    requires Valid(db) && IsImport(call) && Inserted(db, call, db')
    ensures Valid(db')
    ensures OnlyAddsPending(db.plan.nodes, db'.plan.nodes)
  {
    InsertWorkKeeps(db, ImportedWork(call));
  }

  /** Every node row is new and pending, or as before. */
  ghost predicate OnlyAddsPending(nodes: map<NodeKey, NodeRow>, nodes': map<NodeKey, NodeRow>) {
    && (forall k :: k in nodes ==> k in nodes' && nodes'[k] == nodes[k])
    && (forall k :: k in nodes' && k !in nodes ==> nodes'[k].state == Pending)
  }

  lemma ImportKeeps(db: Db, call: Call)
    requires Valid(db) && IsImport(call)
    ensures Valid(ApplyImport(db, call).db)
  {
    var db' := ApplyImport(db, call).db;
    ImportChanges(db, call);
    if db' != db {
      InsertedKeeps(db, call, db');
    }
  }

  // ---- the other calls

  lemma NodeUpdateKeeps(db: Db, key: NodeKey, row: NodeRow)
    requires Valid(db) && key in db.plan.nodes
    requires row.version == 1 + Position(row.state) >= db.plan.nodes[key].version
      && row.dependsOn == db.plan.nodes[key].dependsOn
    ensures Valid(db.(plan := db.plan.(nodes := db.plan.nodes[key := row])))
  {
    var nodes' := db.plan.nodes[key := row];
    forall k, d | k in nodes' && d in nodes'[k].dependsOn
      ensures NodeKey(k.workId, d) in nodes'
    {
      assert NodeKey(k.workId, d) in db.plan.nodes;
    }
    ResultsStayConsistent(db.results.accepted, db.runs.attempts, db.plan.nodes, db.runs.attempts, nodes');
  }

  /** An attempt row may change in state, job id and generation, the last only upwards. */
  lemma AttemptUpdateKeeps(db: Db, a: Str, row: AttemptRow)
    requires Valid(db) && a in db.runs.attempts && row.node == db.runs.attempts[a].node
    requires row.leaseGeneration >= db.runs.attempts[a].leaseGeneration
    requires a in db.runs.leases ==> row.leaseGeneration == db.runs.attempts[a].leaseGeneration
    ensures Valid(db.(runs := db.runs.(attempts := db.runs.attempts[a := row])))
  {
    ResultsStayConsistent(db.results.accepted, db.runs.attempts, db.plan.nodes, db.runs.attempts[a := row],
      db.plan.nodes);
  }

  lemma AttemptStateKeeps(db: Db, a: Str, state: AttemptState)
    requires Valid(db)
    ensures Valid(db.(runs := db.runs.(attempts := SetAttemptState(db.runs.attempts, a, state))))
  {
    if a in db.runs.attempts {
      AttemptUpdateKeeps(db, a, db.runs.attempts[a].(state := state));
    }
  }

  lemma TransitionKeeps(db: Db, key: NodeKey, expectedVersion: int, newState: NodeState)
    requires Valid(db)
    ensures Valid(TransitionNode(db, key, expectedVersion, newState).db)
  {
    var step := TransitionNode(db, key, expectedVersion, newState);
    if step.reply.GotNode? {
      TransitionsAdvanceByOne(db.plan.nodes[key].state, newState);
      NodeUpdateKeeps(db, key, step.reply.node);
    }
  }

  lemma CreateAttemptKeeps(db: Db, key: NodeKey, a: Str, number: nat, job: Str, routing: Option<Routing>)
    requires Valid(db)
    ensures Valid(CreateAttempt(db, key, a, number, job, routing).db)
  {
    var db' := CreateAttempt(db, key, a, number, job, routing).db;
    if db' != db {
      ResultsStayConsistent(db.results.accepted, db.runs.attempts, db.plan.nodes, db'.runs.attempts, db.plan.nodes);
    }
  }

  lemma ClaimKeeps(db: Db, a: Str, owner: Str, token: Str, expiresAt: int, now: int)
    requires Valid(db)
    ensures Valid(ClaimLease(db, a, owner, token, expiresAt, now).db)
  {
    var step := ClaimLease(db, a, owner, token, expiresAt, now);
    if step.reply.Claimed? {
      AttemptUpdateKeeps(db, a, step.db.runs.attempts[a]);
    }
  }

  lemma DropLeaseKeeps(db: Db, a: Str)
    requires Valid(db)
    ensures Valid(DropLease(db, a))
  {
    AttemptStateKeeps(db, a, Created);
  }

  lemma RecordResultKeeps(db: Db, a: Str, row: ResultRow)
    requires Valid(db) && a in db.runs.leases && a !in db.results.accepted && row.attemptId == a
    requires row.node == db.runs.attempts[a].node && row.node in db.plan.nodes
    requires row.expectedNodeVersion == db.plan.nodes[row.node].version
    requires 1 <= row.generation == db.runs.leases[a].generation
    ensures var auth := AuthorizationRow(row.node, row.resultId, row.expectedNodeVersion);
      Valid(db.(results := db.results.(
        accepted := db.results.accepted[a := row], authorizations := db.results.authorizations[a := auth])))
  {
  }

  lemma AcceptKeeps(db: Db, r: WorkerResult, now: int)
    requires Valid(db)
    ensures Valid(AcceptResult(db, r, now).db)
  {
    if AcceptResult(db, r, now).db != db {
      RecordResultKeeps(db, r.row.attemptId, r.row);
      var auth := AuthorizationRow(r.row.node, r.row.resultId, r.row.expectedNodeVersion);
      var db1 := db.(results := db.results.(
        accepted := db.results.accepted[r.row.attemptId := r.row],
        authorizations := db.results.authorizations[r.row.attemptId := auth]));
      AttemptStateKeeps(db1, r.row.attemptId, ResultAccepted);
    }
  }

  lemma CompleteKeeps(db: Db, key: NodeKey, a: Str)
    requires Valid(db)
    ensures Valid(CompleteAuthorizedResult(db, key, a).db)
  {
    var step := CompleteAuthorizedResult(db, key, a);
    if step.reply.GotNode? {
      TransitionsAdvanceByOne(db.plan.nodes[key].state, step.reply.node.state);
      NodeUpdateKeeps(db, key, step.reply.node);
      AttemptStateKeeps(db.(plan := db.plan.(nodes := db.plan.nodes[key := step.reply.node])), a, Completed);
    }
  }

  lemma SetJobIdKeeps(db: Db, a: Str, job: Str)
    requires Valid(db)
    ensures Valid(SetJobId(db, a, job).db)
  {
    if a in db.runs.attempts {
      AttemptUpdateKeeps(db, a, db.runs.attempts[a].(jobId := job));
    }
  }

  lemma RenewKeeps(db: Db, a: Str, owner: Str, token: Str, expiresAt: int, now: int)
    requires Valid(db)
    ensures Valid(RenewLease(db, a, owner, token, expiresAt, now).db)
  {
  }

  lemma ReleaseKeeps(db: Db, a: Str, owner: Str, token: Str)
    requires Valid(db)
    ensures Valid(ReleaseLease(db, a, owner, token).db)
  {
    DropLeaseKeeps(db, a);
  }

  lemma ReclaimKeeps(db: Db, a: Str, owner: Str, now: int)
    requires Valid(db)
    ensures Valid(ReclaimLease(db, a, owner, now).db)
  {
    DropLeaseKeeps(db, a);
  }

  lemma ProofKeeps(db: Db, a: Str, proof: ProofRow)
    requires Valid(db)
    ensures Valid(RecordProofResult(db, a, proof).db)
  {
  }

  lemma LeaseCallKeeps(db: Db, call: Call)
    requires Valid(db) && IsLeaseCall(call)
    ensures Valid(ApplyLeaseCall(db, call).db)
  {
    match call
    case ClaimCall(a, owner, token, expiresAt, now) => ClaimKeeps(db, a, owner, token, expiresAt, now);
    case RenewCall(a, owner, token, expiresAt, now) => RenewKeeps(db, a, owner, token, expiresAt, now);
    case ReleaseCall(a, owner, token) => ReleaseKeeps(db, a, owner, token);
    case ReclaimCall(a, owner, now) => ReclaimKeeps(db, a, owner, now);
  }

  lemma OtherCallKeeps(db: Db, call: Call)
    requires Valid(db) && !IsImport(call) && !IsLeaseCall(call)
    ensures Valid(ApplyOtherCall(db, call).db)
  {
    match call
    case TransitionCall(key, version, state) => TransitionKeeps(db, key, version, state);
    case CreateAttemptCall(key, a, number, job, routing) => CreateAttemptKeeps(db, key, a, number, job, routing);
    case SetJobIdCall(a, job) => SetJobIdKeeps(db, a, job);
    case AcceptCall(result, now) => AcceptKeeps(db, result, now);
    case CompleteCall(key, a) => CompleteKeeps(db, key, a);
    case ProofCall(a, proof) => ProofKeeps(db, a, proof);
  }

  /** Every call of the store keeps every invariant, whatever its arguments. */
  lemma ApplyKeepsValid(db: Db, call: Call)
    requires Valid(db)
    ensures Valid(Apply(db, call).db)
  {
    if IsImport(call) {
      ImportKeeps(db, call);
    } else if IsLeaseCall(call) {
      LeaseCallKeeps(db, call);
    } else {
      OtherCallKeeps(db, call);
    }
  }

  // ---- works of one node

  lemma LoneNodeAcyclic(g: seq<Graph.Node>)
    requires |g| == 1 && g[0].dependsOn == []
    ensures Graph.Acyclic(g) && EdgesOk(g)
  {
    forall p: seq<Str> | |p| > 1
      ensures !Graph.Walk(g, p)
    {
      assert !Graph.Edge(g, p[0], p[0 + 1]);
    }
  }

  lemma LoneNodeHasNoEdges(g: seq<Graph.Node>)
    requires |g| == 1 && EdgesOk(g)
    ensures g[0].dependsOn == []
  {
    FirstIsMember(g[0].dependsOn);
    assert NodeEdgesOk(g[0], Graph.Ids(g));
    assert forall x :: x in Graph.Ids(g) ==> x == g[0].id;
  }

  lemma FirstIsMember(s: seq<Str>)
    ensures s == [] || exists x :: x in s
  {
    assert |s| > 0 ==> s[0] in s;
  }

  /** A work of one node without edges passes the checks exactly if its two ids have an allowed length. */
  lemma LoneWorkChecks(work: ApprovedWork)
    requires |work.nodes| == 1 && work.nodes[0].graph.dependsOn == []
    ensures ValidateWork(work).None? <==>
      IsNonEmptyString(work.workId, MAX_ID_LENGTH) && IsNonEmptyString(work.nodes[0].graph.id, MAX_ID_LENGTH)
  {
    var g := GraphOf(work);
    assert g == [work.nodes[0].graph];
    LoneNodeAcyclic(g);
    assert CheckNodes(g[1..], {} + {g[0].id}).None?;
    assert CheckNodes(g, {}).None? <==> IsNonEmptyString(g[0].id, MAX_ID_LENGTH);
  }

  lemma LoneFreshRows(workId: Str, node: Graph.Node)
    ensures FreshRows(workId, [node]) == map[NodeKey(workId, node.id) := NodeRow(Pending, 1, node.dependsOn)]
  {
    assert [node][..0] == [];
  }
}
