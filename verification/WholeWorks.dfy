/**
 From the import to the end: dispatch passes and workers that report success bring every imported
 work to its end, in as many rounds as it has nodes.
 */
module WholeWorks {
  import opened Text
  import opened Wrappers
  import opened Lifecycle
  import opened StoreModel
  import opened StoreInvariants
  import opened StoreRuns
  import opened DispatchSafety
  import opened ReconcileModel
  import opened DispatchService
  import opened DispatchLaws
  import opened StoredGraphs
  import opened ClaimLoop
  import BlockedDispatch
  import Frontier = ReadyFrontier
  import Graph

  // ---- one worker

  /** Under what a worker claims an attempt, and when and how it reports. */
  datatype Hand = Hand(owner: Str, token: Str, issuedAt: int, expiresAt: int, resultId: Str, reportedAt: int)

  predicate Works(h: Hand) {
    && IsNonEmptyString(h.owner, MAX_OWNER_LENGTH) && IsNonEmptyString(h.token, MAX_TOKEN_LENGTH)
    && IsNonEmptyString(h.resultId, MAX_RESULT_ID_LENGTH) && h.reportedAt < h.expiresAt
  }

  ghost predicate AllWork(hands: Str -> Hand) {
    forall n :: Works(hands(n))
  }

  /** Ids of which the store accepts the derived ones. */
  predicate ShortIds(key: NodeKey) {
    |key.workId| > 0 && |key.nodeId| > 0 && |JobOf(key)| <= MAX_ID_LENGTH
  }

  function PassingResult(key: NodeKey, version: int, h: Hand): WorkerResult {
    WorkerResult(ResultRow(h.resultId, AttemptOf(key), key, Pass, [0x52], None, None, 1, version), h.token)
  }

  /** The worker starts the node, claims its attempt, reports that it passed, and completes it. */
  function WorkerCalls(key: NodeKey, version: int, h: Hand): (calls: seq<Call>)
    ensures RowCalls(calls)
  {
    [TransitionCall(key, version, InProgress),
     ClaimCall(AttemptOf(key), h.owner, h.token, h.expiresAt, h.issuedAt),
     AcceptCall(PassingResult(key, version + 1, h), h.reportedAt),
     CompleteCall(key, AttemptOf(key))]
  }

  function Worked(db: Db, key: NodeKey, h: Hand): Db
    requires key in db.plan.nodes
  {
    Run(db, WorkerCalls(key, db.plan.nodes[key].version, h))
  }

  /** The node is ready and its own new attempt has not been touched. */
  ghost predicate Startable(db: Db, key: NodeKey) {
    var a := AttemptOf(key);
    && key in db.plan.nodes && db.plan.nodes[key].state.Ready?
    && a in db.runs.attempts && db.runs.attempts[a] == AttemptRow(key, 1, Created, JobOf(key), 0)
    && a !in db.runs.leases && a !in db.results.accepted && a !in db.results.authorizations
  }

  /** Nothing about the node or its attempt has changed. */
  ghost predicate Aside(db: Db, db': Db, key: NodeKey) {
    var a := AttemptOf(key);
    && (key in db'.plan.nodes <==> key in db.plan.nodes)
    && (key in db.plan.nodes ==> db'.plan.nodes[key] == db.plan.nodes[key])
    && (a in db'.runs.attempts <==> a in db.runs.attempts)
    && (a in db.runs.attempts ==> db'.runs.attempts[a] == db.runs.attempts[a])
    && (a in db'.runs.leases <==> a in db.runs.leases)
    && (a in db'.results.accepted <==> a in db.results.accepted)
    && (a in db'.results.authorizations <==> a in db.results.authorizations)
  }

  lemma AsideOn(db: Db, db1: Db, db2: Db, key: NodeKey)
    requires Aside(db, db1, key) && Aside(db1, db2, key)
    ensures Aside(db, db2, key)
  {
  }

  lemma StartAside(db: Db, key: NodeKey, version: int, other: NodeKey)
    requires other != key
    ensures Aside(db, TransitionNode(db, key, version, InProgress).db, other)
  {
  }

  lemma ClaimAside(db: Db, a: Str, owner: Str, token: Str, expiresAt: int, now: int, other: NodeKey)
    requires AttemptOf(other) != a
    ensures Aside(db, ClaimLease(db, a, owner, token, expiresAt, now).db, other)
  {
  }

  lemma AcceptAside(db: Db, r: WorkerResult, now: int, other: NodeKey)
    requires AttemptOf(other) != r.row.attemptId
    ensures Aside(db, AcceptResult(db, r, now).db, other)
  {
  }

  lemma CompleteAside(db: Db, key: NodeKey, a: Str, other: NodeKey)
    requires other != key && AttemptOf(other) != a
    ensures Aside(db, CompleteAuthorizedResult(db, key, a).db, other)
  {
  }

  /** A worker's call for another node. */
  predicate ForAnother(call: Call, other: NodeKey) {
    match call
    case TransitionCall(key, _, newState) => key != other && newState.InProgress?
    case ClaimCall(a, _, _, _, _) => a != AttemptOf(other)
    case AcceptCall(r, _) => r.row.attemptId != AttemptOf(other)
    case CompleteCall(key, a) => key != other && a != AttemptOf(other)
    case _ => false
  }

  lemma CallAside(db: Db, call: Call, other: NodeKey)
    requires ForAnother(call, other)
    ensures !IsImport(call) && Aside(db, ApplyRowCall(db, call).db, other)
  {
    match call
    case TransitionCall(key, version, _) => StartAside(db, key, version, other);
    case ClaimCall(a, owner, token, expiresAt, now) => ClaimAside(db, a, owner, token, expiresAt, now, other);
    case AcceptCall(r, now) => AcceptAside(db, r, now, other);
    case CompleteCall(key, a) => CompleteAside(db, key, a, other);
  }

  lemma {:induction false} CallsAside(db: Db, calls: seq<Call>, other: NodeKey)
    requires RowCalls(calls) && forall i :: 0 <= i < |calls| ==> ForAnother(calls[i], other)
    ensures Aside(db, Run(db, calls), other)
    decreases |calls|
  {
    if |calls| > 0 {
      var db1 := ApplyRowCall(db, calls[0]).db;
      CallAside(db, calls[0], other);
      CallsAside(db1, calls[1..], other);
      AsideOn(db, db1, Run(db1, calls[1..]), other);
    }
  }

  /** A worker leaves every other node aside. */
  lemma WorkAside(db: Db, key: NodeKey, h: Hand, other: NodeKey)
    requires key in db.plan.nodes && other != key && AttemptOf(other) != AttemptOf(key)
    ensures Aside(db, Worked(db, key, h), other)
  {
    CallsAside(db, WorkerCalls(key, db.plan.nodes[key].version, h), other);
  }

  /** What every step of a worker keeps. */
  ghost predicate Kept(db: Db, db': Db) {
    && Valid(db') && db'.plan.works == db.plan.works && db'.plan.nodes.Keys == db.plan.nodes.Keys
    && (forall k :: k in db.plan.nodes ==> db'.plan.nodes[k].dependsOn == db.plan.nodes[k].dependsOn)
    && AttemptsTidy(db')
  }

  lemma KeptOn(db: Db, db1: Db, db2: Db)
    requires Kept(db, db1) && Kept(db1, db2)
    ensures Kept(db, db2)
  {
    assert forall k :: k in db.plan.nodes ==> k in db.plan.nodes.Keys && k in db1.plan.nodes;
  }

  predicate WorkerCall(call: Call) {
    call.TransitionCall? || call.ClaimCall? || call.AcceptCall? || call.CompleteCall?
  }

  lemma StepKept(db: Db, call: Call)
    requires Valid(db) && AttemptsTidy(db)
    requires WorkerCall(call)
    ensures Kept(db, ApplyRowCall(db, call).db)
  {
    ApplyKeepsValid(db, call);
    StepAdvances(db, call);
    CallKeepsOneAttempt(db, call);
    RowCallKeepsKeys(db, call);
    StepKeepsWorks(db, call);
  }

  lemma StepKeepsWorks(db: Db, call: Call)
    requires WorkerCall(call)
    ensures ApplyRowCall(db, call).db.plan.works == db.plan.works
    ensures ApplyRowCall(db, call).db.runs.routing == db.runs.routing
    ensures ApplyRowCall(db, call).db.runs.attempts.Keys == db.runs.attempts.Keys
  {
    match call
    case AcceptCall(r, now) => AcceptKeepsKeys(db, r, now);
    case CompleteCall(key, a) => CompleteKeepsKeys(db, key, a);
    case _ =>
  }

  lemma AcceptKeepsKeys(db: Db, r: WorkerResult, now: int)
    ensures var db' := AcceptResult(db, r, now).db;
      db'.plan == db.plan && db'.runs.routing == db.runs.routing && db'.runs.attempts.Keys == db.runs.attempts.Keys
  {
  }

  lemma CompleteKeepsKeys(db: Db, key: NodeKey, a: Str)
    ensures var db' := CompleteAuthorizedResult(db, key, a).db;
      && db'.plan.works == db.plan.works && db'.runs.routing == db.runs.routing
      && db'.runs.attempts.Keys == db.runs.attempts.Keys
  {
  }

  lemma {:induction false} CallsKept(db: Db, calls: seq<Call>)
    requires Valid(db) && AttemptsTidy(db) && RowCalls(calls)
    requires forall i :: 0 <= i < |calls| ==> WorkerCall(calls[i])
    ensures Kept(db, Run(db, calls))
    decreases |calls|
  {
    if |calls| > 0 {
      var db1 := ApplyRowCall(db, calls[0]).db;
      StepKept(db, calls[0]);
      CallsKept(db1, calls[1..]);
      KeptOn(db, db1, Run(db1, calls[1..]));
    }
  }

  lemma WorkKept(db: Db, key: NodeKey, h: Hand)
    requires Valid(db) && AttemptsTidy(db) && key in db.plan.nodes
    ensures Kept(db, Worked(db, key, h))
  {
    CallsKept(db, WorkerCalls(key, db.plan.nodes[key].version, h));
  }

  lemma StartedAndClaimed(db: Db, key: NodeKey, h: Hand)
    requires Startable(db, key) && ShortIds(key) && Works(h)
    ensures var row := db.plan.nodes[key];
      var started := ApplyRowCall(db, TransitionCall(key, row.version, InProgress)).db;
      var db' := ApplyRowCall(started, ClaimCall(AttemptOf(key), h.owner, h.token, h.expiresAt, h.issuedAt)).db;
      && key in db'.plan.nodes && db'.plan.nodes[key] == NodeRow(InProgress, row.version + 1, row.dependsOn)
      && AttemptOf(key) in db'.runs.attempts && db'.runs.attempts[AttemptOf(key)].node == key
      && AttemptOf(key) in db'.runs.leases
      && db'.runs.leases[AttemptOf(key)] == LeaseRow(1, h.owner, Sha256(h.token), h.issuedAt, h.expiresAt)
      && db'.results == db.results
  {
    assert |AttemptOf(key)| > 0 && |JobOf(key)| == |AttemptOf(key)| + 6;
  }

  lemma ReportedAndCompleted(db: Db, key: NodeKey, version: int, dependsOn: seq<Str>, h: Hand)
    requires ShortIds(key) && Works(h) && version >= 1
    requires key in db.plan.nodes && db.plan.nodes[key] == NodeRow(InProgress, version, dependsOn)
    requires AttemptOf(key) in db.runs.attempts && db.runs.attempts[AttemptOf(key)].node == key
    requires AttemptOf(key) in db.runs.leases
    requires db.runs.leases[AttemptOf(key)] == LeaseRow(1, h.owner, Sha256(h.token), h.issuedAt, h.expiresAt)
    requires AttemptOf(key) !in db.results.accepted && AttemptOf(key) !in db.results.authorizations
    ensures var reported := ApplyRowCall(db, AcceptCall(PassingResult(key, version, h), h.reportedAt)).db;
      var db' := ApplyRowCall(reported, CompleteCall(key, AttemptOf(key))).db;
      key in db'.plan.nodes && db'.plan.nodes[key].state.Passed?
  {
    assert |AttemptOf(key)| > |key.workId| + |key.nodeId| && |JobOf(key)| == |AttemptOf(key)| + 6;
    var r := PassingResult(key, version, h);
    assert ValidResult(r);
    var reported := AcceptResult(db, r, h.reportedAt).db;
    assert reported.plan == db.plan && AttemptOf(key) in reported.results.authorizations
      && reported.results.authorizations[AttemptOf(key)].expectedNodeVersion == version
      && AttemptOf(key) in reported.results.accepted && reported.results.accepted[AttemptOf(key)] == r.row;
  }

  /** A worker that starts a node and reports success passes it. */
  lemma WorkPasses(db: Db, key: NodeKey, h: Hand)
    requires Startable(db, key) && ShortIds(key) && Works(h) && db.plan.nodes[key].version >= 0
    ensures key in Worked(db, key, h).plan.nodes && Worked(db, key, h).plan.nodes[key].state.Passed?
  {
    var row := db.plan.nodes[key];
    var calls := WorkerCalls(key, row.version, h);
    var started := ApplyRowCall(db, calls[0]).db;
    var claimed := ApplyRowCall(started, calls[1]).db;
    RunFirst(db, calls[0], calls[1..]);
    RunFirst(started, calls[1], calls[2..]);
    RunTwo(claimed, calls[2], calls[3]);
    assert calls == [calls[0]] + calls[1..] && calls[1..] == [calls[1]] + calls[2..];
    assert calls[2..] == [calls[2], calls[3]];
    StartedAndClaimed(db, key, h);
    ReportedAndCompleted(claimed, key, row.version + 1, row.dependsOn, h);
  }

  // ---- the workers of a round

  /** The workers take the nodes one after the other. */
  function AllWorked(db: Db, workId: Str, ids: seq<Str>, hands: Str -> Hand): Db
    decreases |ids|
  {
    if |ids| == 0 then db
    else
      var key := NodeKey(workId, ids[0]);
      AllWorked(if key in db.plan.nodes then Worked(db, key, hands(ids[0])) else db, workId, ids[1..], hands)
  }

  lemma {:induction false} AllWorkedKept(db: Db, workId: Str, ids: seq<Str>, hands: Str -> Hand)
    requires Valid(db) && AttemptsTidy(db)
    ensures Kept(db, AllWorked(db, workId, ids, hands))
    decreases |ids|
  {
    if |ids| > 0 {
      var key := NodeKey(workId, ids[0]);
      var db1 := if key in db.plan.nodes then Worked(db, key, hands(ids[0])) else db;
      if key in db.plan.nodes {
        WorkKept(db, key, hands(ids[0]));
      }
      AllWorkedKept(db1, workId, ids[1..], hands);
      KeptOn(db, db1, AllWorked(db, workId, ids, hands));
    }
  }

  lemma {:induction false} AllWorkedAside(db: Db, workId: Str, ids: seq<Str>, hands: Str -> Hand, n: Str)
    requires n !in ids
    ensures Aside(db, AllWorked(db, workId, ids, hands), NodeKey(workId, n))
    decreases |ids|
  {
    if |ids| > 0 {
      var key, other := NodeKey(workId, ids[0]), NodeKey(workId, n);
      var db1 := if key in db.plan.nodes then Worked(db, key, hands(ids[0])) else db;
      if key in db.plan.nodes {
        BlockedOtherIds(workId, ids[0], n);
        WorkAside(db, key, hands(ids[0]), other);
      }
      AllWorkedAside(db1, workId, ids[1..], hands, n);
      AsideOn(db, db1, AllWorked(db, workId, ids, hands), other);
    }
  }

  lemma BlockedOtherIds(workId: Str, n: Str, m: Str)
    requires n != m
    ensures AttemptOf(NodeKey(workId, n)) != AttemptOf(NodeKey(workId, m))
  {
    BlockedDispatch.OtherIds(workId, n, m);
  }

  ghost predicate AllStartable(db: Db, workId: Str, ids: seq<Str>) {
    forall n :: n in ids ==> Startable(db, NodeKey(workId, n)) && ShortIds(NodeKey(workId, n))
  }

  lemma {:induction false} AllWorkedPass(db: Db, workId: Str, ids: seq<Str>, hands: Str -> Hand, n: Str)
    requires Valid(db) && AttemptsTidy(db) && NoDuplicates(ids) && AllStartable(db, workId, ids) && n in ids
    requires AllWork(hands)
    ensures var db' := AllWorked(db, workId, ids, hands);
      NodeKey(workId, n) in db'.plan.nodes && db'.plan.nodes[NodeKey(workId, n)].state.Passed?
    decreases |ids|
  {
    var key := NodeKey(workId, ids[0]);
    assert ids[0] in ids;
    var db1 := Worked(db, key, hands(ids[0]));
    WorkKept(db, key, hands(ids[0]));
    if n == ids[0] {
      assert n !in ids[1..];
      WorkPasses(db, key, hands(n));
      AllWorkedAside(db1, workId, ids[1..], hands, n);
    } else {
      forall m | m in ids[1..]
        ensures Startable(db1, NodeKey(workId, m)) && ShortIds(NodeKey(workId, m))
      {
        assert m in ids && m != ids[0];
        BlockedOtherIds(workId, ids[0], m);
        WorkAside(db, key, hands(ids[0]), NodeKey(workId, m));
      }
      AllWorkedPass(db1, workId, ids[1..], hands, n);
    }
  }

  // ---- a round: a dispatch pass, and the workers of what it handed out

  function IdsOf(frontier: seq<Frontier.FrontierNode>): seq<Str> {
    seq(|frontier|, i requires 0 <= i < |frontier| => frontier[i].node.id)
  }

  ghost function Round(
    sys: System, workId: Str, frontier: seq<Frontier.FrontierNode>, env: Environment, hands: Str -> Hand): System
    requires IsFrontier(ReadNodes(sys.db, workId), map[], frontier)
  {
    var r := DispatchAll(sys, ReadNodes(sys.db, workId), frontier, env).sys;
    r.(db := AllWorked(r.db, workId, IdsOf(frontier), hands))
  }

  /** Nothing is stored about the node's attempt yet. */
  ghost predicate Untried(db: Db, key: NodeKey) {
    var a := AttemptOf(key);
    a !in db.runs.attempts && a !in db.runs.leases && a !in db.results.accepted && a !in db.results.authorizations
  }

  /** These nodes of the work have passed; the others wait, and nothing has been tried on them. */
  ghost predicate Between(db: Db, workId: Str, passed: set<Str>) {
    forall k :: k in db.plan.nodes && k.workId == workId ==>
      if k.nodeId in passed then db.plan.nodes[k].state.Passed? else db.plan.nodes[k].state.Pending? && Untried(db, k)
  }

  /** Every node of the work can be routed and delivered under ids the store accepts. */
  ghost predicate Servable(db: Db, workId: Str, env: Environment) {
    forall k :: k in db.plan.nodes && k.workId == workId ==>
      ShortIds(k) && env.resolve(k.nodeId).Resolved? && env.delivers(k.nodeId)
  }

  /** Passes make no claims and accept nothing. */
  lemma EntryKeepsResults(sys: System, key: NodeKey, record: NodeRow, resolution: Resolution, delivered: bool)
    ensures var db' := DispatchEntry(sys, key, record, resolution, delivered).sys.db;
      db'.runs.leases == sys.db.runs.leases && db'.results == sys.db.results
  {
  }

  lemma {:induction false} PassKeepsResults(
    sys: System, s: Snapshot, entries: seq<Frontier.FrontierNode>, env: Environment)
    requires forall e :: e in entries ==> e.node.id in s.nodes
    ensures var db' := DispatchAll(sys, s, entries, env).sys.db;
      db'.runs.leases == sys.db.runs.leases && db'.results == sys.db.results
    decreases |entries|
  {
    if |entries| > 0 {
      assert entries[0] in entries;
      if entries[0].readyAfterScheduling {
        var n := entries[0].node.id;
        var result := DispatchEntry(sys, NodeKey(s.workId, n), s.nodes[n], env.resolve(n), env.delivers(n));
        EntryKeepsResults(sys, NodeKey(s.workId, n), s.nodes[n], env.resolve(n), env.delivers(n));
        PassKeepsResults(result.sys, s, entries[1..], env);
      } else {
        PassKeepsResults(sys, s, entries[1..], env);
      }
    }
  }

  /** A pass is a run of two calls of the store for each entry, and keeps what those keep. */
  lemma EntryKept(sys: System, key: NodeKey, record: NodeRow, resolution: Resolution, delivered: bool)
    requires Valid(sys.db) && AttemptsTidy(sys.db)
    ensures Kept(sys.db, DispatchEntry(sys, key, record, resolution, delivered).sys.db)
  {
    var ready := DispatchService.ReadyStep(sys.db, key, record).db;
    if record.state.Pending? {
      StepKept(sys.db, TransitionCall(key, record.version, Ready));
    }
    if resolution.Resolved? {
      CreationKept(ready, key, resolution.routing);
      KeptOn(sys.db, ready, ApplyRowCall(ready, CreateCall(key, resolution.routing)).db);
    }
    EntryWrites(sys, key, record, resolution, delivered);
  }

  lemma CreationKept(db: Db, key: NodeKey, routing: Routing)
    requires Valid(db) && AttemptsTidy(db)
    ensures Kept(db, ApplyRowCall(db, CreateCall(key, routing)).db)
  {
    ApplyKeepsValid(db, CreateCall(key, routing));
    CreationKeepsPlan(db, key, routing);
  }

  lemma CreationKeepsPlan(db: Db, key: NodeKey, routing: Routing)
    requires AttemptsTidy(db)
    ensures ApplyRowCall(db, CreateCall(key, routing)).db.plan == db.plan
    ensures AttemptsTidy(ApplyRowCall(db, CreateCall(key, routing)).db)
  {
    CallKeepsOneAttempt(db, CreateCall(key, routing));
  }

  lemma {:induction false} PassKept(sys: System, s: Snapshot, entries: seq<Frontier.FrontierNode>, env: Environment)
    requires Valid(sys.db) && AttemptsTidy(sys.db) && forall e :: e in entries ==> e.node.id in s.nodes
    ensures Kept(sys.db, DispatchAll(sys, s, entries, env).sys.db)
    decreases |entries|
  {
    if |entries| > 0 {
      assert entries[0] in entries;
      if entries[0].readyAfterScheduling {
        var n := entries[0].node.id;
        var result := DispatchEntry(sys, NodeKey(s.workId, n), s.nodes[n], env.resolve(n), env.delivers(n));
        EntryKept(sys, NodeKey(s.workId, n), s.nodes[n], env.resolve(n), env.delivers(n));
        PassKept(result.sys, s, entries[1..], env);
        KeptOn(sys.db, result.sys.db, DispatchAll(result.sys, s, entries[1..], env).sys.db);
      } else {
        PassKept(sys, s, entries[1..], env);
      }
    }
  }

  /** A waiting node that is served without an obstacle can be started. */
  lemma ServedIsStartable(sys: System, sys': System, key: NodeKey, env: Environment)
    requires Served(sys, sys', key, env) && sys.db.plan.nodes[key].state.Pending? && Untried(sys.db, key)
    requires Obstacle(sys.db.plan.nodes[key], key, env).None?
    requires sys'.db.runs.leases == sys.db.runs.leases && sys'.db.results == sys.db.results
    ensures Startable(sys'.db, key)
  {
  }

  /** A node whose id is on the frontier is an unblocked entry of it and has not passed. */
  lemma OnFrontier(db: Db, workId: Str, frontier: seq<Frontier.FrontierNode>, n: Str)
    returns (e: Frontier.FrontierNode)
    requires IsFrontier(ReadNodes(db, workId), map[], frontier) && n in IdsOf(frontier)
    ensures e in frontier && e.node.id == n && e.readyAfterScheduling
    ensures NodeKey(workId, n) in db.plan.nodes && !db.plan.nodes[NodeKey(workId, n)].state.Passed?
  {
    var i :| 0 <= i < |frontier| && frontier[i].node.id == n;
    e := frontier[i];
    assert e in frontier && n !in PassedIds(ReadNodes(db, workId));
  }

  /** The pass has served its frontier. */
  ghost predicate FrontierServed(
    sys: System, sys': System, workId: Str, frontier: seq<Frontier.FrontierNode>, env: Environment)
  {
    && (forall e :: e in frontier ==> Served(sys, sys', NodeKey(workId, e.node.id), env))
    && sys'.db.runs.leases == sys.db.runs.leases && sys'.db.results == sys.db.results
  }

  lemma PassServesFrontier(
    sys: System, workId: Str, frontier: seq<Frontier.FrontierNode>, env: Environment)
    requires Valid(sys.db) && AttemptsTidy(sys.db) && Distinct(frontier)
    requires IsFrontier(ReadNodes(sys.db, workId), map[], frontier)
    ensures FrontierServed(
      sys, DispatchAll(sys, ReadNodes(sys.db, workId), frontier, env).sys, workId, frontier, env)
  {
    PassDispatches(sys, workId, map[], frontier, env);
    PassKeepsResults(sys, ReadNodes(sys.db, workId), frontier, env);
  }

  /** After the pass every node of the frontier can be started. */
  lemma FrontierStartable(
    sys: System, sys': System, workId: Str, frontier: seq<Frontier.FrontierNode>, env: Environment, passed: set<Str>)
    requires IsFrontier(ReadNodes(sys.db, workId), map[], frontier) && FrontierServed(sys, sys', workId, frontier, env)
    requires Between(sys.db, workId, passed) && Servable(sys.db, workId, env)
    ensures AllStartable(sys'.db, workId, IdsOf(frontier))
  {
    forall n | n in IdsOf(frontier)
      ensures Startable(sys'.db, NodeKey(workId, n)) && ShortIds(NodeKey(workId, n))
    {
      var e := OnFrontier(sys.db, workId, frontier, n);
      ServedIsStartable(sys, sys', NodeKey(workId, n), env);
    }
  }

  /** Nodes outside the frontier are as they were. */
  lemma OutsideFrontier(
    sys: System, workId: Str, frontier: seq<Frontier.FrontierNode>, env: Environment, hands: Str -> Hand, n: Str)
    requires IsFrontier(ReadNodes(sys.db, workId), map[], frontier) && n !in IdsOf(frontier)
    ensures Aside(sys.db, Round(sys, workId, frontier, env, hands).db, NodeKey(workId, n))
  {
    var s := ReadNodes(sys.db, workId);
    var sys1 := DispatchAll(sys, s, frontier, env).sys;
    forall e | e in frontier
      ensures e.node.id in s.nodes && e.node.id != n
    {
      var i :| 0 <= i < |frontier| && frontier[i] == e;
      assert IdsOf(frontier)[i] == e.node.id;
    }
    OthersLeave(sys, s, frontier, env, n);
    PassKeepsResults(sys, s, frontier, env);
    AllWorkedAside(sys1.db, workId, IdsOf(frontier), hands, n);
    AsideOn(sys.db, sys1.db, AllWorked(sys1.db, workId, IdsOf(frontier), hands), NodeKey(workId, n));
  }

  /** What a node of the work is after a round. */
  ghost predicate AsBetween(db: Db, k: NodeKey, passed: set<Str>) {
    k in db.plan.nodes &&
    if k.nodeId in passed then db.plan.nodes[k].state.Passed? else db.plan.nodes[k].state.Pending? && Untried(db, k)
  }

  lemma AsideAsBetween(db: Db, db': Db, k: NodeKey, passed: set<Str>, more: set<Str>)
    requires AsBetween(db, k, passed) && Aside(db, db', k) && k.nodeId !in more
    ensures AsBetween(db', k, passed + more)
  {
  }

  lemma DistinctIds(frontier: seq<Frontier.FrontierNode>)
    requires Distinct(frontier)
    ensures NoDuplicates(IdsOf(frontier))
  {
  }

  /** A round passes exactly the frontier. */
  lemma RoundPasses(
    sys: System, workId: Str, frontier: seq<Frontier.FrontierNode>, env: Environment, hands: Str -> Hand,
    passed: set<Str>)
    requires Valid(sys.db) && AttemptsTidy(sys.db) && Distinct(frontier)
    requires IsFrontier(ReadNodes(sys.db, workId), map[], frontier)
    requires Between(sys.db, workId, passed) && Servable(sys.db, workId, env) && AllWork(hands)
    ensures var sys' := Round(sys, workId, frontier, env, hands);
      && Kept(sys.db, sys'.db) && Between(sys'.db, workId, passed + ToSet(IdsOf(frontier)))
  {
    var sys1 := DispatchAll(sys, ReadNodes(sys.db, workId), frontier, env).sys;
    var db2 := Round(sys, workId, frontier, env, hands).db;
    RoundKept(sys, workId, frontier, env, hands);
    PassServesFrontier(sys, workId, frontier, env);
    FrontierStartable(sys, sys1, workId, frontier, env, passed);
    DistinctIds(frontier);
    forall k | k in db2.plan.nodes && k.workId == workId
      ensures AsBetween(db2, k, passed + ToSet(IdsOf(frontier)))
    {
      assert k == NodeKey(workId, k.nodeId) && k in db2.plan.nodes.Keys;
      if k.nodeId in IdsOf(frontier) {
        AllWorkedPass(sys1.db, workId, IdsOf(frontier), hands, k.nodeId);
      } else {
        OutsideFrontier(sys, workId, frontier, env, hands, k.nodeId);
        AsideAsBetween(sys.db, db2, k, passed, ToSet(IdsOf(frontier)));
      }
    }
  }

  lemma RoundKept(
    sys: System, workId: Str, frontier: seq<Frontier.FrontierNode>, env: Environment, hands: Str -> Hand)
    requires Valid(sys.db) && AttemptsTidy(sys.db)
    requires IsFrontier(ReadNodes(sys.db, workId), map[], frontier)
    ensures var db1 := DispatchAll(sys, ReadNodes(sys.db, workId), frontier, env).sys.db;
      Valid(db1) && AttemptsTidy(db1) && Kept(sys.db, Round(sys, workId, frontier, env, hands).db)
  {
    var db1 := DispatchAll(sys, ReadNodes(sys.db, workId), frontier, env).sys.db;
    PassKept(sys, ReadNodes(sys.db, workId), frontier, env);
    AllWorkedKept(db1, workId, IdsOf(frontier), hands);
    KeptOn(sys.db, db1, AllWorked(db1, workId, IdsOf(frontier), hands));
  }

  // ---- round after round

  /** Rounds over one work, each from the true frontier, in whatever order it is listed. */
  ghost predicate IsRounds(
    states: seq<System>, workId: Str, frontiers: seq<seq<Frontier.FrontierNode>>, env: Environment, hands: Str -> Hand)
  {
    && |states| == |frontiers| + 1
    && forall i {:trigger frontiers[i]} :: 0 <= i < |frontiers| ==>
      && Distinct(frontiers[i]) && IsFrontier(ReadNodes(states[i].db, workId), map[], frontiers[i])
      && states[i + 1] == Round(states[i], workId, frontiers[i], env, hands)
  }

  /** The graph of a work: its nodes with their dependencies, whatever has become of them. */
  ghost predicate GraphOfWork(db: Db, workId: Str, g: seq<Graph.Node>) {
    && Graph.UniqueIds(g)
    && (forall n :: n in Graph.Ids(g) <==> NodeKey(workId, n) in db.plan.nodes)
    && forall i :: 0 <= i < |g| ==>
      NodeKey(workId, g[i].id) in db.plan.nodes && db.plan.nodes[NodeKey(workId, g[i].id)].dependsOn == g[i].dependsOn
  }

  /** The frontier that dispatch reads is that of the graph. */
  lemma FrontierOfGraph(
    db: Db, workId: Str, g: seq<Graph.Node>, frontier: seq<Frontier.FrontierNode>, passed: set<Str>)
    requires GraphOfWork(db, workId, g) && Between(db, workId, passed) && passed <= Graph.Ids(g)
    requires IsFrontier(ReadNodes(db, workId), map[], frontier)
    ensures ToSet(IdsOf(frontier)) == Frontier.FrontierIds(g, passed)
  {
    var s := ReadNodes(db, workId);
    PassedAre(db, workId, g, passed);
    forall n
      ensures n in IdsOf(frontier) <==> n in Frontier.FrontierIds(g, passed)
    {
      if n in Frontier.FrontierIds(g, passed) {
        var i :| 0 <= i < |g| && Frontier.InFrontier(g[i], passed) && g[i].id == n;
        assert Frontier.Entry(g[i], map[]) in frontier;
        var j :| 0 <= j < |frontier| && frontier[j] == Frontier.Entry(g[i], map[]);
        assert IdsOf(frontier)[j] == n;
      }
      if n in IdsOf(frontier) {
        var j :| 0 <= j < |frontier| && frontier[j].node.id == n;
        assert frontier[j] in frontier && NodeKey(workId, n) in db.plan.nodes;
        var i :| 0 <= i < |g| && g[i].id == n;
        assert frontier[j].node == g[i];
      }
    }
  }

  lemma PassedAre(db: Db, workId: Str, g: seq<Graph.Node>, passed: set<Str>)
    requires GraphOfWork(db, workId, g) && Between(db, workId, passed) && passed <= Graph.Ids(g)
    ensures PassedIds(ReadNodes(db, workId)) == passed
  {
    var s := ReadNodes(db, workId);
    forall n
      ensures n in PassedIds(s) <==> n in passed
    {
      if n in passed {
        assert NodeKey(workId, n) in db.plan.nodes;
      }
    }
  }

  /** What holds after some rounds. */
  ghost predicate AfterRounds(db: Db, workId: Str, g: seq<Graph.Node>, env: Environment, passed: set<Str>) {
    && Valid(db) && AttemptsTidy(db) && GraphOfWork(db, workId, g) && Servable(db, workId, env)
    && Between(db, workId, passed) && passed <= Graph.Ids(g)
  }

  /** Rounds have come as far as passing exactly these. */
  ghost predicate CameTo(db: Db, workId: Str, g: seq<Graph.Node>, env: Environment, passed: set<Str>) {
    forall done :: done == passed ==> AfterRounds(db, workId, g, env, done)
  }

  lemma KeptGraph(db: Db, db': Db, workId: Str, g: seq<Graph.Node>, env: Environment)
    requires Kept(db, db') && GraphOfWork(db, workId, g) && Servable(db, workId, env)
    ensures GraphOfWork(db', workId, g) && Servable(db', workId, env)
  {
    assert forall k :: k in db'.plan.nodes <==> k in db.plan.nodes.Keys;
  }

  lemma OneRound(
    sys: System, workId: Str, frontier: seq<Frontier.FrontierNode>, env: Environment, hands: Str -> Hand,
    g: seq<Graph.Node>, passed: set<Str>)
    requires AfterRounds(sys.db, workId, g, env, passed) && Distinct(frontier) && AllWork(hands)
    requires IsFrontier(ReadNodes(sys.db, workId), map[], frontier)
    ensures AfterRounds(
      Round(sys, workId, frontier, env, hands).db, workId, g, env, passed + Frontier.FrontierIds(g, passed))
  {
    RoundPasses(sys, workId, frontier, env, hands, passed);
    FrontierOfGraph(sys.db, workId, g, frontier, passed);
    FrontierKnown(g, passed);
    RoundAfter(
      sys.db, Round(sys, workId, frontier, env, hands).db, workId, g, env, passed, Frontier.FrontierIds(g, passed));
  }

  lemma FrontierKnown(g: seq<Graph.Node>, passed: set<Str>)
    ensures Frontier.FrontierIds(g, passed) <= Graph.Ids(g)
  {
  }

  lemma RoundAfter(
    db: Db, db': Db, workId: Str, g: seq<Graph.Node>, env: Environment, passed: set<Str>, more: set<Str>)
    requires AfterRounds(db, workId, g, env, passed) && Kept(db, db') && Between(db', workId, passed + more)
    requires more <= Graph.Ids(g)
    ensures AfterRounds(db', workId, g, env, passed + more)
  {
    KeptGraph(db, db', workId, g, env);
  }

  /** The ids that have passed after some rounds. */
  ghost function PassedAfter(g: seq<Graph.Node>, rounds: nat): set<Str> {
    ToSet(Frontier.PassOrder(g, rounds))
  }

  lemma PassedNext(g: seq<Graph.Node>, i: nat)
    requires i > 0
    ensures PassedAfter(g, i) == PassedAfter(g, i - 1) + Frontier.FrontierIds(g, PassedAfter(g, i - 1))
  {
    var before := Frontier.PassOrder(g, i - 1);
    forall u | u in Frontier.FrontierIds(g, ToSet(before))
      ensures u in Frontier.NextRound(g, before)
    {
      Frontier.FrontierIdsKnown(g, ToSet(before), u);
    }
    assert Frontier.PassOrder(g, i) == before + Frontier.NextRound(g, before);
  }

  /** The next round of a sequence of rounds. */
  lemma NextRoundFollows(
    states: seq<System>, workId: Str, frontiers: seq<seq<Frontier.FrontierNode>>, env: Environment,
    hands: Str -> Hand, g: seq<Graph.Node>, i: nat, passed: set<Str>, passed': set<Str>)
    requires IsRounds(states, workId, frontiers, env, hands) && i < |frontiers| && AllWork(hands)
    requires CameTo(states[i].db, workId, g, env, passed)
    requires passed' == passed + Frontier.FrontierIds(g, passed)
    ensures CameTo(states[i + 1].db, workId, g, env, passed')
  {
    assert states[i + 1] == Round(states[i], workId, frontiers[i], env, hands);
    assert AfterRounds(states[i].db, workId, g, env, passed);
    OneRound(states[i], workId, frontiers[i], env, hands, g, passed);
  }

  /** The first rounds of a sequence of rounds have passed what that many rounds of the graph pass. */
  ghost predicate SoFar(states: seq<System>, workId: Str, g: seq<Graph.Node>, env: Environment, i: nat) {
    i < |states| && CameTo(states[i].db, workId, g, env, PassedAfter(g, i))
  }

  lemma SoFarOn(
    states: seq<System>, workId: Str, frontiers: seq<seq<Frontier.FrontierNode>>, env: Environment,
    hands: Str -> Hand, g: seq<Graph.Node>, i: nat)
    requires IsRounds(states, workId, frontiers, env, hands) && i < |frontiers| && AllWork(hands)
    requires SoFar(states, workId, g, env, i)
    ensures SoFar(states, workId, g, env, i + 1)
  {
    PassedNext(g, i + 1);
    NextRoundFollows(states, workId, frontiers, env, hands, g, i, PassedAfter(g, i), PassedAfter(g, i + 1));
  }

  lemma {:induction false} RoundsFollow(
    states: seq<System>, workId: Str, frontiers: seq<seq<Frontier.FrontierNode>>, env: Environment,
    hands: Str -> Hand, g: seq<Graph.Node>, i: nat)
    requires IsRounds(states, workId, frontiers, env, hands) && i <= |frontiers| && AllWork(hands)
    requires SoFar(states, workId, g, env, 0)
    ensures SoFar(states, workId, g, env, i)
  {
    if i > 0 {
      RoundsFollow(states, workId, frontiers, env, hands, g, i - 1);
      SoFarOn(states, workId, frontiers, env, hands, g, i - 1);
    }
  }

  /**
   Every work can be brought to its end. Import a work into any valid store whose attempts are
   those of dispatchers, under ids that nothing is stored under yet; then run rounds, each a
   dispatch pass and the workers of what it handed out reporting success. After as many rounds as
   the work has nodes all of them have passed.
   */
  lemma WorkIsBroughtToItsEnd(
    sys: System, work: ApprovedWork, states: seq<System>, frontiers: seq<seq<Frontier.FrontierNode>>,
    env: Environment, hands: Str -> Hand)
    requires Valid(sys.db) && AttemptsTidy(sys.db) && work.workId !in sys.db.plan.works && Importable(work)
    requires Workable(sys.db, work, env) && AllWork(hands)
    requires IsRounds(states, work.workId, frontiers, env, hands) && |frontiers| == |work.nodes|
    requires states[0] == sys.(db := Apply(sys.db, ImportWorkCall(work)).db)
    ensures forall i :: 0 <= i < |work.nodes| ==>
      var key := NodeKey(work.workId, work.nodes[i].graph.id);
      var nodes := states[|work.nodes|].db.plan.nodes;
      key in nodes && nodes[key].state.Passed?
  {
    var g, workId, n := GraphOf(work), work.workId, |work.nodes|;
    ImportedIsFresh(sys.db, work, env);
    assert SoFar(states, workId, g, env, 0);
    RoundsFollow(states, workId, frontiers, env, hands, g, n);
    assert AfterRounds(states[n].db, workId, g, env, PassedAfter(g, n));
    AcyclicMeans(g);
    Frontier.RoundsFinish(g);
    var nodes := states[n].db.plan.nodes;
    forall i | 0 <= i < |work.nodes|
      ensures var key := NodeKey(workId, work.nodes[i].graph.id); key in nodes && nodes[key].state.Passed?
    {
      assert g[i] == work.nodes[i].graph && g[i].id in Graph.Ids(g);
      assert NodeKey(workId, g[i].id) in nodes;
    }
  }

  /** What the nodes of a work need to be brought to their ends. */
  ghost predicate Workable(db: Db, work: ApprovedWork, env: Environment) {
    forall i :: 0 <= i < |work.nodes| ==>
      var key := NodeKey(work.workId, work.nodes[i].graph.id);
      && ShortIds(key) && Untried(db, key)
      && env.resolve(key.nodeId).Resolved? && env.delivers(key.nodeId)
  }

  lemma ImportedIsFresh(db: Db, work: ApprovedWork, env: Environment)
    requires Valid(db) && AttemptsTidy(db) && work.workId !in db.plan.works && Importable(work)
    requires Workable(db, work, env)
    ensures CameTo(Apply(db, ImportWorkCall(work)).db, work.workId, GraphOf(work), env, {})
  {
    InsertedIsValid(db, work);
    ImportedIsPending(db, work, env);
    ImportedGraph(db, work);
    assert AfterRounds(InsertWork(db, work), work.workId, GraphOf(work), env, {});
  }

  lemma InsertedIsValid(db: Db, work: ApprovedWork)
    requires Valid(db) && AttemptsTidy(db) && work.workId !in db.plan.works && Importable(work)
    ensures Apply(db, ImportWorkCall(work)).db == InsertWork(db, work)
    ensures Valid(InsertWork(db, work)) && AttemptsTidy(InsertWork(db, work))
    ensures RowsInserted(db.plan.nodes, InsertWork(db, work).plan.nodes, work)
  {
    ValidationExactly(work);
    NewWorkInserted(db, work);
    ImportExactly(db, work);
    ApplyKeepsValid(db, ImportWorkCall(work));
  }

  /** The rows of a new work wait to be tried. */
  lemma ImportedIsPending(db: Db, work: ApprovedWork, env: Environment)
    requires Valid(db) && work.workId !in db.plan.works && Workable(db, work, env)
    requires RowsInserted(db.plan.nodes, InsertWork(db, work).plan.nodes, work)
    ensures Between(InsertWork(db, work), work.workId, {}) && Servable(InsertWork(db, work), work.workId, env)
  {
    var db' := InsertWork(db, work);
    forall k | k in db'.plan.nodes && k.workId == work.workId
      ensures db'.plan.nodes[k].state.Pending? && Untried(db', k) && ShortIds(k)
      ensures env.resolve(k.nodeId).Resolved? && env.delivers(k.nodeId)
    {
      var i := RowIsNode(db, work, k);
      assert k == NodeKey(work.workId, work.nodes[i].graph.id);
    }
  }

  /** The rows of a new work are those of its graph. */
  lemma ImportedGraph(db: Db, work: ApprovedWork)
    requires Valid(db) && work.workId !in db.plan.works && Importable(work)
    requires RowsInserted(db.plan.nodes, InsertWork(db, work).plan.nodes, work)
    ensures GraphOfWork(InsertWork(db, work), work.workId, GraphOf(work))
  {
    NoOldRows(db, work);
    forall i | 0 <= i < |GraphOf(work)|
      ensures var key := NodeKey(work.workId, GraphOf(work)[i].id); var nodes := InsertWork(db, work).plan.nodes;
        key in nodes && nodes[key].dependsOn == GraphOf(work)[i].dependsOn
    {
      assert GraphOf(work)[i] == work.nodes[i].graph;
    }
  }

  lemma RowIsNode(db: Db, work: ApprovedWork, k: NodeKey) returns (i: nat)
    requires Valid(db) && work.workId !in db.plan.works && k.workId == work.workId
    requires RowsInserted(db.plan.nodes, InsertWork(db, work).plan.nodes, work)
    requires k in InsertWork(db, work).plan.nodes
    ensures i < |work.nodes| && work.nodes[i].graph.id == k.nodeId
  {
    NoOldRows(db, work);
    i :| 0 <= i < |GraphOf(work)| && GraphOf(work)[i].id == k.nodeId;
  }

  /** A work that is not stored has no rows. */
  lemma NoOldRows(db: Db, work: ApprovedWork)
    requires Valid(db) && work.workId !in db.plan.works
    ensures forall k :: k in db.plan.nodes ==> k.workId != work.workId
  {
  }
}
