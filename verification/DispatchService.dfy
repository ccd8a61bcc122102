/** One dispatch pass over the ready frontier (src/domains/orchestration/dispatch-service.ts). */
module DispatchService {
  import opened Text
  import opened Wrappers
  import opened Lifecycle
  import opened Identifiers
  import opened StoreModel
  import opened StoreInvariants
  import opened StoreRuns
  import opened DispatchSafety
  import opened OrchestrationStore
  import opened ReconcileModel
  import opened Reconciliation
  import Frontier = ReadyFrontier
  import Graph

  /** What the injected routing resolver does for a node. */
  datatype Resolution = Unavailable | Malformed | Resolved(routing: Routing)

  datatype SkipCode =
    | NODE_TRANSITION_FAILED | NODE_NOT_DISPATCHABLE | ROUTING_UNAVAILABLE | ROUTING_INVALID
    | ATTEMPT_CREATION_FAILED | QUEUE_ENQUEUE_FAILED

  datatype Outcome = Dispatched(attemptId: Str, jobId: Str) | Skipped(code: SkipCode)

  datatype EntryResult = EntryResult(sys: System, outcome: Outcome)

  /** Bringing the node to ready from the record the pass read. */
  function ReadyStep(db: Db, key: NodeKey, record: NodeRow): Step {
    if record.state.Pending? then TransitionNode(db, key, record.version, Ready) else Step(db, GotNode(record))
  }

  /** One frontier entry that no blocker holds back. */
  function DispatchEntry(
    sys: System, key: NodeKey, record: NodeRow, resolution: Resolution, delivered: bool): EntryResult
  {
    var ready := ReadyStep(sys.db, key, record);
    var attemptId := DeriveAttemptId(key.workId, key.nodeId, 1);
    var jobId := DeriveJobId(attemptId);
    if !ready.reply.GotNode? then EntryResult(sys, Skipped(NODE_TRANSITION_FAILED))
    else
      var sys1 := sys.(db := ready.db);
      if !ready.reply.node.state.Ready? then EntryResult(sys1, Skipped(NODE_NOT_DISPATCHABLE))
      else if resolution.Unavailable? then EntryResult(sys1, Skipped(ROUTING_UNAVAILABLE))
      else if resolution.Malformed? then EntryResult(sys1, Skipped(ROUTING_INVALID))
      else
        var created := CreateAttempt(sys1.db, key, attemptId, 1, jobId, Some(resolution.routing));
        if created.reply.Error? then EntryResult(sys1, Skipped(ATTEMPT_CREATION_FAILED))
        else
          var sys2 := sys1.(db := created.db);
          if !delivered then EntryResult(sys2, Skipped(QUEUE_ENQUEUE_FAILED))
          else
            EntryResult(sys2.(queue := sys2.queue[jobId := MakeQueueEnvelope(key.workId, key.nodeId, 1)]),
                        Dispatched(attemptId, jobId))
  }

  /** What the pass is told from outside: the resolver, and whether the queue takes each job. */
  datatype Environment = Environment(resolve: Str -> Resolution, delivers: Str -> bool)

  datatype PassResult = PassResult(sys: System, dispatched: seq<(Str, Str)>, skipped: seq<(Str, SkipCode)>)

  function Record(n: Str, outcome: Outcome, rest: PassResult): PassResult {
    match outcome
    case Dispatched(attemptId, jobId) => rest.(dispatched := [(attemptId, jobId)] + rest.dispatched)
    case Skipped(code) => rest.(skipped := [(n, code)] + rest.skipped)
  }

  function DispatchAll(
    sys: System, snapshot: Snapshot, entries: seq<Frontier.FrontierNode>, env: Environment): PassResult
    requires forall e :: e in entries ==> e.node.id in snapshot.nodes
    decreases |entries|
  {
    if |entries| == 0 then PassResult(sys, [], [])
    else if !entries[0].readyAfterScheduling then DispatchAll(sys, snapshot, entries[1..], env)
    else
      var n := entries[0].node.id;
      var result := DispatchEntry(sys, NodeKey(snapshot.workId, n), snapshot.nodes[n], env.resolve(n), env.delivers(n));
      Record(n, result.outcome, DispatchAll(result.sys, snapshot, entries[1..], env))
  }

  function PassedIds(snapshot: Snapshot): set<Str> {
    set n | n in snapshot.nodes && snapshot.nodes[n].state.Passed?
  }

  /** `listNodes` and `getApprovedNode` over a snapshot, in listing order. */
  function ApprovedNodes(snapshot: Snapshot, listed: seq<Str>): seq<Graph.Node>
    requires forall n :: n in listed ==> n in snapshot.nodes
  {
    seq(|listed|, i requires 0 <= i < |listed| => Graph.Node(listed[i], snapshot.nodes[listed[i]].dependsOn))
  }

  /** The entries of the frontier of a snapshot, whatever order they are listed in. */
  ghost predicate IsFrontier(snapshot: Snapshot, blockers: map<Str, Str>, frontier: seq<Frontier.FrontierNode>) {
    forall e :: e in frontier <==>
      && e.node.id in snapshot.nodes
      && e.node.dependsOn == snapshot.nodes[e.node.id].dependsOn
      && Frontier.InFrontier(e.node, PassedIds(snapshot))
      && e == Frontier.Entry(e.node, blockers)
  }

  /**
   One pass. It fails when the work is not imported; otherwise it works off the whole frontier
   of the nodes it read, in the order of their ids.
   */
  method DispatchReadyFrontier(
    store: OrchestrationStore, queue: JobQueue, workId: Str, blockers: map<Str, Str>, env: Environment,
    order: seq<Str>, leq: (Str, Str) -> bool)
    returns (found: bool, dispatched: seq<(Str, Str)>, skipped: seq<(Str, SkipCode)>,
      ghost frontier: seq<Frontier.FrontierNode>)
    requires Frontier.TotalPreorder(leq)
    requires forall k :: k in store.nodes && k.workId == workId ==> k.nodeId in order
    modifies store, queue
    ensures found <==> workId in old(store.works)
    ensures !found ==> SystemOf(store, queue) == old(SystemOf(store, queue))
    ensures found ==>
      var snapshot := ReadNodes(old(store.View()), workId);
      && IsFrontier(snapshot, blockers, frontier)
      && Frontier.SortedById(frontier, leq)
      && (NoDuplicates(order) ==>
            forall i, j :: 0 <= i < j < |frontier| ==> frontier[i].node.id != frontier[j].node.id)
      && PassResult(SystemOf(store, queue), dispatched, skipped)
         == DispatchAll(old(SystemOf(store, queue)), snapshot, frontier, env)
  {
    dispatched, skipped, frontier := [], [], [];
    found := workId in store.works;
    if !found {
      return;
    }
    var snapshot := ReadNodes(store.View(), workId);
    var listed := Keep(order, snapshot.nodes.Keys);
    var approved := ApprovedNodes(snapshot, listed);
    var entries := Frontier.ComputeReadyFrontier(approved, PassedIds(snapshot), blockers, leq);
    frontier := entries;
    FrontierOfSnapshot(snapshot, listed, blockers, entries);
    if NoDuplicates(order) {
      KeepNoDuplicates(order, snapshot.nodes.Keys);
      Frontier.EntriesDistinct(approved, PassedIds(snapshot), blockers, entries);
    }

    dispatched, skipped := WorkOff(store, queue, snapshot, entries, env);
  }

  /** `rest` with what was recorded before it put in front. */
  ghost function After(dispatched: seq<(Str, Str)>, skipped: seq<(Str, SkipCode)>, rest: PassResult): PassResult {
    PassResult(rest.sys, dispatched + rest.dispatched, skipped + rest.skipped)
  }

  lemma AfterRecord(
    dispatched: seq<(Str, Str)>, skipped: seq<(Str, SkipCode)>, n: Str, outcome: Outcome, rest: PassResult)
    ensures After(dispatched, skipped, Record(n, outcome, rest)) ==
      match outcome
      case Dispatched(attemptId, jobId) => After(dispatched + [(attemptId, jobId)], skipped, rest)
      case Skipped(code) => After(dispatched, skipped + [(n, code)], rest)
  {
    match outcome
    case Dispatched(attemptId, jobId) =>
      assert dispatched + ([(attemptId, jobId)] + rest.dispatched)
        == dispatched + [(attemptId, jobId)] + rest.dispatched;
    case Skipped(code) =>
      assert skipped + ([(n, code)] + rest.skipped) == skipped + [(n, code)] + rest.skipped;
  }

  method WorkOff(
    store: OrchestrationStore, queue: JobQueue, snapshot: Snapshot, entries: seq<Frontier.FrontierNode>,
    env: Environment)
    returns (dispatched: seq<(Str, Str)>, skipped: seq<(Str, SkipCode)>)
    requires forall e :: e in entries ==> e.node.id in snapshot.nodes
    modifies store, queue
    ensures PassResult(SystemOf(store, queue), dispatched, skipped)
         == DispatchAll(old(SystemOf(store, queue)), snapshot, entries, env)
  {
    dispatched, skipped := [], [];
    for i := 0 to |entries|
      invariant After(dispatched, skipped, DispatchAll(SystemOf(store, queue), snapshot, entries[i..], env))
             == DispatchAll(old(SystemOf(store, queue)), snapshot, entries, env)
    {
      assert entries[i..][0] == entries[i] && entries[i..][1..] == entries[i + 1..];
      if entries[i].readyAfterScheduling {
        var n := entries[i].node.id;
        assert entries[i] in entries;
        ghost var before, d0, s0 := SystemOf(store, queue), dispatched, skipped;
        var outcome := RunEntry(store, queue, NodeKey(snapshot.workId, n), snapshot.nodes[n], env.resolve(n),
          env.delivers(n));
        match outcome {
          case Dispatched(attemptId, jobId) => dispatched := dispatched + [(attemptId, jobId)];
          case Skipped(code) => skipped := skipped + [(n, code)];
        }
        AfterRecord(d0, s0, n, outcome, DispatchAll(SystemOf(store, queue), snapshot, entries[i + 1..], env));
      }
    }
  }

  lemma FrontierOfSnapshot(
    snapshot: Snapshot, listed: seq<Str>, blockers: map<Str, Str>, entries: seq<Frontier.FrontierNode>)
    requires forall n :: n in listed <==> n in snapshot.nodes
    requires var approved := ApprovedNodes(snapshot, listed);
      forall e :: e in entries <==>
        e.node in approved && Frontier.InFrontier(e.node, PassedIds(snapshot)) && e == Frontier.Entry(e.node, blockers)
    ensures IsFrontier(snapshot, blockers, entries)
  {
    var approved := ApprovedNodes(snapshot, listed);
    forall g: Graph.Node
      ensures g in approved <==> g.id in snapshot.nodes && g.dependsOn == snapshot.nodes[g.id].dependsOn
    {
      if g.id in snapshot.nodes && g.dependsOn == snapshot.nodes[g.id].dependsOn {
        assert g.id in listed;
        var i :| 0 <= i < |listed| && listed[i] == g.id;
        assert approved[i] == g;
      }
    }
  }

  method RunEntry(
    store: OrchestrationStore, queue: JobQueue, key: NodeKey, record: NodeRow, resolution: Resolution, delivered: bool)
    returns (outcome: Outcome)
    modifies store, queue
    ensures EntryResult(SystemOf(store, queue), outcome)
         == DispatchEntry(old(SystemOf(store, queue)), key, record, resolution, delivered)
  {
    var nodeState := record.state;
    if record.state == Pending {
      var transitioned := store.TransitionNode(key, record.version, Ready);
      if !transitioned.GotNode? {
        return Skipped(NODE_TRANSITION_FAILED);
      }
      nodeState := transitioned.node.state;
    }
    if nodeState != Ready {
      return Skipped(NODE_NOT_DISPATCHABLE);
    }
    var attemptId := DeriveAttemptId(key.workId, key.nodeId, 1);
    var jobId := DeriveJobId(attemptId);
    if resolution.Unavailable? {
      return Skipped(ROUTING_UNAVAILABLE);
    }
    if resolution.Malformed? {
      return Skipped(ROUTING_INVALID);
    }
    var attempt := store.CreateAttempt(key, attemptId, 1, jobId, Some(resolution.routing));
    if attempt.Error? {
      return Skipped(ATTEMPT_CREATION_FAILED);
    }
    if !delivered {
      return Skipped(QUEUE_ENQUEUE_FAILED);
    }
    queue.EnsureJob(MakeQueueEnvelope(key.workId, key.nodeId, 1));
    outcome := Dispatched(attemptId, jobId);
  }

  // ---- a pass keeps dependency safety

  function CreateCall(key: NodeKey, routing: Routing): Call {
    var attemptId := DeriveAttemptId(key.workId, key.nodeId, 1);
    CreateAttemptCall(key, attemptId, 1, DeriveJobId(attemptId), Some(routing))
  }

  /** An entry makes at most two writes: the transition and the attempt. */
  lemma EntryWrites(sys: System, key: NodeKey, record: NodeRow, resolution: Resolution, delivered: bool)
    ensures var db' := DispatchEntry(sys, key, record, resolution, delivered).sys.db;
      var ready := ReadyStep(sys.db, key, record).db;
      || db' == sys.db || db' == ready
      || (resolution.Resolved? && db' == ApplyOtherCall(ready, CreateCall(key, resolution.routing)).db)
  {
  }

  lemma ReadyKeepsInv(st: State, p: nat, n: Str)
    requires Inv(st) && p in st.passes && n in st.passes[p].nodes
    requires forall d :: d in st.passes[p].nodes[n].dependsOn ==> SnapshotPassed(st.passes[p], d)
    ensures Inv(st.(db := ReadyStep(st.db, NodeKey(st.passes[p].workId, n), st.passes[p].nodes[n]).db))
  {
    if st.passes[p].nodes[n].state.Pending? {
      MakeReadyKeepsInv(st, p, n);
    }
  }

  lemma CreateKeepsInv(st: State, key: NodeKey, routing: Routing)
    requires Inv(st)
    ensures Inv(st.(db := ApplyOtherCall(st.db, CreateCall(key, routing)).db))
  {
    OtherCallKeepsInv(st, CreateCall(key, routing));
  }

  lemma EntryKeepsInv(st: State, p: nat, sys: System, n: Str, resolution: Resolution, delivered: bool)
    requires Inv(st) && sys.db == st.db && p in st.passes && n in st.passes[p].nodes
    requires forall d :: d in st.passes[p].nodes[n].dependsOn ==> SnapshotPassed(st.passes[p], d)
    ensures var key := NodeKey(st.passes[p].workId, n);
      Inv(st.(db := DispatchEntry(sys, key, st.passes[p].nodes[n], resolution, delivered).sys.db))
  {
    var record := st.passes[p].nodes[n];
    var key := NodeKey(st.passes[p].workId, n);
    EntryWrites(sys, key, record, resolution, delivered);
    ReadyKeepsInv(st, p, n);
    if resolution.Resolved? {
      CreateKeepsInv(st.(db := ReadyStep(st.db, key, record).db), key, resolution.routing);
    }
  }

  lemma {:induction false} PassKeepsInv(
    st: State, p: nat, sys: System, entries: seq<Frontier.FrontierNode>, env: Environment)
    requires Inv(st) && sys.db == st.db && p in st.passes
    requires forall e :: e in entries ==>
      && e.node.id in st.passes[p].nodes
      && (forall d :: d in st.passes[p].nodes[e.node.id].dependsOn ==> SnapshotPassed(st.passes[p], d))
    ensures Inv(st.(db := DispatchAll(sys, st.passes[p], entries, env).sys.db))
    decreases |entries|
  {
    if |entries| > 0 {
      var e := entries[0];
      assert e in entries;
      if e.readyAfterScheduling {
        var n := e.node.id;
        var s := st.passes[p];
        EntryKeepsInv(st, p, sys, n, env.resolve(n), env.delivers(n));
        var result := DispatchEntry(sys, NodeKey(s.workId, n), s.nodes[n], env.resolve(n), env.delivers(n));
        PassKeepsInv(st.(db := result.sys.db), p, result.sys, entries[1..], env);
      } else {
        PassKeepsInv(st, p, sys, entries[1..], env);
      }
    }
  }

  /** A whole pass, from the node list it reads to its last entry, keeps dependency safety. */
  lemma PassIsSafe(
    sys: System, workId: Str, blockers: map<Str, Str>, frontier: seq<Frontier.FrontierNode>, env: Environment)
    requires Valid(sys.db) && Safe(sys.db.plan.nodes)
    requires IsFrontier(ReadNodes(sys.db, workId), blockers, frontier)
    ensures Safe(DispatchAll(sys, ReadNodes(sys.db, workId), frontier, env).sys.db.plan.nodes)
  {
    var s := ReadNodes(sys.db, workId);
    var st := State(sys.db, map[0 := s]);
    ReadIsTrue(sys.db, workId);
    forall e | e in frontier
      ensures e.node.id in s.nodes
      ensures forall d :: d in s.nodes[e.node.id].dependsOn ==> SnapshotPassed(s, d)
    {
    }
    PassKeepsInv(st, 0, sys, frontier, env);
  }

  // ---- attempts

  /** Dispatchers create attempt number one under its derived id. */
  ghost predicate DerivedCreation(call: Call) {
    call.CreateAttemptCall? ==>
      call.number == 1 && call.attemptId == DeriveAttemptId(call.key.workId, call.key.nodeId, 1)
  }

  ghost predicate OneAttemptEach(attempts: map<Str, AttemptRow>) {
    forall a :: a in attempts ==> a == DeriveAttemptId(attempts[a].node.workId, attempts[a].node.nodeId, 1)
  }

  lemma CallKeepsOneAttempt(db: Db, call: Call)
    requires OneAttemptEach(db.runs.attempts) && DerivedCreation(call)
    ensures OneAttemptEach(Apply(db, call).db.runs.attempts)
  {
    if IsImport(call) {
      ImportChanges(db, call);
    } else if IsLeaseCall(call) {
      LeaseCallKeepsOneAttempt(db, call);
    }
  }

  lemma LeaseCallKeepsOneAttempt(db: Db, call: Call)
    requires OneAttemptEach(db.runs.attempts) && IsLeaseCall(call)
    ensures OneAttemptEach(ApplyLeaseCall(db, call).db.runs.attempts)
  {
  }

  lemma {:induction false} RunKeepsOneAttempt(dbs: seq<Db>, calls: seq<Call>, i: nat)
    requires IsRun(dbs, calls) && i < |dbs| && OneAttemptEach(dbs[0].runs.attempts)
    requires forall m :: 0 <= m < |calls| ==> DerivedCreation(calls[m])
    ensures OneAttemptEach(dbs[i].runs.attempts)
  {
    if i > 0 {
      RunKeepsOneAttempt(dbs, calls, i - 1);
      CallKeepsOneAttempt(dbs[i - 1], calls[i - 1]);
    }
  }

  /** Attempts are created under their derived ids, with any number, and job ids are only ever the derived ones. */
  ghost predicate DerivedCall(call: Call) {
    match call
    case CreateAttemptCall(key, a, number, job, _) =>
      a == DeriveAttemptId(key.workId, key.nodeId, number) && job == DeriveJobId(a)
    case SetJobIdCall(a, job) => job == DeriveJobId(a)
    case _ => true
  }

  lemma LeaseCallKeepsDerivedIds(db: Db, call: Call)
    requires DerivedIds(db) && IsLeaseCall(call)
    ensures DerivedIds(ApplyLeaseCall(db, call).db)
  {
  }

  lemma ResultCallKeepsDerivedIds(db: Db, call: Call)
    requires DerivedIds(db) && (call.AcceptCall? || call.CompleteCall? || call.ProofCall?)
    ensures DerivedIds(ApplyOtherCall(db, call).db)
  {
  }

  lemma OtherCallKeepsDerivedIds(db: Db, call: Call)
    requires DerivedIds(db) && !IsImport(call) && !IsLeaseCall(call) && DerivedCall(call)
    ensures DerivedIds(ApplyOtherCall(db, call).db)
  {
    if call.AcceptCall? || call.CompleteCall? || call.ProofCall? {
      ResultCallKeepsDerivedIds(db, call);
    }
  }

  lemma CallKeepsDerivedIds(db: Db, call: Call)
    requires DerivedIds(db) && DerivedCall(call)
    ensures DerivedIds(Apply(db, call).db)
  {
    if IsImport(call) {
      ImportChanges(db, call);
    } else if IsLeaseCall(call) {
      LeaseCallKeepsDerivedIds(db, call);
    } else {
      OtherCallKeepsDerivedIds(db, call);
    }
  }

  /** What reconciliation relies on: in every run of such calls from the empty store all ids are the derived ones. */
  lemma {:induction false} RunKeepsDerivedIds(dbs: seq<Db>, calls: seq<Call>, i: nat)
    requires IsRun(dbs, calls) && i < |dbs| && dbs[0] == EmptyDb
    requires forall m :: 0 <= m < |calls| ==> DerivedCall(calls[m])
    ensures DerivedIds(dbs[i])
  {
    if i > 0 {
      RunKeepsDerivedIds(dbs, calls, i - 1);
      CallKeepsDerivedIds(dbs[i - 1], calls[i - 1]);
    }
  }

  ghost predicate SlashFree(nodes: map<NodeKey, NodeRow>) {
    forall k :: k in nodes ==> SLASH !in k.nodeId
  }

  /** The derived ids of the two nodes coincide although the nodes differ. */
  ghost predicate Entangled(k: NodeKey, other: NodeKey) {
    Shifted(k.workId, k.nodeId, other.workId, other.nodeId) || Shifted(other.workId, other.nodeId, k.workId, k.nodeId)
  }

  lemma EntangledExact(k: NodeKey, other: NodeKey)
    ensures Entangled(k, other) <==>
      k != other && DeriveAttemptId(k.workId, k.nodeId, 1) == DeriveAttemptId(other.workId, other.nodeId, 1)
  {
    if k != other {
      CollisionExact(k.workId, k.nodeId, 1, other.workId, other.nodeId, 1);
    } else {
      assert forall m: Str :: |k.workId| != |k.workId + [SLASH] + m|;
    }
  }

  /** Some stored attempt belongs to a node entangled with this one. */
  ghost predicate TakenByAnother(attempts: map<Str, AttemptRow>, key: NodeKey) {
    exists a :: a in attempts && Entangled(key, attempts[a].node)
  }

  /** A node asking for its attempt is handed another node's if and only if an entangled node has one. */
  lemma HandedAnothersExactly(db: Db, key: NodeKey, job: Str, routing: Option<Routing>)
    requires OneAttemptEach(db.runs.attempts)
    ensures var step := CreateAttempt(db, key, DeriveAttemptId(key.workId, key.nodeId, 1), 1, job, routing);
      step.reply.GotAttempt? ==> (step.reply.attempt.node != key <==> TakenByAnother(db.runs.attempts, key))
  {
    var id := DeriveAttemptId(key.workId, key.nodeId, 1);
    var attempts := db.runs.attempts;
    forall a | a in attempts
      ensures Entangled(key, attempts[a].node) <==> a == id && attempts[a].node != key
    {
      EntangledExact(key, attempts[a].node);
    }
  }

  lemma SlashFreeTakesNothing(db: Db, key: NodeKey)
    requires Valid(db) && SlashFree(db.plan.nodes) && key in db.plan.nodes
    ensures !TakenByAnother(db.runs.attempts, key)
  {
    forall a | a in db.runs.attempts
      ensures !Entangled(key, db.runs.attempts[a].node)
    {
      var other := db.runs.attempts[a].node;
      EntangledExact(key, other);
      if DeriveAttemptId(key.workId, key.nodeId, 1) == DeriveAttemptId(other.workId, other.nodeId, 1) {
        DeriveAttemptIdInjective(key.workId, key.nodeId, 1, other.workId, other.nodeId, 1);
      }
    }
  }

  /**
   Over any run of dispatchers a node has at most one attempt and every attempt its one routing
   row. A node asking for its attempt is handed its own exactly if no entangled node has one,
   which is always so when node ids are free of slashes.
   */
  lemma AttemptsNeverShared(
    dbs: seq<Db>, calls: seq<Call>, i: nat, key: NodeKey, a: Str, b: Str, job: Str, routing: Option<Routing>)
    requires ValidRun(dbs, calls) && i < |dbs| && OneAttemptEach(dbs[0].runs.attempts)
    requires forall m :: 0 <= m < |calls| ==> DerivedCreation(calls[m])
    ensures var attempts := dbs[i].runs.attempts;
      a in attempts && b in attempts && attempts[a].node == attempts[b].node ==> a == b
    ensures a in dbs[i].runs.attempts <==> a in dbs[i].runs.routing
    ensures var step := CreateAttempt(dbs[i], key, DeriveAttemptId(key.workId, key.nodeId, 1), 1, job, routing);
      step.reply.GotAttempt? ==> (step.reply.attempt.node == key <==> !TakenByAnother(dbs[i].runs.attempts, key))
    ensures SlashFree(dbs[i].plan.nodes) && key in dbs[i].plan.nodes ==> !TakenByAnother(dbs[i].runs.attempts, key)
  {
    RunKeepsOneAttempt(dbs, calls, i);
    RunKeepsValid(dbs, calls, i);
    HandedAnothersExactly(dbs[i], key, job, routing);
    if SlashFree(dbs[i].plan.nodes) && key in dbs[i].plan.nodes {
      SlashFreeTakesNothing(dbs[i], key);
    }
  }
}
