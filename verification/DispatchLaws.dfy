/**
 What a dispatch pass achieves, told from the tables before and after it: every unblocked node of
 the frontier is handed out, unless something stands in its way, and then the report says what.
 */
module DispatchLaws {
  import opened Text
  import opened Wrappers
  import opened Lifecycle
  import opened Identifiers
  import opened StoreModel
  import opened StoreInvariants
  import opened DispatchSafety
  import opened ReconcileModel
  import opened DispatchService
  import BlockedDispatch
  import Frontier = ReadyFrontier

  function AttemptOf(key: NodeKey): Str {
    DeriveAttemptId(key.workId, key.nodeId, 1)
  }

  function JobOf(key: NodeKey): Str {
    DeriveJobId(AttemptOf(key))
  }

  /** The first thing that stands in the way of a node, if anything does. */
  function Obstacle(row: NodeRow, key: NodeKey, env: Environment): Option<SkipCode> {
    if !row.state.Pending? && !row.state.Ready? then Some(NODE_NOT_DISPATCHABLE)
    else if env.resolve(key.nodeId).Unavailable? then Some(ROUTING_UNAVAILABLE)
    else if env.resolve(key.nodeId).Malformed? then Some(ROUTING_INVALID)
    else if |JobOf(key)| > MAX_ID_LENGTH then Some(ATTEMPT_CREATION_FAILED)
    else if !env.delivers(key.nodeId) then Some(QUEUE_ENQUEUE_FAILED)
    else None
  }

  /** The attempt rows are those of dispatchers, and each has its routing row. */
  ghost predicate AttemptsTidy(db: Db) {
    OneAttemptEach(db.runs.attempts) && db.runs.routing.Keys == db.runs.attempts.Keys
  }

  /** The attempt under the node's id: the one that was there, or a new one of its own. */
  ghost predicate HasAttempt(db: Db, db': Db, key: NodeKey, routing: Routing) {
    var a := AttemptOf(key);
    && a in db'.runs.attempts && a in db'.runs.routing
    && if a in db.runs.attempts
       then
         db'.runs.attempts[a] == db.runs.attempts[a]
         && (a in db.runs.routing ==> db'.runs.routing[a] == db.runs.routing[a])
       else db'.runs.attempts[a] == AttemptRow(key, 1, Created, JobOf(key), 0) && db'.runs.routing[a] == routing
  }

  /** Nothing is stored under the node's attempt id but what was. */
  ghost predicate SameAttempt(db: Db, db': Db, key: NodeKey) {
    var a := AttemptOf(key);
    && (a in db'.runs.attempts <==> a in db.runs.attempts)
    && (a in db'.runs.routing <==> a in db.runs.routing)
    && (a in db.runs.attempts ==> db'.runs.attempts[a] == db.runs.attempts[a])
    && (a in db.runs.routing ==> db'.runs.routing[a] == db.runs.routing[a])
  }

  ghost predicate SameJob(queue: map<Str, QueueEnvelope>, queue': map<Str, QueueEnvelope>, key: NodeKey) {
    && (JobOf(key) in queue' <==> JobOf(key) in queue)
    && (JobOf(key) in queue ==> queue'[JobOf(key)] == queue[JobOf(key)])
  }

  /** What becomes of a node the pass works off. */
  ghost predicate Served(sys: System, sys': System, key: NodeKey, env: Environment) {
    && key in sys.db.plan.nodes && key in sys'.db.plan.nodes
    && var row, obstacle := sys.db.plan.nodes[key], Obstacle(sys.db.plan.nodes[key], key, env);
       && sys'.db.plan.nodes[key] ==
          (if row.state.Pending? then NodeRow(Ready, row.version + 1, row.dependsOn) else row)
       && (if obstacle.None? || obstacle == Some(QUEUE_ENQUEUE_FAILED)
           then HasAttempt(sys.db, sys'.db, key, env.resolve(key.nodeId).routing)
           else SameAttempt(sys.db, sys'.db, key))
       && (if obstacle.None?
           then
             JobOf(key) in sys'.queue && sys'.queue[JobOf(key)] == MakeQueueEnvelope(key.workId, key.nodeId, 1)
           else SameJob(sys.queue, sys'.queue, key))
  }

  // ---- one entry

  lemma CreationSucceeds(db: Db, key: NodeKey, routing: Routing)
    requires AttemptsTidy(db) && key in db.plan.nodes && db.plan.nodes[key].state.Ready?
    ensures var step := CreateAttempt(db, key, AttemptOf(key), 1, JobOf(key), Some(routing));
      && (step.reply.Error? <==> |JobOf(key)| > MAX_ID_LENGTH)
      && (step.reply.Error? ==> step.db == db)
      && (!step.reply.Error? ==>
            HasAttempt(db, step.db, key, routing) && AttemptsTidy(step.db) && step.db.plan == db.plan)
  {
    assert |AttemptOf(key)| > 0 && |JobOf(key)| == |AttemptOf(key)| + 6;
    if AttemptOf(key) !in db.runs.attempts {
      assert !NumberTaken(db, key, 1);
    }
  }

  /** A node that can be handed out is made ready first. */
  lemma MadeReady(db: Db, key: NodeKey)
    requires key in db.plan.nodes && (db.plan.nodes[key].state.Pending? || db.plan.nodes[key].state.Ready?)
    ensures var row, step := db.plan.nodes[key], ReadyStep(db, key, db.plan.nodes[key]);
      && step.reply.GotNode? && step.reply.node.state.Ready? && key in step.db.plan.nodes
      && step.db.plan.nodes[key] == (if row.state.Pending? then NodeRow(Ready, row.version + 1, row.dependsOn) else row)
      && step.db.runs == db.runs
  {
  }

  /** What one entry does and says. */
  ghost predicate EntryServed(sys: System, key: NodeKey, env: Environment, result: EntryResult)
    requires key in sys.db.plan.nodes
  {
    && Served(sys, result.sys, key, env) && AttemptsTidy(result.sys.db)
    && result.outcome == match Obstacle(sys.db.plan.nodes[key], key, env)
                         case None => Dispatched(AttemptOf(key), JobOf(key))
                         case Some(code) => Skipped(code)
  }

  lemma UnroutedEntry(sys: System, key: NodeKey, env: Environment)
    requires AttemptsTidy(sys.db) && key in sys.db.plan.nodes
    requires sys.db.plan.nodes[key].state.Pending? || sys.db.plan.nodes[key].state.Ready?
    requires !env.resolve(key.nodeId).Resolved?
    ensures EntryServed(
      sys, key, env,
      DispatchEntry(sys, key, sys.db.plan.nodes[key], env.resolve(key.nodeId), env.delivers(key.nodeId)))
  {
    MadeReady(sys.db, key);
  }

  lemma RoutedEntry(sys: System, key: NodeKey, env: Environment)
    requires AttemptsTidy(sys.db) && key in sys.db.plan.nodes
    requires sys.db.plan.nodes[key].state.Pending? || sys.db.plan.nodes[key].state.Ready?
    requires env.resolve(key.nodeId).Resolved?
    ensures EntryServed(
      sys, key, env,
      DispatchEntry(sys, key, sys.db.plan.nodes[key], env.resolve(key.nodeId), env.delivers(key.nodeId)))
  {
    MadeReady(sys.db, key);
    CreationSucceeds(
      ReadyStep(sys.db, key, sys.db.plan.nodes[key]).db, key, env.resolve(key.nodeId).routing);
  }

  /** When the store still holds the record the pass read, the entry is served. */
  lemma EntryServes(sys: System, key: NodeKey, env: Environment)
    requires AttemptsTidy(sys.db) && key in sys.db.plan.nodes
    ensures EntryServed(
      sys, key, env,
      DispatchEntry(sys, key, sys.db.plan.nodes[key], env.resolve(key.nodeId), env.delivers(key.nodeId)))
  {
    if sys.db.plan.nodes[key].state.Pending? || sys.db.plan.nodes[key].state.Ready? {
      if env.resolve(key.nodeId).Resolved? {
        RoutedEntry(sys, key, env);
      } else {
        UnroutedEntry(sys, key, env);
      }
    }
  }

  // ---- entries of other nodes

  /** What is stored and queued for the node is as it was. */
  ghost predicate Untouched(sys: System, sys': System, key: NodeKey) {
    && (key in sys'.db.plan.nodes <==> key in sys.db.plan.nodes)
    && (key in sys.db.plan.nodes ==> sys'.db.plan.nodes[key] == sys.db.plan.nodes[key])
    && SameAttempt(sys.db, sys'.db, key) && SameJob(sys.queue, sys'.queue, key)
  }

  lemma OtherReadyLeaves(sys: System, key: NodeKey, record: NodeRow, mine: NodeKey)
    requires key != mine
    ensures Untouched(sys, sys.(db := ReadyStep(sys.db, key, record).db), mine)
  {
  }

  lemma OtherCreationLeaves(sys: System, key: NodeKey, routing: Routing, mine: NodeKey)
    requires AttemptOf(key) != AttemptOf(mine)
    ensures Untouched(
      sys, sys.(db := CreateAttempt(sys.db, key, AttemptOf(key), 1, JobOf(key), Some(routing)).db), mine)
  {
  }

  lemma OtherJobLeaves(sys: System, key: NodeKey, mine: NodeKey)
    requires AttemptOf(key) != AttemptOf(mine)
    ensures var envelope := MakeQueueEnvelope(key.workId, key.nodeId, 1);
      Untouched(sys, sys.(queue := sys.queue[JobOf(key) := envelope]), mine)
  {
    if JobOf(key) == JobOf(mine) {
      DeriveJobIdInjective(AttemptOf(key), AttemptOf(mine));
    }
  }

  lemma OtherEntryLeaves(
    sys: System, key: NodeKey, record: NodeRow, resolution: Resolution, delivered: bool, mine: NodeKey)
    requires key != mine && AttemptOf(key) != AttemptOf(mine)
    ensures Untouched(sys, DispatchEntry(sys, key, record, resolution, delivered).sys, mine)
  {
    var sys1 := sys.(db := ReadyStep(sys.db, key, record).db);
    OtherReadyLeaves(sys, key, record, mine);
    if resolution.Resolved? {
      var sys2 :=
        sys1.(db := CreateAttempt(sys1.db, key, AttemptOf(key), 1, JobOf(key), Some(resolution.routing)).db);
      OtherCreationLeaves(sys1, key, resolution.routing, mine);
      OtherJobLeaves(sys2, key, mine);
    }
  }

  lemma UntouchedOn(sys: System, sys1: System, sys2: System, key: NodeKey)
    requires Untouched(sys, sys1, key) && Untouched(sys1, sys2, key)
    ensures Untouched(sys, sys2, key)
  {
  }

  /** A node served before or after something that does not touch it is served. */
  lemma ServedThrough(sys: System, sys1: System, sys2: System, key: NodeKey, env: Environment)
    requires (Served(sys, sys1, key, env) && Untouched(sys1, sys2, key))
      || (Untouched(sys, sys1, key) && Served(sys1, sys2, key, env))
    ensures Served(sys, sys2, key, env)
  {
  }

  // ---- the whole pass

  /** The entries are for different nodes. */
  predicate Distinct(entries: seq<Frontier.FrontierNode>) {
    forall i, j :: 0 <= i < j < |entries| ==> entries[i].node.id != entries[j].node.id
  }

  /** The unblocked entries that nothing stands in the way of, as the pass reports them, in order. */
  function Dispatchees(s: Snapshot, entries: seq<Frontier.FrontierNode>, env: Environment): seq<(Str, Str)>
    requires forall e :: e in entries ==> e.node.id in s.nodes
  {
    if |entries| == 0 then []
    else
      var key := NodeKey(s.workId, entries[0].node.id);
      (if entries[0].readyAfterScheduling && Obstacle(s.nodes[key.nodeId], key, env).None?
       then [(AttemptOf(key), JobOf(key))] else [])
      + Dispatchees(s, entries[1..], env)
  }

  /** The other unblocked entries, each with what stands in its way. */
  function Skippees(s: Snapshot, entries: seq<Frontier.FrontierNode>, env: Environment): seq<(Str, SkipCode)>
    requires forall e :: e in entries ==> e.node.id in s.nodes
  {
    if |entries| == 0 then []
    else
      var key := NodeKey(s.workId, entries[0].node.id);
      var obstacle := Obstacle(s.nodes[key.nodeId], key, env);
      (if entries[0].readyAfterScheduling && obstacle.Some? then [(key.nodeId, obstacle.value)] else [])
      + Skippees(s, entries[1..], env)
  }

  /** The store still holds the records of these entries. */
  ghost predicate Current(db: Db, s: Snapshot, entries: seq<Frontier.FrontierNode>) {
    forall e :: e in entries ==>
      && e.node.id in s.nodes && NodeKey(s.workId, e.node.id) in db.plan.nodes
      && db.plan.nodes[NodeKey(s.workId, e.node.id)] == s.nodes[e.node.id]
  }

  /** Every unblocked entry is served. */
  ghost predicate AllServed(
    sys: System, sys': System, s: Snapshot, entries: seq<Frontier.FrontierNode>, env: Environment)
  {
    forall e :: e in entries && e.readyAfterScheduling ==> Served(sys, sys', NodeKey(s.workId, e.node.id), env)
  }

  lemma DistinctRest(entries: seq<Frontier.FrontierNode>)
    requires Distinct(entries) && |entries| > 0
    ensures Distinct(entries[1..]) && forall e :: e in entries[1..] ==> e in entries && e.node.id != entries[0].node.id
  {
    forall e | e in entries[1..]
      ensures e in entries && e.node.id != entries[0].node.id
    {
      var i :| 0 <= i < |entries[1..]| && entries[1..][i] == e;
      assert entries[i + 1] == e;
    }
  }

  /** Entries for other nodes of the work leave this one alone. */
  lemma {:induction false} OthersLeave(
    sys: System, s: Snapshot, entries: seq<Frontier.FrontierNode>, env: Environment, n: Str)
    requires forall e :: e in entries ==> e.node.id in s.nodes && e.node.id != n
    ensures Untouched(sys, DispatchAll(sys, s, entries, env).sys, NodeKey(s.workId, n))
    decreases |entries|
  {
    if |entries| > 0 {
      assert entries[0] in entries;
      if entries[0].readyAfterScheduling {
        var m := entries[0].node.id;
        var key := NodeKey(s.workId, m);
        var result := DispatchEntry(sys, key, s.nodes[m], env.resolve(m), env.delivers(m));
        BlockedDispatch.OtherIds(s.workId, m, n);
        OtherEntryLeaves(sys, key, s.nodes[m], env.resolve(m), env.delivers(m), NodeKey(s.workId, n));
        OthersLeave(result.sys, s, entries[1..], env, n);
        UntouchedOn(sys, result.sys, DispatchAll(result.sys, s, entries[1..], env).sys, NodeKey(s.workId, n));
      } else {
        OthersLeave(sys, s, entries[1..], env, n);
      }
    }
  }

  /** The first entry leaves the records of the others as they are. */
  lemma FirstLeavesRest(
    sys: System, s: Snapshot, entries: seq<Frontier.FrontierNode>, env: Environment, e: Frontier.FrontierNode)
    requires Distinct(entries) && |entries| > 0 && e in entries[1..] && entries[0].node.id in s.nodes
    ensures var m := entries[0].node.id;
      var sys1 := DispatchEntry(sys, NodeKey(s.workId, m), s.nodes[m], env.resolve(m), env.delivers(m)).sys;
      Untouched(sys, sys1, NodeKey(s.workId, e.node.id))
  {
    var m := entries[0].node.id;
    DistinctRest(entries);
    BlockedDispatch.OtherIds(s.workId, m, e.node.id);
    OtherEntryLeaves(
      sys, NodeKey(s.workId, m), s.nodes[m], env.resolve(m), env.delivers(m), NodeKey(s.workId, e.node.id));
  }

  /** The pass over these entries reports and does what it should. */
  ghost predicate PassServes(
    sys: System, s: Snapshot, entries: seq<Frontier.FrontierNode>, env: Environment, r: PassResult)
    requires forall e :: e in entries ==> e.node.id in s.nodes
  {
    && r.dispatched == Dispatchees(s, entries, env) && r.skipped == Skippees(s, entries, env)
    && AllServed(sys, r.sys, s, entries, env)
  }

  lemma {:induction false} EntriesServed(
    sys: System, s: Snapshot, entries: seq<Frontier.FrontierNode>, env: Environment)
    requires AttemptsTidy(sys.db) && Distinct(entries) && Current(sys.db, s, entries)
    ensures PassServes(sys, s, entries, env, DispatchAll(sys, s, entries, env))
    decreases |entries|
  {
    if |entries| > 0 {
      var e, rest := entries[0], entries[1..];
      assert e in entries;
      DistinctRest(entries);
      if e.readyAfterScheduling {
        var key := NodeKey(s.workId, e.node.id);
        var result := DispatchEntry(sys, key, s.nodes[e.node.id], env.resolve(e.node.id), env.delivers(e.node.id));
        EntryServes(sys, key, env);
        forall f | f in rest
          ensures Untouched(sys, result.sys, NodeKey(s.workId, f.node.id))
        {
          FirstLeavesRest(sys, s, entries, env, f);
        }
        EntriesServed(result.sys, s, rest, env);
        OthersLeave(result.sys, s, rest, env, e.node.id);
        ServedTogether(sys, result.sys, DispatchAll(result.sys, s, rest, env).sys, s, entries, env);
      } else {
        EntriesServed(sys, s, rest, env);
        assert AllServed(sys, DispatchAll(sys, s, rest, env).sys, s, entries, env);
      }
    }
  }

  lemma ServedTogether(
    sys: System, sys1: System, sys2: System, s: Snapshot, entries: seq<Frontier.FrontierNode>, env: Environment)
    requires |entries| > 0 && Distinct(entries)
    requires Served(sys, sys1, NodeKey(s.workId, entries[0].node.id), env)
    requires Untouched(sys1, sys2, NodeKey(s.workId, entries[0].node.id))
    requires forall f :: f in entries[1..] ==> Untouched(sys, sys1, NodeKey(s.workId, f.node.id))
    requires AllServed(sys1, sys2, s, entries[1..], env)
    ensures AllServed(sys, sys2, s, entries, env)
  {
    forall e | e in entries && e.readyAfterScheduling
      ensures Served(sys, sys2, NodeKey(s.workId, e.node.id), env)
    {
      ServedThrough(sys, sys1, sys2, NodeKey(s.workId, e.node.id), env);
    }
  }

  /**
   Dispatch does its work. From a valid store with dispatchers' attempts and the true frontier,
   every unblocked node of the frontier that is pending or ready is reported as dispatched if and
   only if its route resolves, its job id is at most 200 long and the queue takes the job; it is
   then ready, with its attempt, routing and job. Every other unblocked node is reported once, with
   the first thing that stands in its way.
   */
  lemma PassDispatches(
    sys: System, workId: Str, blockers: map<Str, Str>, frontier: seq<Frontier.FrontierNode>, env: Environment)
    requires Valid(sys.db) && OneAttemptEach(sys.db.runs.attempts) && Distinct(frontier)
    requires IsFrontier(ReadNodes(sys.db, workId), blockers, frontier)
    ensures var s := ReadNodes(sys.db, workId); PassServes(sys, s, frontier, env, DispatchAll(sys, s, frontier, env))
    ensures forall e :: e in frontier ==> (e.readyAfterScheduling <==> e.node.id !in blockers)
  {
    EntriesServed(sys, ReadNodes(sys.db, workId), frontier, env);
  }

  /** The attempt of a node that was handed out is its own, unless another node had it before. */
  lemma OwnAttempt(sys: System, sys': System, key: NodeKey, env: Environment)
    requires Served(sys, sys', key, env) && Obstacle(sys.db.plan.nodes[key], key, env).None?
    ensures sys'.db.runs.attempts[AttemptOf(key)].node == key <==>
      (AttemptOf(key) in sys.db.runs.attempts ==> sys.db.runs.attempts[AttemptOf(key)].node == key)
  {
  }
}
