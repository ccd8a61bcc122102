/**
 A node with a recorded blocker in dispatch passes (src/domains/orchestration/dispatch-service.ts):
 no pass ever hands it out, whatever has become of the blocker.
 */
module BlockedDispatch {
  import opened Text
  import opened Identifiers
  import opened StoreModel
  import opened StoreInvariants
  import opened StoreRuns
  import opened DispatchSafety
  import opened ReconcileModel
  import opened DispatchService
  import opened Lifecycle
  import Frontier = ReadyFrontier

  // ---- one pass

  /** The entries are none of this node's, except such as the pass goes past. */
  ghost predicate GoesPast(entries: seq<Frontier.FrontierNode>, n: Str) {
    forall e :: e in entries && e.node.id == n ==> !e.readyAfterScheduling
  }

  lemma BlockedGoesPast(snapshot: Snapshot, blockers: map<Str, Str>, frontier: seq<Frontier.FrontierNode>, n: Str)
    requires IsFrontier(snapshot, blockers, frontier) && n in blockers
    ensures GoesPast(frontier, n)
  {
  }

  /** The node has no attempts but those it had. */
  ghost predicate AttemptsKept(attempts: map<Str, AttemptRow>, attempts': map<Str, AttemptRow>, key: NodeKey) {
    forall a :: a in attempts' && attempts'[a].node == key ==> a in attempts && attempts[a] == attempts'[a]
  }

  /** An entry of another node leaves the node's row as it is and says nothing about the node. */
  lemma OtherEntry(sys: System, key: NodeKey, record: NodeRow, resolution: Resolution, delivered: bool, mine: NodeKey)
    requires key != mine
    ensures var db' := DispatchEntry(sys, key, record, resolution, delivered).sys.db;
      && (mine in db'.plan.nodes <==> mine in sys.db.plan.nodes)
      && (mine in sys.db.plan.nodes ==> db'.plan.nodes[mine] == sys.db.plan.nodes[mine])
      && AttemptsKept(sys.db.runs.attempts, db'.runs.attempts, mine)
  {
  }

  /** The pass does nothing to the node. */
  ghost predicate NodeKept(db: Db, db': Db, mine: NodeKey) {
    && (mine in db'.plan.nodes <==> mine in db.plan.nodes)
    && (mine in db.plan.nodes ==> db'.plan.nodes[mine] == db.plan.nodes[mine])
    && AttemptsKept(db.runs.attempts, db'.runs.attempts, mine)
  }

  /** And it reports nothing about it. */
  ghost predicate Unreported(r: PassResult, mine: NodeKey) {
    var id := DeriveAttemptId(mine.workId, mine.nodeId, 1);
    (id, DeriveJobId(id)) !in r.dispatched && forall code :: (mine.nodeId, code) !in r.skipped
  }

  /** Within one work different nodes have different attempt ids. */
  lemma OtherIds(workId: Str, n: Str, m: Str)
    requires n != m
    ensures DeriveAttemptId(workId, n, 1) != DeriveAttemptId(workId, m, 1)
  {
    AttemptIdParts(workId, n);
    AttemptIdParts(workId, m);
  }

  /** The node id stands between the work id and the number. */
  lemma AttemptIdParts(workId: Str, n: Str)
    ensures var id := DeriveAttemptId(workId, n, 1);
      var start := |ATTEMPT_SCHEME| + |workId| + 1;
      |id| == start + |n| + 1 + |Decimal(1)| && id[start..start + |n|] == n
  {
  }

  lemma EntryUnreported(key: NodeKey, sys: System, record: NodeRow, env: Environment, rest: PassResult, mine: NodeKey)
    requires key.workId == mine.workId && key.nodeId != mine.nodeId && Unreported(rest, mine)
    ensures var entry := DispatchEntry(sys, key, record, env.resolve(key.nodeId), env.delivers(key.nodeId));
      Unreported(Record(key.nodeId, entry.outcome, rest), mine)
  {
    OtherIds(mine.workId, mine.nodeId, key.nodeId);
  }

  lemma {:induction false} PassGoesPast(
    sys: System, s: Snapshot, entries: seq<Frontier.FrontierNode>, env: Environment, n: Str)
    requires (forall e :: e in entries ==> e.node.id in s.nodes) && GoesPast(entries, n)
    ensures var r := DispatchAll(sys, s, entries, env);
      NodeKept(sys.db, r.sys.db, NodeKey(s.workId, n)) && Unreported(r, NodeKey(s.workId, n))
    decreases |entries|
  {
    if |entries| > 0 {
      var m := entries[0].node.id;
      assert entries[0] in entries;
      if entries[0].readyAfterScheduling {
        var key := NodeKey(s.workId, m);
        var result := DispatchEntry(sys, key, s.nodes[m], env.resolve(m), env.delivers(m));
        OtherEntry(sys, key, s.nodes[m], env.resolve(m), env.delivers(m), NodeKey(s.workId, n));
        PassGoesPast(result.sys, s, entries[1..], env, n);
        EntryUnreported(key, sys, s.nodes[m], env, DispatchAll(result.sys, s, entries[1..], env), NodeKey(s.workId, n));
      } else {
        PassGoesPast(sys, s, entries[1..], env, n);
      }
    }
  }

  /** A pass with a blocker recorded for the node. */
  lemma PassLeavesBlocked(
    sys: System, workId: Str, blockers: map<Str, Str>, frontier: seq<Frontier.FrontierNode>, env: Environment, n: Str)
    requires IsFrontier(ReadNodes(sys.db, workId), blockers, frontier) && n in blockers
    ensures var r := DispatchAll(sys, ReadNodes(sys.db, workId), frontier, env);
      NodeKept(sys.db, r.sys.db, NodeKey(workId, n)) && Unreported(r, NodeKey(workId, n))
  {
    BlockedGoesPast(ReadNodes(sys.db, workId), blockers, frontier, n);
    PassGoesPast(sys, ReadNodes(sys.db, workId), frontier, env, n);
  }

  // ---- all passes

  /** A dispatch pass, or any other call of the store. */
  datatype Event =
    | Pass(workId: Str, blockers: map<Str, Str>, frontier: seq<Frontier.FrontierNode>, env: Environment)
    | Elsewhere(call: Call)

  /**
   Passes over the node's work know its blocker, and only dispatch makes the node ready and
   creates its attempts.
   */
  ghost predicate Fits(sys: System, e: Event, key: NodeKey) {
    match e
    case Pass(workId, blockers, frontier, _) =>
      IsFrontier(ReadNodes(sys.db, workId), blockers, frontier) && (workId == key.workId ==> key.nodeId in blockers)
    case Elsewhere(call) =>
      && (call.TransitionCall? ==> call.key != key) && (call.CreateAttemptCall? ==> call.key != key)
  }

  ghost function After(sys: System, e: Event): System
    requires e.Pass? ==> IsFrontier(ReadNodes(sys.db, e.workId), e.blockers, e.frontier)
  {
    match e
    case Pass(workId, _, frontier, env) => DispatchAll(sys, ReadNodes(sys.db, workId), frontier, env).sys
    case Elsewhere(call) => sys.(db := Apply(sys.db, call).db)
  }

  ghost predicate IsHistory(states: seq<System>, events: seq<Event>, key: NodeKey) {
    && |states| == |events| + 1
    && forall i {:trigger events[i]} :: 0 <= i < |events| ==>
      Fits(states[i], events[i], key) && states[i + 1] == After(states[i], events[i])
  }

  /** The node waits, without an attempt. */
  ghost predicate Waits(db: Db, key: NodeKey) {
    && key in db.plan.nodes && db.plan.nodes[key].state.Pending?
    && forall a :: a in db.runs.attempts ==> db.runs.attempts[a].node != key
  }

  lemma {:induction false} OtherWorkPass(
    sys: System, s: Snapshot, entries: seq<Frontier.FrontierNode>, env: Environment, mine: NodeKey)
    requires (forall e :: e in entries ==> e.node.id in s.nodes) && s.workId != mine.workId
    ensures NodeKept(sys.db, DispatchAll(sys, s, entries, env).sys.db, mine)
    decreases |entries|
  {
    if |entries| > 0 {
      var m := entries[0].node.id;
      assert entries[0] in entries;
      if entries[0].readyAfterScheduling {
        var key := NodeKey(s.workId, m);
        var result := DispatchEntry(sys, key, s.nodes[m], env.resolve(m), env.delivers(m));
        OtherEntry(sys, key, s.nodes[m], env.resolve(m), env.delivers(m), mine);
        OtherWorkPass(result.sys, s, entries[1..], env, mine);
      } else {
        OtherWorkPass(sys, s, entries[1..], env, mine);
      }
    }
  }

  /** An imported row is a pending one. */
  lemma ImportLeavesPending(db: Db, call: Call, key: NodeKey)
    requires IsImport(call) && key in db.plan.nodes && db.plan.nodes[key].state.Pending?
    ensures var nodes := ApplyImport(db, call).db.plan.nodes; key in nodes && nodes[key].state.Pending?
  {
    ImportChanges(db, call);
    FreshRowsContent(ImportedWork(call).workId, GraphOf(ImportedWork(call)), key);
  }

  /** A pending node is moved by a transition only. */
  lemma RowCallLeavesPending(db: Db, call: Call, key: NodeKey)
    requires !IsImport(call) && key in db.plan.nodes && db.plan.nodes[key].state.Pending?
    requires call.TransitionCall? ==> call.key != key
    ensures var nodes := ApplyRowCall(db, call).db.plan.nodes; key in nodes && nodes[key].state.Pending?
  {
    if !call.TransitionCall? && !call.CompleteCall? {
      RowCallNodes(db, call);
    }
  }

  lemma CallLeavesNoAttempt(db: Db, call: Call, key: NodeKey, a: Str)
    requires forall b :: b in db.runs.attempts ==> db.runs.attempts[b].node != key
    requires (call.CreateAttemptCall? ==> call.key != key) && a in Apply(db, call).db.runs.attempts
    ensures Apply(db, call).db.runs.attempts[a].node != key
  {
    if !call.CreateAttemptCall? {
      OnlyCreationAddsAttempts(db, call, a);
    }
  }

  lemma CallLeavesWaiting(db: Db, call: Call, key: NodeKey)
    requires Waits(db, key) && (call.TransitionCall? ==> call.key != key)
      && (call.CreateAttemptCall? ==> call.key != key)
    ensures Waits(Apply(db, call).db, key)
  {
    if IsImport(call) {
      ImportLeavesPending(db, call, key);
    } else {
      RowCallLeavesPending(db, call, key);
    }
    forall a | a in Apply(db, call).db.runs.attempts
      ensures Apply(db, call).db.runs.attempts[a].node != key
    {
      CallLeavesNoAttempt(db, call, key, a);
    }
  }

  lemma EventLeavesWaiting(sys: System, e: Event, key: NodeKey)
    requires Waits(sys.db, key) && Fits(sys, e, key)
    ensures Waits(After(sys, e).db, key)
  {
    match e
    case Pass(workId, blockers, frontier, env) =>
      if workId == key.workId {
        PassLeavesBlocked(sys, workId, blockers, frontier, env, key.nodeId);
      } else {
        OtherWorkPass(sys, ReadNodes(sys.db, workId), frontier, env, key);
      }
    case Elsewhere(call) => CallLeavesWaiting(sys.db, call, key);
  }

  /**
   A node with a recorded blocker is dispatched by no pass ever: whatever passes and other calls
   there are, and whatever becomes of its blocker, it stays pending and gets no attempt.
   */
  lemma {:induction false} BlockedForEver(states: seq<System>, events: seq<Event>, key: NodeKey, i: nat)
    requires IsHistory(states, events, key) && Waits(states[0].db, key) && i < |states|
    ensures Waits(states[i].db, key)
  {
    if i > 0 {
      BlockedForEver(states, events, key, i - 1);
      EventLeavesWaiting(states[i - 1], events[i - 1], key);
    }
  }
}
