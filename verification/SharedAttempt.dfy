/**
 How two nodes come to share an attempt when a node id contains a slash: a run from the empty
 store through two imports and two dispatch passes.
 */
module SharedAttempt {
  import opened Text
  import opened Wrappers
  import opened Lifecycle
  import opened Identifiers
  import opened StoreModel
  import opened StoreInvariants
  import opened DispatchSafety
  import opened ReconcileModel
  import opened DispatchService
  import Graph
  import Frontier = ReadyFrontier

  /** A decomposed work of one node without dependencies. */
  function LoneWork(key: NodeKey): ApprovedWork {
    ApprovedWork(key.workId, Decomposition, [], [ApprovedNode([], Graph.Node(key.nodeId, []))])
  }

  /** Node `m/n` of work `w`, and node `n` of work `w/m`. */
  function Mine(w: Str, m: Str, n: Str): NodeKey {
    NodeKey(w, m + [SLASH] + n)
  }

  function Other(w: Str, m: Str, n: Str): NodeKey {
    NodeKey(w + [SLASH] + m, n)
  }

  const FRESH := NodeRow(Pending, 1, [])

  /** The store after importing one work of one node, and then a second one. */
  ghost function Imported(first: NodeKey, second: NodeKey): Db {
    Apply(Apply(EmptyDb, ImportWorkCall(LoneWork(first))).db, ImportWorkCall(LoneWork(second))).db
  }

  predicate Importable(key: NodeKey) {
    IsNonEmptyString(key.workId, MAX_ID_LENGTH) && IsNonEmptyString(key.nodeId, MAX_ID_LENGTH)
  }

  lemma LoneImport(db: Db, key: NodeKey)
    requires Importable(key) && key.workId !in db.plan.works
    ensures var db' := Apply(db, ImportWorkCall(LoneWork(key))).db;
      && db'.plan.works.Keys == db.plan.works.Keys + {key.workId} && db'.plan.nodes == db.plan.nodes[key := FRESH]
      && db'.runs == db.runs && db'.results == db.results
  {
    var work := LoneWork(key);
    LoneWorkChecks(work);
    assert GraphOf(work) == [work.nodes[0].graph];
    LoneFreshRows(key.workId, work.nodes[0].graph);
    assert NoDuplicates(work.nodes[0].graph.dependsOn);
  }

  lemma ImportedNodes(first: NodeKey, second: NodeKey)
    requires Importable(first) && Importable(second) && first.workId != second.workId
    ensures var db := Imported(first, second);
      db.plan.nodes == map[first := FRESH, second := FRESH] && db.runs == EmptyDb.runs
  {
    LoneImport(EmptyDb, first);
    LoneImport(Apply(EmptyDb, ImportWorkCall(LoneWork(first))).db, second);
  }

  function EntryOf(key: NodeKey): Frontier.FrontierNode {
    Frontier.FrontierNode(Graph.Node(key.nodeId, []), true, None)
  }

  /** The frontier of a work of one pending node without dependencies or blockers is that node. */
  lemma LoneFrontier(db: Db, key: NodeKey)
    requires key in db.plan.nodes && db.plan.nodes[key] == FRESH
    requires forall k :: k in db.plan.nodes && k.workId == key.workId ==> k == key
    ensures IsFrontier(ReadNodes(db, key.workId), map[], [EntryOf(key)])
    ensures ReadNodes(db, key.workId) == Snapshot(key.workId, map[key.nodeId := FRESH])
  {
    var s := ReadNodes(db, key.workId);
    assert s.nodes.Keys == {key.nodeId};
  }

  /** One dispatch pass over a work without blockers. */
  ghost predicate IsPass(
    sys: System, workId: Str, frontier: seq<Frontier.FrontierNode>, env: Environment, r: PassResult)
  {
    IsFrontier(ReadNodes(sys.db, workId), map[], frontier)
      && r == DispatchAll(sys, ReadNodes(sys.db, workId), frontier, env)
  }

  /** A node that is alone in its work, fresh, without an attempt, and can be routed and delivered. */
  ghost predicate Dispatchable(sys: System, key: NodeKey, env: Environment) {
    && key in sys.db.plan.nodes && sys.db.plan.nodes[key] == FRESH
    && (forall k :: k in sys.db.plan.nodes && k.workId == key.workId ==> k == key)
    && env.resolve(key.nodeId).Resolved? && env.delivers(key.nodeId)
    && sys.db.runs.routing.Keys == sys.db.runs.attempts.Keys
    && (forall a :: a in sys.db.runs.attempts ==> sys.db.runs.attempts[a].node != key)
    && |DeriveJobId(DeriveAttemptId(key.workId, key.nodeId, 1))| <= MAX_ID_LENGTH
  }

  /** What a pass over such a work does: it creates the attempt, or finds the id taken and goes on. */
  ghost predicate Handed(sys: System, key: NodeKey, r: PassResult) {
    var id := DeriveAttemptId(key.workId, key.nodeId, 1);
    var job := DeriveJobId(id);
    && r.dispatched == [(id, job)] && r.skipped == []
    && r.sys.db.plan.nodes == sys.db.plan.nodes[key := NodeRow(Ready, 2, [])]
    && r.sys.queue == sys.queue[job := MakeQueueEnvelope(key.workId, key.nodeId, 1)]
    && r.sys.db.runs.attempts ==
         (if id in sys.db.runs.attempts then sys.db.runs.attempts
          else sys.db.runs.attempts[id := AttemptRow(key, 1, Created, job, 0)])
    && r.sys.db.runs.routing.Keys == r.sys.db.runs.attempts.Keys
    && r.sys.db.runs.leases == sys.db.runs.leases && r.sys.db.results == sys.db.results
  }

  lemma LonePass(sys: System, key: NodeKey, env: Environment) returns (r: PassResult)
    requires Dispatchable(sys, key, env)
    ensures IsPass(sys, key.workId, [EntryOf(key)], env, r) && Handed(sys, key, r)
  {
    var id := DeriveAttemptId(key.workId, key.nodeId, 1);
    LoneFrontier(sys.db, key);
    r := DispatchAll(sys, ReadNodes(sys.db, key.workId), [EntryOf(key)], env);
    assert |id| > 0 && |DeriveJobId(id)| == |id| + 6;
    assert [EntryOf(key)][1..] == [];
    var entry := DispatchEntry(sys, key, FRESH, env.resolve(key.nodeId), env.delivers(key.nodeId));
    assert entry.outcome == Dispatched(id, DeriveJobId(id));
  }

  lemma StillDispatchable(sys: System, other: NodeKey, r: PassResult, mine: NodeKey, env: Environment)
    requires Handed(sys, other, r) && Dispatchable(sys, mine, env) && mine.workId != other.workId
    ensures Dispatchable(r.sys, mine, env)
  {
  }

  /**
   Both passes report the same attempt and job as dispatched; the one attempt row belongs to the
   first node, and the one queued job names the second.
   */
  ghost predicate Shares(
    sys: System, other: NodeKey, mine: NodeKey, env: Environment, first: PassResult, second: PassResult)
  {
    var id := DeriveAttemptId(mine.workId, mine.nodeId, 1);
    var job := DeriveJobId(id);
    && other != mine
    && IsPass(sys, other.workId, [EntryOf(other)], env, first)
    && IsPass(first.sys, mine.workId, [EntryOf(mine)], env, second)
    && first.dispatched == second.dispatched == [(id, job)]
    && second.sys.db.runs.attempts == map[id := AttemptRow(other, 1, Created, job, 0)]
    && second.sys.queue == map[job := MakeQueueEnvelope(mine.workId, mine.nodeId, 1)]
  }

  lemma TwoPasses(sys: System, other: NodeKey, mine: NodeKey, env: Environment)
    returns (first: PassResult, second: PassResult)
    requires Dispatchable(sys, other, env) && Dispatchable(sys, mine, env) && other.workId != mine.workId
    requires DeriveAttemptId(mine.workId, mine.nodeId, 1) == DeriveAttemptId(other.workId, other.nodeId, 1)
    requires sys.db.runs.attempts == map[] && sys.queue == map[]
    ensures Shares(sys, other, mine, env, first, second)
  {
    first := LonePass(sys, other, env);
    StillDispatchable(sys, other, first, mine, env);
    second := LonePass(first.sys, mine, env);
  }

  /** Such parts as have ids of allowed length. */
  predicate Allowed(w: Str, m: Str, n: Str) {
    |w| > 0 && |n| > 0 && |DeriveJobId(DeriveAttemptId(w, m + [SLASH] + n, 1))| <= MAX_ID_LENGTH
  }

  predicate Serves(env: Environment, n: Str) {
    env.resolve(n).Resolved? && env.delivers(n)
  }

  lemma BothDispatchable(other: NodeKey, mine: NodeKey, env: Environment)
    requires Importable(other) && Importable(mine) && other.workId != mine.workId
    requires Serves(env, other.nodeId) && Serves(env, mine.nodeId)
    requires |DeriveJobId(DeriveAttemptId(mine.workId, mine.nodeId, 1))| <= MAX_ID_LENGTH
    requires |DeriveJobId(DeriveAttemptId(other.workId, other.nodeId, 1))| <= MAX_ID_LENGTH
    ensures var sys := System(Imported(other, mine), map[]);
      Dispatchable(sys, other, env) && Dispatchable(sys, mine, env) && sys.db.runs.attempts == map[]
  {
    ImportedNodes(other, mine);
  }

  /**
   With slashes an attempt is shared. For any parts `w`, `m` and `n` of allowed length: import
   work `w/m` with node `n` and work `w` with node `m/n` into an empty store and run one dispatch
   pass over each.
   */
  lemma SlashSharesAttempt(w: Str, m: Str, n: Str, env: Environment) returns (first: PassResult, second: PassResult)
    requires Allowed(w, m, n) && Serves(env, n) && Serves(env, m + [SLASH] + n)
    ensures Shares(System(Imported(Other(w, m, n), Mine(w, m, n)), map[]), Other(w, m, n), Mine(w, m, n), env, first,
      second)
  {
    var other, mine := Other(w, m, n), Mine(w, m, n);
    DeriveAttemptIdCollision(w, m, n, 1);
    IdLengths(w, m, n);
    BothDispatchable(other, mine, env);
    first, second := TwoPasses(System(Imported(other, mine), map[]), other, mine, env);
  }

  lemma IdLengths(w: Str, m: Str, n: Str)
    requires Allowed(w, m, n)
    ensures Importable(Mine(w, m, n)) && Importable(Other(w, m, n)) && w != w + [SLASH] + m
  {
    assert |w| != |w + [SLASH] + m|;
  }
}
