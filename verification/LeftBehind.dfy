/**
 How a cut-off reconciliation leaves a job behind: a run from the empty store through an import,
 a dispatch pass, a worker that claims and reports, and two reconciliations.
 */
module LeftBehind {
  import opened Text
  import opened Wrappers
  import opened Lifecycle
  import opened Identifiers
  import opened StoreModel
  import opened ReconcileModel
  import opened ReconcileJobs
  import opened DispatchService
  import opened SharedAttempt

  /** A worker's lease, and when it submits which result. */
  datatype Worker = Worker(
    owner: Str, token: Str, issuedAt: int, expiresAt: int, resultId: Str, outcome: StoreModel.Outcome, reportedAt: int)

  predicate Reports(w: Worker) {
    && IsNonEmptyString(w.owner, MAX_OWNER_LENGTH) && IsNonEmptyString(w.token, MAX_TOKEN_LENGTH)
    && IsNonEmptyString(w.resultId, MAX_RESULT_ID_LENGTH) && w.reportedAt < w.expiresAt
  }

  function AttemptOf(key: NodeKey): Str {
    DeriveAttemptId(key.workId, key.nodeId, 1)
  }

  function ResultOf(key: NodeKey, w: Worker): WorkerResult {
    WorkerResult(ResultRow(w.resultId, AttemptOf(key), key, w.outcome, [0x52], None, None, 1, 3), w.token)
  }

  /** The dispatched node is started and claimed, and its result is accepted but not yet completed. */
  function Reported(db: Db, key: NodeKey, w: Worker): Db {
    var started := ApplyRowCall(db, TransitionCall(key, 2, InProgress)).db;
    var claimed := ApplyRowCall(started, ClaimCall(AttemptOf(key), w.owner, w.token, w.expiresAt, w.issuedAt)).db;
    ApplyRowCall(claimed, AcceptCall(ResultOf(key, w), w.reportedAt)).db
  }

  /** The only attempt has an accepted result that waits for completion, and its job is queued. */
  ghost predicate Authorized(sys: System, key: NodeKey, w: Worker) {
    var a := AttemptOf(key);
    && sys.db.plan.nodes == map[key := NodeRow(InProgress, 3, [])]
    && sys.db.runs.attempts == map[a := AttemptRow(key, 1, ResultAccepted, DeriveJobId(a), 1)]
    && sys.db.runs.leases == map[a := LeaseRow(1, w.owner, Sha256(w.token), w.issuedAt, w.expiresAt)]
    && sys.db.results == ResultTables(
         map[a := ResultOf(key, w).row], map[a := AuthorizationRow(key, w.resultId, 3)], map[])
    && sys.queue == map[DeriveJobId(a) := MakeQueueEnvelope(key.workId, key.nodeId, 1)]
  }

  lemma ReportedRows(db: Db, queue: map<Str, QueueEnvelope>, key: NodeKey, w: Worker)
    requires Importable(key) && |DeriveJobId(AttemptOf(key))| <= MAX_ID_LENGTH && Reports(w)
    requires db.plan.nodes == map[key := NodeRow(Ready, 2, [])]
    requires db.runs.attempts == map[AttemptOf(key) := AttemptRow(key, 1, Created, DeriveJobId(AttemptOf(key)), 0)]
    requires db.runs.leases == map[] && db.results == EmptyDb.results
    requires queue == map[DeriveJobId(AttemptOf(key)) := MakeQueueEnvelope(key.workId, key.nodeId, 1)]
    ensures Authorized(System(Reported(db, key, w), queue), key, w)
  {
    var a := AttemptOf(key);
    assert |a| > 0 && |DeriveJobId(a)| == |a| + 6;
    var started := ApplyRowCall(db, TransitionCall(key, 2, InProgress)).db;
    assert started == db.(plan := db.plan.(nodes := map[key := NodeRow(InProgress, 3, [])]));
    var claimed := ApplyRowCall(started, ClaimCall(a, w.owner, w.token, w.expiresAt, w.issuedAt)).db;
    assert claimed.runs.leases == map[a := LeaseRow(1, w.owner, Sha256(w.token), w.issuedAt, w.expiresAt)];
    assert claimed.runs.attempts == map[a := AttemptRow(key, 1, Leased, DeriveJobId(a), 1)];
  }

  // ---- the reconciliations

  lemma KeepOneOf(a: Str, s: set<Str>)
    ensures Keep([a], s) == if a in s then [a] else []
  {
    assert |[a][1..]| == 0;
  }

  lemma AuthorizedEffects(sys: System, key: NodeKey, w: Worker, now: int)
    requires Authorized(sys, key, w)
    ensures Effects(sys, [AttemptOf(key)], now)
      == [Complete(key, AttemptOf(key)), RemoveJob(DeriveJobId(AttemptOf(key)))]
    ensures CompleteAuthorizedResult(sys.db, key, AttemptOf(key)).reply.GotNode?
  {
    var a := AttemptOf(key);
    KeepOneOf(a, CreatedAttempts(sys.db));
    KeepOneOf(a, ExpiredAttempts(sys.db, now));
    KeepOneOf(a, sys.db.results.authorizations.Keys);
    assert FirstPass(sys, [a]) == [] && SecondPass(sys, [a], now) == [];
    assert Play(sys, [], now) == sys;
    var first := CompletionOf(sys.db, a);
    assert first == [Complete(key, a), RemoveJob(DeriveJobId(a))];
    var ids: seq<Str> := [a];
    assert |ids[1..]| == 0;
    assert CompletionEffects(sys, [a], now) == first + [];
  }

  lemma AuthorizedConsumed(sys: System, key: NodeKey, w: Worker, now: int)
    requires Authorized(sys, key, w)
    ensures var a := AttemptOf(key);
      && a !in Reconciled(sys, [a], now).db.results.authorizations
      && 1 <= |Effects(sys, [a], now)| && a !in Cut(sys, [a], now, 1).db.results.authorizations
  {
    var a := AttemptOf(key);
    var sys1 := PlayOne(sys, Complete(key, a), now);
    AuthorizedEffects(sys, key, w, now);
    var effects := Effects(sys, [a], now);
    assert effects[1..] == [RemoveJob(DeriveJobId(a))] && effects[..1] == [Complete(key, a)];
    assert Play(sys, effects, now) == Play(sys1, [RemoveJob(DeriveJobId(a))], now);
    assert |[RemoveJob(DeriveJobId(a))][1..]| == 0 && |[Complete(key, a)][1..]| == 0;
    assert Play(sys1, [RemoveJob(DeriveJobId(a))], now).db == sys1.db;
    assert Play(sys, effects[..1], now) == sys1;
  }

  /**
   Cut off between the completion and the removal, and run again: the job is still there, as it
   is not after one uninterrupted run.
   */
  ghost predicate JobStays(sys: System, a: Str, now: int) {
    && !JobQueued(Reconciled(sys, [a], now), a)
    && 1 <= |Effects(sys, [a], now)| && JobQueued(Reconciled(Cut(sys, [a], now, 1), [a], now), a)
  }

  lemma AuthorizedJobStays(sys: System, key: NodeKey, w: Worker, now: int)
    requires Authorized(sys, key, w)
    ensures JobStays(sys, AttemptOf(key), now)
  {
    var a := AttemptOf(key);
    AuthorizedConsumed(sys, key, w, now);
    AuthorizedEffects(sys, key, w, now);
    JobAfterOneRun(sys, [a], now, a);
    QueueAfterCutOff(sys, [a], now, 1, a);
    assert !Removes(Effects(sys, [a], now)[..1], a);
    assert JobQueued(sys, a);
  }

  // ---- the whole run

  /** One pass over an import alone in the store. */
  lemma FirstPassOver(key: NodeKey, env: Environment) returns (pass: PassResult)
    requires Importable(key) && |DeriveJobId(AttemptOf(key))| <= MAX_ID_LENGTH && Serves(env, key.nodeId)
    ensures var sys := System(Apply(EmptyDb, ImportWorkCall(LoneWork(key))).db, map[]);
      && IsPass(sys, key.workId, [EntryOf(key)], env, pass) && Handed(sys, key, pass)
      && sys.db.plan.nodes == map[key := FRESH] && sys.db.runs == EmptyDb.runs && sys.db.results == EmptyDb.results
  {
    LoneImport(EmptyDb, key);
    pass := LonePass(System(Apply(EmptyDb, ImportWorkCall(LoneWork(key))).db, map[]), key, env);
  }

  /**
   Import any work of one node into the empty store, dispatch it, let a worker claim it and have
   its result accepted, and let the process die there. If the reconciliation is cut off right
   after the completion, the job stays behind.
   */
  lemma JobLeftBehind(key: NodeKey, env: Environment, w: Worker, now: int) returns (pass: PassResult)
    requires Importable(key) && |DeriveJobId(AttemptOf(key))| <= MAX_ID_LENGTH && Serves(env, key.nodeId) && Reports(w)
    ensures IsPass(
      System(Apply(EmptyDb, ImportWorkCall(LoneWork(key))).db, map[]), key.workId, [EntryOf(key)], env, pass)
    ensures JobStays(System(Reported(pass.sys.db, key, w), pass.sys.queue), AttemptOf(key), now)
  {
    pass := FirstPassOver(key, env);
    ReportedRows(pass.sys.db, pass.sys.queue, key, w);
    AuthorizedJobStays(System(Reported(pass.sys.db, key, w), pass.sys.queue), key, w, now);
  }
}
