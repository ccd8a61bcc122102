/**
 The rows of the SQLite store and what each of its transactions does to them
 (src/domains/orchestration/sqlite-store.ts). One transaction is one function from the
 database before to the database after and the reply.
 */
module StoreModel {
  import opened Text
  import opened Wrappers
  import opened Lifecycle
  import Graph

  const MAX_ID_LENGTH := 200
  const MAX_NODES := 500
  const MAX_DEPENDENCIES_PER_NODE := 500
  const MAX_OWNER_LENGTH := 200
  const MAX_TOKEN_LENGTH := 256
  const MAX_RESULT_ID_LENGTH := 200
  const MAX_VERSION_LENGTH := 100
  const MAX_PATH_LENGTH := 2000
  const MAX_SUMMARY_LENGTH := 4000
  const MAX_SCOPE_KEY_LENGTH := 1024

  predicate IsNonEmptyString(s: Str, max: nat) {
    0 < |s| <= max
  }

  // ---- rows

  datatype NodeKey = NodeKey(workId: Str, nodeId: Str)

  datatype NodeRow = NodeRow(state: NodeState, version: int, dependsOn: seq<Str>)

  datatype AttemptState = Created | Leased | ResultAccepted | Completed

  datatype AttemptRow = AttemptRow(node: NodeKey, number: nat, state: AttemptState, jobId: Str, leaseGeneration: nat)

  datatype Routing = Routing(builder: Str, policyVersion: nat)

  datatype LeaseRow = LeaseRow(generation: nat, owner: Str, tokenDigest: Digest<Str>, issuedAt: int, expiresAt: int)

  datatype Outcome = Pass | Fail

  function OutcomeState(o: Outcome): NodeState {
    if o.Pass? then Passed else Failed
  }

  /** An accepted result as stored: everything but the token. */
  datatype ResultRow = ResultRow(
    resultId: Str, attemptId: Str, node: NodeKey, outcome: Outcome, phase: Str,
    artifactPath: Option<Str>, summary: Option<Str>, generation: int, expectedNodeVersion: int)

  datatype WorkerResult = WorkerResult(row: ResultRow, token: Str)

  datatype AuthorizationRow = AuthorizationRow(node: NodeKey, resultId: Str, expectedNodeVersion: int)

  datatype ProofRow = ProofRow(nodeId: Str, builder: Str, resultId: Str, outcome: Outcome)

  datatype SubmissionRow = SubmissionRow(
    callerId: Str, workId: Str, payloadHash: Digest<Str>, acceptance: Str, manifest: Str)

  datatype IdempotencyRow = IdempotencyRow(callerId: Str, payloadHash: Digest<Str>, submissionId: Str)

  datatype PlanTables = PlanTables(works: map<Str, Digest<ApprovedWork>>, nodes: map<NodeKey, NodeRow>)

  datatype RunTables = RunTables(attempts: map<Str, AttemptRow>, routing: map<Str, Routing>, leases: map<Str, LeaseRow>)

  datatype ResultTables = ResultTables(
    accepted: map<Str, ResultRow>, authorizations: map<Str, AuthorizationRow>, proofs: map<Str, ProofRow>)

  datatype IntakeTables = IntakeTables(submissions: map<Str, SubmissionRow>, idempotency: map<Str, IdempotencyRow>)

  datatype Db = Db(plan: PlanTables, runs: RunTables, results: ResultTables, intake: IntakeTables)

  const EmptyDb := Db(
    PlanTables(map[], map[]), RunTables(map[], map[], map[]), ResultTables(map[], map[], map[]),
    IntakeTables(map[], map[]))

  // ---- replies

  datatype ErrorCode =
    | INVALID_WORK | DUPLICATE_WORK | CONFLICTING_WORK | NODE_NOT_FOUND | INVALID_TRANSITION | STALE_VERSION
    | INVALID_LEASE_COMMAND | LEASE_CONFLICT | LEASE_EXPIRED | INVALID_RESULT | STALE_RESULT
    | RESULT_IDENTITY_MISMATCH | RESULT_CONFLICT | CONFLICTING_PROOF_RESULT | IDEMPOTENCY_KEY_PAYLOAD_MISMATCH

  datatype Reply =
    | Done
    | GotNode(node: NodeRow)
    | GotAttempt(attempt: AttemptRow)
    | Generation(generation: nat)
    | Claimed(generation: nat, token: Str)
    | Imported(workId: Str, submissionId: Str)
    | Replayed(workId: Str, submissionId: Str, acceptance: Str)
    | Error(code: ErrorCode)

  datatype Step = Step(db: Db, reply: Reply)

  // ---- importing work

  /** `content` stands for the text fields of the node that no transition looks at. */
  datatype ApprovedNode = ApprovedNode(content: Str, graph: Graph.Node)

  datatype Origin = Decomposition | DirectTask

  datatype ApprovedWork = ApprovedWork(workId: Str, origin: Origin, content: Str, nodes: seq<ApprovedNode>)

  function GraphOf(work: ApprovedWork): seq<Graph.Node> {
    seq(|work.nodes|, i requires 0 <= i < |work.nodes| => work.nodes[i].graph)
  }

  /** The per-node checks of `validateWork`, in list order; `seen` are the ids before node `i`. */
  function CheckNodes(g: seq<Graph.Node>, seen: set<Str>): Option<ErrorCode> {
    if |g| == 0 then None
    else if !IsNonEmptyString(g[0].id, MAX_ID_LENGTH) then Some(INVALID_WORK)
    else if g[0].id in seen then Some(DUPLICATE_WORK)
    else if |g[0].dependsOn| > MAX_DEPENDENCIES_PER_NODE then Some(INVALID_WORK)
    else if exists d :: d in g[0].dependsOn && !IsNonEmptyString(d, MAX_ID_LENGTH) then Some(INVALID_WORK)
    else CheckNodes(g[1..], seen + {g[0].id})
  }

  predicate NodeEdgesOk(n: Graph.Node, ids: set<Str>) {
    forall d :: d in n.dependsOn ==> d in ids && d != n.id
  }

  predicate EdgesOk(g: seq<Graph.Node>) {
    forall i :: 0 <= i < |g| ==> NodeEdgesOk(g[i], Graph.Ids(g))
  }

  ghost function ValidateWork(work: ApprovedWork): Option<ErrorCode> {
    var g := GraphOf(work);
    if !IsNonEmptyString(work.workId, MAX_ID_LENGTH) then Some(INVALID_WORK)
    else if |g| == 0 || |g| > MAX_NODES then Some(INVALID_WORK)
    else if CheckNodes(g, {}).Some? then CheckNodes(g, {})
    else if !EdgesOk(g) then Some(INVALID_WORK)
    else if !Graph.Acyclic(g) then Some(INVALID_WORK)
    else None
  }

  /** `canonicalWorkHash`: the order of a dependency list does not count. */
  function CanonicalWork(work: ApprovedWork): Digest<ApprovedWork> {
    Sha256(work.(nodes := seq(|work.nodes|, i requires 0 <= i < |work.nodes| =>
      var n := work.nodes[i];
      n.(graph := n.graph.(dependsOn := Sort(n.graph.dependsOn))))))
  }

  /** The node rows of a freshly imported work. */
  function FreshRows(workId: Str, g: seq<Graph.Node>): map<NodeKey, NodeRow> {
    if |g| == 0 then map[]
    else
      var last := g[|g| - 1];
      FreshRows(workId, g[..|g| - 1])[NodeKey(workId, last.id) := NodeRow(Pending, 1, last.dependsOn)]
  }

  function InsertWork(db: Db, work: ApprovedWork): Db {
    db.(plan := PlanTables(
      db.plan.works[work.workId := CanonicalWork(work)], db.plan.nodes + FreshRows(work.workId, GraphOf(work))))
  }

  ghost function ImportApprovedWork(db: Db, work: ApprovedWork): Step {
    var invalid := ValidateWork(work);
    if invalid.Some? then Step(db, Error(invalid.value))
    else if work.workId in db.plan.works then
      if db.plan.works[work.workId] == CanonicalWork(work) then Step(db, Done)
      else Step(db, Error(CONFLICTING_WORK))
    else if exists i :: 0 <= i < |work.nodes| && !NoDuplicates(work.nodes[i].graph.dependsOn) then
      // the primary key of the dependencies table refuses a repeated edge
      Step(db, Error(INVALID_WORK))
    else Step(InsertWork(db, work), Done)
  }

  datatype DirectTaskInput = DirectTaskInput(
    callerId: Str, scopeKey: Option<Str>, payloadHash: Digest<Str>, submissionId: Str,
    acceptance: Str, manifest: Str, work: ApprovedWork)

  const MAX_JSON_LENGTH := 1_000_000

  ghost function CheckDirectTask(input: DirectTaskInput): Option<ErrorCode> {
    var invalid := ValidateWork(input.work);
    if invalid.Some? then invalid
    else if !IsNonEmptyString(input.callerId, MAX_OWNER_LENGTH) then Some(INVALID_WORK)
    else if !IsNonEmptyString(input.submissionId, MAX_ID_LENGTH) then Some(INVALID_WORK)
    else if !IsNonEmptyString(input.acceptance, MAX_JSON_LENGTH)
      || !IsNonEmptyString(input.manifest, MAX_JSON_LENGTH) then
      Some(INVALID_WORK)
    else if input.scopeKey.Some? && !IsNonEmptyString(input.scopeKey.value, MAX_SCOPE_KEY_LENGTH) then
      Some(INVALID_WORK)
    else if !input.work.origin.DirectTask? || |input.work.nodes| != 1 then Some(INVALID_WORK)
    else None
  }

  ghost function ImportDirectTask(db: Db, input: DirectTaskInput): Step {
    var invalid := CheckDirectTask(input);
    if invalid.Some? then Step(db, Error(invalid.value))
    else if input.scopeKey.Some? && Bound(db, input.scopeKey.value) then
      var row := db.intake.idempotency[input.scopeKey.value];
      var first := db.intake.submissions[row.submissionId];
      if row.callerId != input.callerId then Step(db, Error(INVALID_WORK))
      else if row.payloadHash != input.payloadHash then Step(db, Error(IDEMPOTENCY_KEY_PAYLOAD_MISMATCH))
      else Step(db, Replayed(first.workId, row.submissionId, first.acceptance))
    else if input.work.workId in db.plan.works then Step(db, Error(CONFLICTING_WORK))
    else if input.submissionId in db.intake.submissions then Step(db, Error(DUPLICATE_WORK))
    else if input.scopeKey.Some? && input.scopeKey.value in db.intake.idempotency then
      // an orphan row; the primary key refuses a second one and the transaction rolls back
      Step(db, Error(INVALID_WORK))
    else Step(InsertDirectTask(db, input), Imported(input.work.workId, input.submissionId))
  }

  /** The rows of a new direct task: work, node, submission, and the scope key if there is one. */
  function InsertDirectTask(db: Db, input: DirectTaskInput): Db {
    var row := SubmissionRow(input.callerId, input.work.workId, input.payloadHash, input.acceptance, input.manifest);
    var key := IdempotencyRow(input.callerId, input.payloadHash, input.submissionId);
    InsertWork(db, input.work).(intake := IntakeTables(
      db.intake.submissions[input.submissionId := row],
      if input.scopeKey.Some? then db.intake.idempotency[input.scopeKey.value := key] else db.intake.idempotency))
  }

  /** The join of the idempotency and submission tables finds a row. */
  predicate Bound(db: Db, scopeKey: Str) {
    scopeKey in db.intake.idempotency && db.intake.idempotency[scopeKey].submissionId in db.intake.submissions
  }

  // ---- node lifecycle

  function TransitionNode(db: Db, key: NodeKey, expectedVersion: int, newState: NodeState): Step {
    if newState.Pending? then Step(db, Error(INVALID_TRANSITION))
    else if key !in db.plan.nodes then Step(db, Error(NODE_NOT_FOUND))
    else
      var row := db.plan.nodes[key];
      if row.version != expectedVersion then Step(db, Error(STALE_VERSION))
      else if !IsValidTransition(row.state, newState) then Step(db, Error(INVALID_TRANSITION))
      else
        var row' := row.(state := newState, version := row.version + 1);
        Step(db.(plan := db.plan.(nodes := db.plan.nodes[key := row'])), GotNode(row'))
  }

  // ---- attempts

  predicate NumberTaken(db: Db, key: NodeKey, number: nat) {
    exists a :: a in db.runs.attempts && db.runs.attempts[a].node == key && db.runs.attempts[a].number == number
  }

  function CreateAttempt(
    db: Db, key: NodeKey, attemptId: Str, number: nat, jobId: Str, routing: Option<Routing>): Step
  {
    if !IsNonEmptyString(attemptId, MAX_ID_LENGTH) || !IsNonEmptyString(jobId, MAX_ID_LENGTH) then
      Step(db, Error(INVALID_RESULT))
    else if number < 1 then Step(db, Error(INVALID_RESULT))
    else if routing.None? then Step(db, Error(INVALID_RESULT))
    else if key !in db.plan.nodes then Step(db, Error(NODE_NOT_FOUND))
    else if !db.plan.nodes[key].state.Ready? then Step(db, Error(INVALID_TRANSITION))
    else if attemptId in db.runs.attempts then Step(db, GotAttempt(db.runs.attempts[attemptId]))
    else if NumberTaken(db, key, number) || attemptId in db.runs.routing then
      // a unique index or the append-only trigger raises and the transaction rolls back
      Step(db, Error(INVALID_RESULT))
    else
      var row := AttemptRow(key, number, Created, jobId, 0);
      Step(db.(runs := db.runs.(
                 attempts := db.runs.attempts[attemptId := row],
                 routing := db.runs.routing[attemptId := routing.value])),
           GotAttempt(row))
  }

  function SetJobId(db: Db, attemptId: Str, jobId: Str): Step {
    if attemptId in db.runs.attempts && db.runs.attempts[attemptId].state.Created? then
      var row := db.runs.attempts[attemptId].(jobId := jobId);
      Step(db.(runs := db.runs.(attempts := db.runs.attempts[attemptId := row])), Done)
    else Step(db, Done)
  }

  // ---- leases

  function SetAttemptState(attempts: map<Str, AttemptRow>, attemptId: Str, state: AttemptState): map<Str, AttemptRow> {
    if attemptId in attempts then attempts[attemptId := attempts[attemptId].(state := state)] else attempts
  }

  function ClaimLease(db: Db, attemptId: Str, owner: Str, token: Str, expiresAt: int, issuedAt: int): Step {
    if !IsNonEmptyString(attemptId, MAX_ID_LENGTH) || !IsNonEmptyString(owner, MAX_OWNER_LENGTH) then
      Step(db, Error(INVALID_LEASE_COMMAND))
    else if attemptId !in db.runs.attempts then Step(db, Error(INVALID_LEASE_COMMAND))
    else if attemptId in db.runs.leases then Step(db, Error(LEASE_CONFLICT))
    else
      var row := db.runs.attempts[attemptId];
      var generation := row.leaseGeneration + 1;
      var lease := LeaseRow(generation, owner, Sha256(token), issuedAt, expiresAt);
      Step(db.(runs := db.runs.(
                 leases := db.runs.leases[attemptId := lease],
                 attempts := db.runs.attempts[attemptId := row.(state := Leased, leaseGeneration := generation)])),
           Claimed(generation, token))
  }

  predicate ValidTokenCommand(attemptId: Str, owner: Str, token: Str) {
    && IsNonEmptyString(attemptId, MAX_ID_LENGTH)
    && IsNonEmptyString(owner, MAX_OWNER_LENGTH)
    && IsNonEmptyString(token, MAX_TOKEN_LENGTH)
  }

  function RenewLease(db: Db, attemptId: Str, owner: Str, token: Str, expiresAt: int, now: int): Step {
    if !ValidTokenCommand(attemptId, owner, token) then Step(db, Error(INVALID_LEASE_COMMAND))
    else if attemptId !in db.runs.leases then Step(db, Error(LEASE_EXPIRED))
    else
      var lease := db.runs.leases[attemptId];
      if lease.owner != owner then Step(db, Error(INVALID_LEASE_COMMAND))
      else if Sha256(token) != lease.tokenDigest then Step(db, Error(INVALID_LEASE_COMMAND))
      else if lease.expiresAt <= now then Step(db, Error(LEASE_EXPIRED))
      else
        Step(db.(runs := db.runs.(leases := db.runs.leases[attemptId := lease.(expiresAt := expiresAt)])),
             Generation(lease.generation))
  }

  function DropLease(db: Db, attemptId: Str): Db {
    db.(runs := db.runs.(
      leases := db.runs.leases - {attemptId}, attempts := SetAttemptState(db.runs.attempts, attemptId, Created)))
  }

  function ReleaseLease(db: Db, attemptId: Str, owner: Str, token: Str): Step {
    if !ValidTokenCommand(attemptId, owner, token) then Step(db, Error(INVALID_LEASE_COMMAND))
    else if attemptId !in db.runs.leases then Step(db, Error(INVALID_LEASE_COMMAND))
    else
      var lease := db.runs.leases[attemptId];
      if lease.owner != owner then Step(db, Error(INVALID_LEASE_COMMAND))
      else if Sha256(token) != lease.tokenDigest then Step(db, Error(INVALID_LEASE_COMMAND))
      else Step(DropLease(db, attemptId), Done)
  }

  function ReclaimLease(db: Db, attemptId: Str, owner: Str, now: int): Step {
    if !IsNonEmptyString(owner, MAX_OWNER_LENGTH) then Step(db, Error(INVALID_LEASE_COMMAND))
    else if attemptId !in db.runs.attempts then Step(db, Error(INVALID_LEASE_COMMAND))
    else if attemptId !in db.runs.leases then Step(db, Error(LEASE_EXPIRED))
    else if db.runs.leases[attemptId].expiresAt > now then Step(db, Error(LEASE_CONFLICT))
    else Step(DropLease(db, attemptId), Generation(db.runs.attempts[attemptId].leaseGeneration + 1))
  }

  // ---- results

  predicate ValidOptional(s: Option<Str>, max: nat) {
    s.Some? ==> IsNonEmptyString(s.value, max)
  }

  predicate ValidResult(r: WorkerResult) {
    && IsNonEmptyString(r.row.resultId, MAX_RESULT_ID_LENGTH)
    && IsNonEmptyString(r.row.attemptId, MAX_ID_LENGTH)
    && IsNonEmptyString(r.row.node.nodeId, MAX_ID_LENGTH)
    && IsNonEmptyString(r.row.node.workId, MAX_ID_LENGTH)
    && IsNonEmptyString(r.row.phase, MAX_VERSION_LENGTH)
    && IsNonEmptyString(r.token, MAX_TOKEN_LENGTH)
    && r.row.generation >= 1
    && r.row.expectedNodeVersion >= 1
    && ValidOptional(r.row.artifactPath, MAX_PATH_LENGTH)
    && ValidOptional(r.row.summary, MAX_SUMMARY_LENGTH)
  }

  /** The lease a new result must be submitted under. */
  predicate LeaseAuthorizes(db: Db, r: WorkerResult, now: int) {
    && r.row.attemptId in db.runs.leases
    && var lease := db.runs.leases[r.row.attemptId];
       lease.expiresAt > now && r.row.generation == lease.generation && Sha256(r.token) == lease.tokenDigest
  }

  function AcceptResult(db: Db, r: WorkerResult, now: int): Step {
    var a := r.row.attemptId;
    if !ValidResult(r) then Step(db, Error(INVALID_RESULT))
    else if a !in db.runs.attempts then Step(db, Error(INVALID_RESULT))
    else if db.runs.attempts[a].node != r.row.node then Step(db, Error(RESULT_IDENTITY_MISMATCH))
    else if a in db.results.accepted then
      // equal in every field but the token, which is not stored
      if db.results.accepted[a] == r.row then Step(db, Done) else Step(db, Error(RESULT_CONFLICT))
    else if r.row.node !in db.plan.nodes then Step(db, Error(NODE_NOT_FOUND))
    else if r.row.expectedNodeVersion != db.plan.nodes[r.row.node].version then Step(db, Error(STALE_VERSION))
    else if !LeaseAuthorizes(db, r, now) then Step(db, Error(STALE_RESULT))
    else if a in db.results.authorizations then Step(db, Error(INVALID_RESULT))
    else
      var auth := AuthorizationRow(r.row.node, r.row.resultId, db.plan.nodes[r.row.node].version);
      Step(db.(results := db.results.(
                 accepted := db.results.accepted[a := r.row], authorizations := db.results.authorizations[a := auth]),
               runs := db.runs.(attempts := SetAttemptState(db.runs.attempts, a, ResultAccepted))),
           Done)
  }

  function CompleteAuthorizedResult(db: Db, key: NodeKey, attemptId: Str): Step {
    if attemptId !in db.results.authorizations then Step(db, Error(INVALID_RESULT))
    else if key !in db.plan.nodes then Step(db, Error(NODE_NOT_FOUND))
    else
      var auth, row := db.results.authorizations[attemptId], db.plan.nodes[key];
      if row.version != auth.expectedNodeVersion then Step(db, Error(STALE_VERSION))
      else if attemptId !in db.results.accepted then Step(db, Error(INVALID_RESULT))
      else
        var outcome := OutcomeState(db.results.accepted[attemptId].outcome);
        if !IsValidTransition(row.state, outcome) then Step(db, Error(INVALID_TRANSITION))
        else
          var row' := row.(state := outcome, version := row.version + 1);
          Step(db.(plan := db.plan.(nodes := db.plan.nodes[key := row']),
                   runs := db.runs.(attempts := SetAttemptState(db.runs.attempts, attemptId, Completed)),
                   results := db.results.(authorizations := db.results.authorizations - {attemptId})),
               GotNode(row'))
  }

  /** The proof row of an attempt is written once; a second, equal one is a no-op. */
  function RecordProofResult(db: Db, attemptId: Str, proof: ProofRow): Step {
    if attemptId !in db.runs.attempts then Step(db, Error(INVALID_RESULT))
    else if db.runs.attempts[attemptId].node.nodeId != proof.nodeId then Step(db, Error(RESULT_IDENTITY_MISMATCH))
    else if attemptId !in db.runs.routing || db.runs.routing[attemptId].builder != proof.builder then
      Step(db, Error(RESULT_IDENTITY_MISMATCH))
    else if attemptId in db.results.proofs then
      if db.results.proofs[attemptId] == proof then Step(db, Done) else Step(db, Error(CONFLICTING_PROOF_RESULT))
    else Step(db.(results := db.results.(proofs := db.results.proofs[attemptId := proof])), Done)
  }

  // ---- one call of the store

  datatype Call =
    | ImportWorkCall(work: ApprovedWork)
    | ImportDirectTaskCall(input: DirectTaskInput)
    | TransitionCall(key: NodeKey, expectedVersion: int, newState: NodeState)
    | CreateAttemptCall(key: NodeKey, attemptId: Str, number: nat, jobId: Str, routing: Option<Routing>)
    | SetJobIdCall(attemptId: Str, jobId: Str)
    | ClaimCall(attemptId: Str, owner: Str, token: Str, expiresAt: int, now: int)
    | RenewCall(attemptId: Str, owner: Str, token: Str, expiresAt: int, now: int)
    | ReleaseCall(attemptId: Str, owner: Str, token: Str)
    | ReclaimCall(attemptId: Str, owner: Str, now: int)
    | AcceptCall(result: WorkerResult, now: int)
    | CompleteCall(key: NodeKey, attemptId: Str)
    | ProofCall(attemptId: Str, proof: ProofRow)

  predicate IsImport(call: Call) {
    call.ImportWorkCall? || call.ImportDirectTaskCall?
  }

  ghost function ApplyImport(db: Db, call: Call): Step
    requires IsImport(call)
  {
    match call
    case ImportWorkCall(work) => ImportApprovedWork(db, work)
    case ImportDirectTaskCall(input) => ImportDirectTask(db, input)
  }

  predicate IsLeaseCall(call: Call) {
    call.ClaimCall? || call.RenewCall? || call.ReleaseCall? || call.ReclaimCall?
  }

  function ApplyLeaseCall(db: Db, call: Call): Step
    requires IsLeaseCall(call)
  {
    match call
    case ClaimCall(a, owner, token, expiresAt, now) => ClaimLease(db, a, owner, token, expiresAt, now)
    case RenewCall(a, owner, token, expiresAt, now) => RenewLease(db, a, owner, token, expiresAt, now)
    case ReleaseCall(a, owner, token) => ReleaseLease(db, a, owner, token)
    case ReclaimCall(a, owner, now) => ReclaimLease(db, a, owner, now)
  }

  function ApplyOtherCall(db: Db, call: Call): Step
    requires !IsImport(call) && !IsLeaseCall(call)
  {
    match call
    case TransitionCall(key, version, state) => TransitionNode(db, key, version, state)
    case CreateAttemptCall(key, a, number, job, routing) => CreateAttempt(db, key, a, number, job, routing)
    case SetJobIdCall(a, job) => SetJobId(db, a, job)
    case AcceptCall(result, now) => AcceptResult(db, result, now)
    case CompleteCall(key, a) => CompleteAuthorizedResult(db, key, a)
    case ProofCall(a, proof) => RecordProofResult(db, a, proof)
  }

  function ApplyRowCall(db: Db, call: Call): Step
    requires !IsImport(call)
  {
    if IsLeaseCall(call) then ApplyLeaseCall(db, call) else ApplyOtherCall(db, call)
  }

  ghost function Apply(db: Db, call: Call): Step {
    if IsImport(call) then ApplyImport(db, call) else ApplyRowCall(db, call)
  }
}
