/**
 The store as the object its callers hold: tables that each method updates in place. Every
 method is one transaction; an error reply leaves all tables as they were.
 */
module OrchestrationStore {
  import opened Text
  import opened Wrappers
  import opened Lifecycle
  import opened StoreModel
  import Kahn
  import Graph

  // ---- validateWork

  lemma {:induction false} CheckedIdsUnique(g: seq<Graph.Node>, seen: set<Str>)
    requires CheckNodes(g, seen).None?
    ensures Graph.UniqueIds(g) && forall i :: 0 <= i < |g| ==> g[i].id !in seen
  {
    if |g| > 0 {
      CheckedIdsUnique(g[1..], seen + {g[0].id});
      assert forall i :: 1 <= i < |g| ==> g[i] == g[1..][i - 1];
    }
  }

  method CheckNodeList(g: seq<Graph.Node>) returns (invalid: Option<ErrorCode>)
    ensures invalid == CheckNodes(g, {})
  {
    var nodeIds: set<Str> := {};
    for i := 0 to |g|
      invariant CheckNodes(g, {}) == CheckNodes(g[i..], nodeIds)
    {
      var node := g[i];
      assert g[i..][0] == node && g[i..][1..] == g[i + 1..];
      if !IsNonEmptyString(node.id, MAX_ID_LENGTH) {
        return Some(INVALID_WORK);
      }
      if node.id in nodeIds {
        return Some(DUPLICATE_WORK);
      }
      nodeIds := nodeIds + {node.id};
      if |node.dependsOn| > MAX_DEPENDENCIES_PER_NODE {
        return Some(INVALID_WORK);
      }
      for j := 0 to |node.dependsOn|
        invariant forall m :: 0 <= m < j ==> IsNonEmptyString(node.dependsOn[m], MAX_ID_LENGTH)
      {
        if !IsNonEmptyString(node.dependsOn[j], MAX_ID_LENGTH) {
          return Some(INVALID_WORK);
        }
      }
    }
    invalid := None;
  }

  method CheckEdges(g: seq<Graph.Node>) returns (ok: bool)
    ensures ok <==> EdgesOk(g)
  {
    var nodeIds := Graph.Ids(g);
    for i := 0 to |g|
      invariant forall m :: 0 <= m < i ==> NodeEdgesOk(g[m], nodeIds)
    {
      var deps := g[i].dependsOn;
      for j := 0 to |deps|
        invariant forall m :: 0 <= m < j ==> deps[m] in nodeIds && deps[m] != g[i].id
      {
        if deps[j] !in nodeIds || deps[j] == g[i].id {
          assert !NodeEdgesOk(g[i], nodeIds);
          return false;
        }
      }
    }
    ok := true;
  }

  lemma EdgesResolve(g: seq<Graph.Node>)
    requires EdgesOk(g)
    ensures Graph.Resolved(g)
  {
    forall i, d | 0 <= i < |g| && d in g[i].dependsOn
      ensures d in Graph.Ids(g)
    {
      assert NodeEdgesOk(g[i], Graph.Ids(g));
    }
  }

  method CheckWork(work: ApprovedWork) returns (invalid: Option<ErrorCode>)
    ensures invalid == ValidateWork(work)
  {
    var g := GraphOf(work);
    if !IsNonEmptyString(work.workId, MAX_ID_LENGTH) {
      return Some(INVALID_WORK);
    }
    if |g| == 0 || |g| > MAX_NODES {
      return Some(INVALID_WORK);
    }
    invalid := CheckNodeList(g);
    if invalid.Some? {
      return;
    }
    CheckedIdsUnique(g, {});
    var edges := CheckEdges(g);
    if !edges {
      return Some(INVALID_WORK);
    }
    EdgesResolve(g);
    var ordered := Kahn.OrdersCompletely(g);
    invalid := if ordered then None else Some(INVALID_WORK);
  }

  method HasRepeat(s: seq<Str>) returns (r: bool)
    ensures r <==> !NoDuplicates(s)
  {
    for i := 0 to |s|
      invariant forall m, n :: 0 <= m < n < i ==> s[m] != s[n]
    {
      if s[i] in s[..i] {
        return true;
      }
    }
    r := false;
  }

  lemma FreshRowsNext(workId: Str, g: seq<Graph.Node>, i: nat)
    requires i < |g|
    ensures FreshRows(workId, g[..i + 1])
         == FreshRows(workId, g[..i])[NodeKey(workId, g[i].id) := NodeRow(Pending, 1, g[i].dependsOn)]
  {
    assert g[..i + 1][..i] == g[..i];
  }

  lemma MergeNext(before: map<NodeKey, NodeRow>, added: map<NodeKey, NodeRow>, key: NodeKey, row: NodeRow)
    ensures (before + added)[key := row] == before + added[key := row]
  {
  }

  class OrchestrationStore {
    var works: map<Str, Digest<ApprovedWork>>
    var nodes: map<NodeKey, NodeRow>
    var attempts: map<Str, AttemptRow>
    var routing: map<Str, Routing>
    var leases: map<Str, LeaseRow>
    var accepted: map<Str, ResultRow>
    var authorizations: map<Str, AuthorizationRow>
    var proofs: map<Str, ProofRow>
    var submissions: map<Str, SubmissionRow>
    var idempotency: map<Str, IdempotencyRow>

    function View(): Db
      reads this
    {
      Db(PlanTables(works, nodes), RunTables(attempts, routing, leases),
         ResultTables(accepted, authorizations, proofs), IntakeTables(submissions, idempotency))
    }

    constructor ()
      ensures View() == EmptyDb
    {
      works, nodes, attempts, routing, leases := map[], map[], map[], map[], map[];
      accepted, authorizations, proofs, submissions, idempotency := map[], map[], map[], map[], map[];
    }

    /** Inserts a work and its node rows one by one. */
    method InsertWorkRows(work: ApprovedWork)
      modifies this`works, this`nodes
      ensures View() == InsertWork(old(View()), work)
    {
      var g := GraphOf(work);
      ghost var before := nodes;
      works := works[work.workId := CanonicalWork(work)];
      for i := 0 to |g|
        invariant nodes == before + FreshRows(work.workId, g[..i])
        invariant works == old(works)[work.workId := CanonicalWork(work)]
      {
        FreshRowsNext(work.workId, g, i);
        MergeNext(before, FreshRows(work.workId, g[..i]), NodeKey(work.workId, g[i].id),
          NodeRow(Pending, 1, g[i].dependsOn));
        nodes := nodes[NodeKey(work.workId, g[i].id) := NodeRow(Pending, 1, g[i].dependsOn)];
      }
      WholeSeq(g);
    }

    method ImportApprovedWork(work: ApprovedWork) returns (reply: Reply)
      modifies this
      ensures View() == StoreModel.ImportApprovedWork(old(View()), work).db
      ensures reply == StoreModel.ImportApprovedWork(old(View()), work).reply
    {
      var invalid := CheckWork(work);
      if invalid.Some? {
        return Error(invalid.value);
      }
      if work.workId in works {
        return if works[work.workId] == CanonicalWork(work) then Done else Error(CONFLICTING_WORK);
      }
      for i := 0 to |work.nodes|
        invariant View() == old(View())
        invariant forall m :: 0 <= m < i ==> NoDuplicates(work.nodes[m].graph.dependsOn)
      {
        var repeats := HasRepeat(work.nodes[i].graph.dependsOn);
        if repeats {
          return Error(INVALID_WORK);
        }
      }
      InsertWorkRows(work);
      reply := Done;
    }

    method ImportDirectTask(input: DirectTaskInput) returns (reply: Reply)
      modifies this
      ensures View() == StoreModel.ImportDirectTask(old(View()), input).db
      ensures reply == StoreModel.ImportDirectTask(old(View()), input).reply
    {
      var invalid := CheckWork(input.work);
      if invalid.Some? {
        return Error(invalid.value);
      }
      if || !IsNonEmptyString(input.callerId, MAX_OWNER_LENGTH)
         || !IsNonEmptyString(input.submissionId, MAX_ID_LENGTH)
         || !IsNonEmptyString(input.acceptance, MAX_JSON_LENGTH)
         || !IsNonEmptyString(input.manifest, MAX_JSON_LENGTH)
         || (input.scopeKey.Some? && !IsNonEmptyString(input.scopeKey.value, MAX_SCOPE_KEY_LENGTH))
         || !input.work.origin.DirectTask?
         || |input.work.nodes| != 1
      {
        return Error(INVALID_WORK);
      }
      if input.scopeKey.Some? && Bound(View(), input.scopeKey.value) {
        var existing := idempotency[input.scopeKey.value];
        if existing.callerId != input.callerId {
          return Error(INVALID_WORK);
        }
        if existing.payloadHash != input.payloadHash {
          return Error(IDEMPOTENCY_KEY_PAYLOAD_MISMATCH);
        }
        var first := submissions[existing.submissionId];
        return Replayed(first.workId, existing.submissionId, first.acceptance);
      }
      if input.work.workId in works {
        return Error(CONFLICTING_WORK);
      }
      if input.submissionId in submissions {
        return Error(DUPLICATE_WORK);
      }
      if input.scopeKey.Some? && input.scopeKey.value in idempotency {
        return Error(INVALID_WORK);
      }
      InsertWorkRows(input.work);
      submissions := submissions[input.submissionId :=
        SubmissionRow(input.callerId, input.work.workId, input.payloadHash, input.acceptance, input.manifest)];
      if input.scopeKey.Some? {
        idempotency := idempotency[input.scopeKey.value :=
          IdempotencyRow(input.callerId, input.payloadHash, input.submissionId)];
      }
      reply := Imported(input.work.workId, input.submissionId);
    }

    method TransitionNode(key: NodeKey, expectedVersion: int, newState: NodeState) returns (reply: Reply)
      modifies this
      ensures View() == StoreModel.TransitionNode(old(View()), key, expectedVersion, newState).db
      ensures reply == StoreModel.TransitionNode(old(View()), key, expectedVersion, newState).reply
    {
      if !IsValidTransition(Pending, newState) && !IsValidTransition(Ready, newState)
        && !IsValidTransition(InProgress, newState) {
        return Error(INVALID_TRANSITION);
      }
      if key !in nodes {
        return Error(NODE_NOT_FOUND);
      }
      var row := nodes[key];
      if row.version != expectedVersion {
        return Error(STALE_VERSION);
      }
      if !IsValidTransition(row.state, newState) {
        return Error(INVALID_TRANSITION);
      }
      nodes := nodes[key := row.(state := newState, version := row.version + 1)];
      reply := GotNode(nodes[key]);
    }

    method CreateAttempt(key: NodeKey, attemptId: Str, number: nat, jobId: Str, builder: Option<Routing>)
      returns (reply: Reply)
      modifies this
      ensures View() == StoreModel.CreateAttempt(old(View()), key, attemptId, number, jobId, builder).db
      ensures reply == StoreModel.CreateAttempt(old(View()), key, attemptId, number, jobId, builder).reply
    {
      if !IsNonEmptyString(attemptId, MAX_ID_LENGTH) || !IsNonEmptyString(jobId, MAX_ID_LENGTH) || number < 1
        || builder.None? {
        return Error(INVALID_RESULT);
      }
      if key !in nodes {
        return Error(NODE_NOT_FOUND);
      }
      if nodes[key].state != Ready {
        return Error(INVALID_TRANSITION);
      }
      if attemptId in attempts {
        return GotAttempt(attempts[attemptId]);
      }
      if NumberTaken(View(), key, number) || attemptId in routing {
        return Error(INVALID_RESULT);
      }
      attempts := attempts[attemptId := AttemptRow(key, number, Created, jobId, 0)];
      routing := routing[attemptId := builder.value];
      reply := GotAttempt(attempts[attemptId]);
    }

    method SetJobId(attemptId: Str, jobId: Str)
      modifies this
      ensures View() == StoreModel.SetJobId(old(View()), attemptId, jobId).db
    {
      if attemptId in attempts && attempts[attemptId].state == Created {
        attempts := attempts[attemptId := attempts[attemptId].(jobId := jobId, state := Created)];
      }
    }

    /** `token` is the freshly generated random token. */
    method ClaimLease(attemptId: Str, owner: Str, token: Str, expiresAt: int, issuedAt: int) returns (reply: Reply)
      modifies this
      ensures View() == StoreModel.ClaimLease(old(View()), attemptId, owner, token, expiresAt, issuedAt).db
      ensures reply == StoreModel.ClaimLease(old(View()), attemptId, owner, token, expiresAt, issuedAt).reply
    {
      if !IsNonEmptyString(attemptId, MAX_ID_LENGTH) || !IsNonEmptyString(owner, MAX_OWNER_LENGTH) {
        return Error(INVALID_LEASE_COMMAND);
      }
      if attemptId !in attempts {
        return Error(INVALID_LEASE_COMMAND);
      }
      if attemptId in leases {
        return Error(LEASE_CONFLICT);
      }
      var nextGeneration := attempts[attemptId].leaseGeneration + 1;
      leases := leases[attemptId := LeaseRow(nextGeneration, owner, Sha256(token), issuedAt, expiresAt)];
      attempts := attempts[attemptId := attempts[attemptId].(state := Leased, leaseGeneration := nextGeneration)];
      reply := Claimed(nextGeneration, token);
    }

    method RenewLease(attemptId: Str, owner: Str, token: Str, expiresAt: int, now: int) returns (reply: Reply)
      modifies this
      ensures View() == StoreModel.RenewLease(old(View()), attemptId, owner, token, expiresAt, now).db
      ensures reply == StoreModel.RenewLease(old(View()), attemptId, owner, token, expiresAt, now).reply
    {
      if !ValidTokenCommand(attemptId, owner, token) {
        return Error(INVALID_LEASE_COMMAND);
      }
      if attemptId !in leases {
        return Error(LEASE_EXPIRED);
      }
      var lease := leases[attemptId];
      if lease.owner != owner || Sha256(token) != lease.tokenDigest {
        return Error(INVALID_LEASE_COMMAND);
      }
      if lease.expiresAt <= now {
        return Error(LEASE_EXPIRED);
      }
      leases := leases[attemptId := lease.(expiresAt := expiresAt)];
      reply := Generation(lease.generation);
    }

    method ReleaseLease(attemptId: Str, owner: Str, token: Str) returns (reply: Reply)
      modifies this
      ensures View() == StoreModel.ReleaseLease(old(View()), attemptId, owner, token).db
      ensures reply == StoreModel.ReleaseLease(old(View()), attemptId, owner, token).reply
    {
      if !ValidTokenCommand(attemptId, owner, token) || attemptId !in leases {
        return Error(INVALID_LEASE_COMMAND);
      }
      var lease := leases[attemptId];
      if lease.owner != owner || Sha256(token) != lease.tokenDigest {
        return Error(INVALID_LEASE_COMMAND);
      }
      leases := leases - {attemptId};
      if attemptId in attempts {
        attempts := attempts[attemptId := attempts[attemptId].(state := Created)];
      }
      reply := Done;
    }

    method ReclaimLease(attemptId: Str, owner: Str, now: int) returns (reply: Reply)
      modifies this
      ensures View() == StoreModel.ReclaimLease(old(View()), attemptId, owner, now).db
      ensures reply == StoreModel.ReclaimLease(old(View()), attemptId, owner, now).reply
    {
      if !IsNonEmptyString(owner, MAX_OWNER_LENGTH) || attemptId !in attempts {
        return Error(INVALID_LEASE_COMMAND);
      }
      if attemptId !in leases {
        return Error(LEASE_EXPIRED);
      }
      if leases[attemptId].expiresAt > now {
        return Error(LEASE_CONFLICT);
      }
      var nextGeneration := attempts[attemptId].leaseGeneration + 1;
      leases := leases - {attemptId};
      attempts := attempts[attemptId := attempts[attemptId].(state := Created)];
      reply := Generation(nextGeneration);
    }

    method AcceptResult(result: WorkerResult, now: int) returns (reply: Reply)
      modifies this
      ensures View() == StoreModel.AcceptResult(old(View()), result, now).db
      ensures reply == StoreModel.AcceptResult(old(View()), result, now).reply
    {
      var a := result.row.attemptId;
      if !ValidResult(result) || a !in attempts {
        return Error(INVALID_RESULT);
      }
      if attempts[a].node != result.row.node {
        return Error(RESULT_IDENTITY_MISMATCH);
      }
      if a in accepted {
        return if accepted[a] == result.row then Done else Error(RESULT_CONFLICT);
      }
      if result.row.node !in nodes {
        return Error(NODE_NOT_FOUND);
      }
      var node := nodes[result.row.node];
      if result.row.expectedNodeVersion != node.version {
        return Error(STALE_VERSION);
      }
      var leaseValid := a in leases && leases[a].expiresAt > now && result.row.generation == leases[a].generation
        && Sha256(result.token) == leases[a].tokenDigest;
      if !leaseValid {
        return Error(STALE_RESULT);
      }
      if a in authorizations {
        return Error(INVALID_RESULT);
      }
      accepted := accepted[a := result.row];
      authorizations := authorizations[a := AuthorizationRow(result.row.node, result.row.resultId, node.version)];
      attempts := attempts[a := attempts[a].(state := ResultAccepted)];
      reply := Done;
    }

    method CompleteAuthorizedResult(key: NodeKey, attemptId: Str) returns (reply: Reply)
      modifies this
      ensures View() == StoreModel.CompleteAuthorizedResult(old(View()), key, attemptId).db
      ensures reply == StoreModel.CompleteAuthorizedResult(old(View()), key, attemptId).reply
    {
      if attemptId !in authorizations {
        return Error(INVALID_RESULT);
      }
      if key !in nodes {
        return Error(NODE_NOT_FOUND);
      }
      var auth, node := authorizations[attemptId], nodes[key];
      if node.version != auth.expectedNodeVersion {
        return Error(STALE_VERSION);
      }
      if attemptId !in accepted {
        return Error(INVALID_RESULT);
      }
      var outcome := OutcomeState(accepted[attemptId].outcome);
      if !IsValidTransition(node.state, outcome) {
        return Error(INVALID_TRANSITION);
      }
      nodes := nodes[key := node.(state := outcome, version := node.version + 1)];
      if attemptId in attempts {
        attempts := attempts[attemptId := attempts[attemptId].(state := Completed)];
      }
      authorizations := authorizations - {attemptId};
      reply := GotNode(nodes[key]);
    }

    method RecordProofResult(attemptId: Str, proof: ProofRow) returns (reply: Reply)
      modifies this
      ensures View() == StoreModel.RecordProofResult(old(View()), attemptId, proof).db
      ensures reply == StoreModel.RecordProofResult(old(View()), attemptId, proof).reply
    {
      if attemptId !in attempts {
        return Error(INVALID_RESULT);
      }
      if attempts[attemptId].node.nodeId != proof.nodeId {
        return Error(RESULT_IDENTITY_MISMATCH);
      }
      if attemptId !in routing || routing[attemptId].builder != proof.builder {
        return Error(RESULT_IDENTITY_MISMATCH);
      }
      if attemptId in proofs {
        return if proofs[attemptId] == proof then Done else Error(CONFLICTING_PROOF_RESULT);
      }
      proofs := proofs[attemptId := proof];
      reply := Done;
    }
  }
}
