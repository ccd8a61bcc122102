/**
 What the calls of the store achieve, told from the tables: which transitions and completions
 succeed, and that the holder of a lease is served.
 */
module StoreLaws {
  import opened Text
  import opened Wrappers
  import opened Lifecycle
  import opened StoreModel
  import opened StoreInvariants
  import opened StoreRuns
  import opened LeaseFencing

  // ---- transitions

  ghost predicate Succeeds(db: Db, call: Call) {
    !Apply(db, call).reply.Error?
  }

  /** A transition succeeds if and only if it was submitted for the stored version and goes one position forward. */
  lemma TransitionExactly(db: Db, key: NodeKey, version: int, newState: NodeState)
    ensures var db' := Apply(db, TransitionCall(key, version, newState)).db;
      if key in db.plan.nodes && db.plan.nodes[key].version == version
         && Position(newState) == Position(db.plan.nodes[key].state) + 1
      then
        && Succeeds(db, TransitionCall(key, version, newState))
        && db' == db.(plan := db.plan.(nodes :=
             db.plan.nodes[key := NodeRow(newState, version + 1, db.plan.nodes[key].dependsOn)]))
      else !Succeeds(db, TransitionCall(key, version, newState)) && db' == db
  {
    if key in db.plan.nodes {
      TransitionsAdvanceByOne(db.plan.nodes[key].state, newState);
    }
  }

  /** Of any number of transitions of a node submitted for the same version at most one succeeds in a run. */
  lemma OncePerVersion(
    dbs: seq<Db>, calls: seq<Call>, i: nat, j: nat, key: NodeKey, version: int, first: NodeState, second: NodeState)
    requires ValidRun(dbs, calls) && i < j < |calls|
    requires calls[i] == TransitionCall(key, version, first) && Succeeds(dbs[i], calls[i])
    requires calls[j] == TransitionCall(key, version, second)
    ensures !Succeeds(dbs[j], calls[j]) && dbs[j + 1] == dbs[j]
  {
    TransitionExactly(dbs[i], key, version, first);
    RunAdvances(dbs, calls, i + 1, j);
    TransitionExactly(dbs[j], key, version, second);
  }

  // ---- attempts

  /**
   An attempt is handed out if and only if the ids are accepted, there is a route, the node is
   ready, and the attempt is stored or the node has none of this number yet. A stored one is
   returned as it is; a new one gets its own row and its routing row, and nothing else changes.
   */
  lemma CreationExactly(db: Db, key: NodeKey, a: Str, number: nat, job: Str, routing: Option<Routing>)
    requires Valid(db)
    ensures var call := CreateAttemptCall(key, a, number, job, routing);
      var step := Apply(db, call);
      && (Succeeds(db, call) <==>
            && 0 < |a| <= MAX_ID_LENGTH && 0 < |job| <= MAX_ID_LENGTH && number > 0 && routing.Some?
            && key in db.plan.nodes && db.plan.nodes[key].state.Ready?
            && (a in db.runs.attempts || forall b ::
                  b in db.runs.attempts && db.runs.attempts[b].node == key ==> db.runs.attempts[b].number != number))
      && if Succeeds(db, call) && a !in db.runs.attempts then
           var row := AttemptRow(key, number, Created, job, 0);
           && step.reply == GotAttempt(row)
           && step.db == db.(runs := db.runs.(
                attempts := db.runs.attempts[a := row], routing := db.runs.routing[a := routing.value]))
         else step.db == db && (Succeeds(db, call) ==> step.reply == GotAttempt(db.runs.attempts[a]))
  {
  }

  /** The job id of a created attempt is replaced; of any other it is not. */
  lemma JobIdExactly(db: Db, a: Str, job: Str)
    ensures var attempts := Apply(db, SetJobIdCall(a, job)).db.runs.attempts;
      && Apply(db, SetJobIdCall(a, job)).db == db.(runs := db.runs.(attempts := attempts))
      && attempts.Keys == db.runs.attempts.Keys
      && (forall b :: b in attempts && b != a ==> attempts[b] == db.runs.attempts[b])
      && (a in attempts ==>
            attempts[a] == if db.runs.attempts[a].state.Created? then db.runs.attempts[a].(jobId := job)
                           else db.runs.attempts[a])
  {
  }

  // ---- completions

  /** The node is in progress at the very version that the accepted result was authorized for. */
  predicate Completable(db: Db, a: Str) {
    && a in db.results.authorizations
    && var auth := db.results.authorizations[a];
       && auth.node in db.plan.nodes && db.plan.nodes[auth.node].state.InProgress?
       && db.plan.nodes[auth.node].version == auth.expectedNodeVersion
  }

  /** The node has ended in the outcome of the attempt's accepted result, one version later, and the attempt is done. */
  ghost predicate EndedBy(db: Db, db': Db, key: NodeKey, a: Str) {
    && key in db.plan.nodes && a in db.results.accepted && a in db'.runs.attempts
    && key in db'.plan.nodes
    && db'.plan.nodes[key] == NodeRow(
         if db.results.accepted[a].outcome.Pass? then Passed else Failed,
         db.plan.nodes[key].version + 1, db.plan.nodes[key].dependsOn)
    && db'.runs.attempts[a].state.Completed? && a !in db'.results.authorizations
  }

  /** A completion succeeds if and only if its authorization stands and its node is in progress at that version. */
  lemma CompletionExactly(db: Db, a: Str)
    requires Valid(db) && a in db.results.authorizations
    ensures var key := db.results.authorizations[a].node;
      var db' := Apply(db, CompleteCall(key, a)).db;
      if Completable(db, a) then
        && Succeeds(db, CompleteCall(key, a)) && EndedBy(db, db', key, a)
        && (forall k :: k in db.plan.nodes && k != key ==> k in db'.plan.nodes && db'.plan.nodes[k] == db.plan.nodes[k])
        && db'.results.authorizations == db.results.authorizations - {a}
      else !Succeeds(db, CompleteCall(key, a)) && db' == db
  {
  }

  // ---- the holder of a lease is served

  /** The attempt is leased to this owner under this token. */
  predicate HeldUnder(db: Db, a: Str, owner: Str, token: Str) {
    a in db.runs.leases && db.runs.leases[a].owner == owner && db.runs.leases[a].tokenDigest == Sha256(token)
  }

  /** An attempt without a lease is leased to whoever claims it, under the next generation. */
  lemma FreeIsClaimed(db: Db, a: Str, owner: Str, token: Str, expiresAt: int, now: int)
    requires a in db.runs.attempts && a !in db.runs.leases
    requires IsNonEmptyString(a, MAX_ID_LENGTH) && IsNonEmptyString(owner, MAX_OWNER_LENGTH)
    ensures var step := Apply(db, ClaimCall(a, owner, token, expiresAt, now));
      && step.reply == Claimed(Counter(db, a) + 1, token) && HeldUnder(step.db, a, owner, token)
      && step.db.runs.leases[a].expiresAt == expiresAt && step.db.runs.attempts[a].state.Leased?
  {
  }

  /** The holder of a live lease renews it. */
  lemma HolderRenews(db: Db, a: Str, owner: Str, token: Str, expiresAt: int, now: int)
    requires HeldUnder(db, a, owner, token) && ValidTokenCommand(a, owner, token) && db.runs.leases[a].expiresAt > now
    ensures var step := Apply(db, RenewCall(a, owner, token, expiresAt, now));
      && step.reply == Generation(db.runs.leases[a].generation) && HeldUnder(step.db, a, owner, token)
      && step.db.runs.leases[a].expiresAt == expiresAt && step.db.runs.attempts == db.runs.attempts
  {
  }

  /** The holder gives its lease back, and the attempt can be claimed again. */
  lemma HolderReleases(db: Db, a: Str, owner: Str, token: Str)
    requires Valid(db) && HeldUnder(db, a, owner, token) && ValidTokenCommand(a, owner, token)
    ensures var step := Apply(db, ReleaseCall(a, owner, token));
      && step.reply == Done && a !in step.db.runs.leases
      && a in step.db.runs.attempts && step.db.runs.attempts[a].state.Created?
  {
  }

  /** Anyone reclaims an expired lease, and the attempt can be claimed again. */
  lemma ExpiredIsReclaimed(db: Db, a: Str, owner: Str, now: int)
    requires Valid(db) && a in db.runs.leases && db.runs.leases[a].expiresAt <= now
    requires IsNonEmptyString(owner, MAX_OWNER_LENGTH)
    ensures var step := Apply(db, ReclaimCall(a, owner, now));
      && step.reply == Generation(Counter(db, a) + 1) && a !in step.db.runs.leases
      && a in step.db.runs.attempts && step.db.runs.attempts[a].state.Created?
  {
  }

  /**
   A worker that has claimed an attempt and still holds the live lease gets its first result
   accepted: with the generation and token of its claim and the current version of the node, a
   well-formed result is stored and authorizes the completion.
   */
  lemma HolderIsAccepted(dbs: seq<Db>, calls: seq<Call>, i: nat, k: nat, r: WorkerResult, now: int)
    requires ValidRun(dbs, calls) && i < k < |dbs| && LeaseFrom(dbs, calls, i, k, r.row.attemptId)
    requires dbs[k].runs.leases[r.row.attemptId].expiresAt > now
    requires ValidResult(r) && ClaimReply(dbs[i], calls[i]) == Claimed(r.row.generation, r.token)
    requires r.row.attemptId in dbs[k].runs.attempts && dbs[k].runs.attempts[r.row.attemptId].node == r.row.node
    requires r.row.node in dbs[k].plan.nodes && dbs[k].plan.nodes[r.row.node].version == r.row.expectedNodeVersion
    requires r.row.attemptId !in dbs[k].results.accepted
    ensures var a := r.row.attemptId;
      var step := Apply(dbs[k], AcceptCall(r, now));
      && step.reply == Done && a in step.db.results.accepted && step.db.results.accepted[a] == r.row
      && a in step.db.results.authorizations
      && step.db.results.authorizations[a] == AuthorizationRow(r.row.node, r.row.resultId, r.row.expectedNodeVersion)
  {
    RunKeepsValid(dbs, calls, k);
    StepLease(dbs[i], calls[i], r.row.attemptId);
  }

  /** The first proof of an attempt that names its node and its builder is stored; later ones change nothing. */
  lemma ProofExactly(db: Db, a: Str, proof: ProofRow)
    ensures var step := Apply(db, ProofCall(a, proof));
      var fits := a in db.runs.attempts && a in db.runs.routing
        && proof.nodeId == db.runs.attempts[a].node.nodeId && proof.builder == db.runs.routing[a].builder;
      && (step.reply == Done <==> fits && (a in db.results.proofs ==> db.results.proofs[a] == proof))
      && step.db == if fits && a !in db.results.proofs
                    then db.(results := db.results.(proofs := db.results.proofs[a := proof])) else db
  {
  }
}
