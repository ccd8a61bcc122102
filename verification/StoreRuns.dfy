/**
 Whole runs of the store: any number of callers, any interleaving, one transaction at a time.
 */
module StoreRuns {
  import opened Text
  import opened Wrappers
  import opened Lifecycle
  import opened StoreModel
  import opened StoreInvariants

  /** `dbs[i]` is the database before `calls[i]`. */
  ghost predicate IsRun(dbs: seq<Db>, calls: seq<Call>) {
    && |dbs| == |calls| + 1
    && forall i {:trigger calls[i]} :: 0 <= i < |calls| ==> dbs[i + 1] == Apply(dbs[i], calls[i]).db
  }

  /** A run that starts from a database satisfying the invariants, such as the empty one. */
  ghost predicate ValidRun(dbs: seq<Db>, calls: seq<Call>) {
    IsRun(dbs, calls) && Valid(dbs[0])
  }

  lemma {:induction false} RunKeepsValid(dbs: seq<Db>, calls: seq<Call>, i: nat)
    requires ValidRun(dbs, calls) && i < |dbs|
    ensures Valid(dbs[i])
  {
    if i > 0 {
      RunKeepsValid(dbs, calls, i - 1);
      ApplyKeepsValid(dbs[i - 1], calls[i - 1]);
    }
  }

  // ---- one step only adds

  ghost predicate KeepsRows<K(!new), V>(m: map<K, V>, m': map<K, V>) {
    forall k :: k in m ==> k in m' && m'[k] == m[k]
  }

  ghost predicate KeepsTerminal(nodes: map<NodeKey, NodeRow>, nodes': map<NodeKey, NodeRow>) {
    forall k :: k in nodes && Terminal(nodes[k].state) ==> k in nodes' && nodes'[k] == nodes[k]
  }

  /** What no call undoes. */
  ghost predicate Advances(db: Db, db': Db) {
    && NodesAdvance(db.plan.nodes, db'.plan.nodes)
    && KeepsTerminal(db.plan.nodes, db'.plan.nodes)
    && AttemptsAdvance(db.runs.attempts, db'.runs.attempts)
    && KeepsRows(db.plan.works, db'.plan.works)
    && KeepsRows(db.results.accepted, db'.results.accepted)
    && KeepsRows(db.runs.routing, db'.runs.routing)
    && KeepsRows(db.results.proofs, db'.results.proofs)
    && KeepsRows(db.intake.submissions, db'.intake.submissions)
    && KeepsRows(db.intake.idempotency, db'.intake.idempotency)
  }

  lemma AdvancesReflexive(db: Db)
    ensures Advances(db, db)
  {
  }

  lemma InsertWorkAdvances(db: Db, work: ApprovedWork)
    requires Valid(db) && work.workId !in db.plan.works && EdgesOk(GraphOf(work))
    ensures Advances(db, InsertWork(db, work))
  {
    InsertWorkKeeps(db, work);
  }

  lemma InsertDirectTaskAdvances(db: Db, input: DirectTaskInput)
    requires Advances(db, InsertWork(db, input.work))
    requires input.submissionId !in db.intake.submissions
    requires input.scopeKey.Some? ==> input.scopeKey.value !in db.intake.idempotency
    ensures Advances(db, InsertDirectTask(db, input))
  {
    var db2 := InsertDirectTask(db, input);
    assert KeepsRows(db.intake.submissions, db2.intake.submissions);
    assert KeepsRows(db.intake.idempotency, db2.intake.idempotency);
  }

  lemma ImportAdvances(db: Db, call: Call)
    requires Valid(db) && IsImport(call)
    ensures Advances(db, ApplyImport(db, call).db)
  {
    var db' := ApplyImport(db, call).db;
    ImportChanges(db, call);
    if db' == db {
      AdvancesReflexive(db);
    } else {
      InsertedAdvances(db, call, db');
    }
  }

  lemma InsertedAdvances(db: Db, call: Call, db': Db)
    requires Valid(db) && IsImport(call) && Inserted(db, call, db')
    ensures Advances(db, db')
  {
    InsertWorkAdvances(db, ImportedWork(call));
    if call.ImportDirectTaskCall? {
      InsertDirectTaskAdvances(db, call.input);
    }
  }

  lemma NodeStepAdvances(db: Db, key: NodeKey, row: NodeRow)
    requires key in db.plan.nodes && !Terminal(db.plan.nodes[key].state)
    requires row.version >= db.plan.nodes[key].version && row.dependsOn == db.plan.nodes[key].dependsOn
    ensures Advances(db, db.(plan := db.plan.(nodes := db.plan.nodes[key := row])))
  {
  }

  lemma AttemptStepAdvances(db: Db, a: Str, row: AttemptRow)
    requires a in db.runs.attempts ==>
      row.node == db.runs.attempts[a].node && row.leaseGeneration >= db.runs.attempts[a].leaseGeneration
    ensures Advances(db, db.(runs := db.runs.(attempts := db.runs.attempts[a := row])))
  {
  }

  lemma AttemptStateAdvances(db: Db, a: Str, state: AttemptState)
    ensures Advances(db, db.(runs := db.runs.(attempts := SetAttemptState(db.runs.attempts, a, state))))
  {
    if a in db.runs.attempts {
      AttemptStepAdvances(db, a, db.runs.attempts[a].(state := state));
    } else {
      AdvancesReflexive(db);
    }
  }

  lemma CreateAttemptAdvances(db: Db, key: NodeKey, a: Str, number: nat, job: Str, routing: Option<Routing>)
    ensures Advances(db, CreateAttempt(db, key, a, number, job, routing).db)
  {
    var db' := CreateAttempt(db, key, a, number, job, routing).db;
    if db' == db {
      AdvancesReflexive(db);
    } else {
      AttemptStepAdvances(db, a, db'.runs.attempts[a]);
    }
  }

  lemma LeaseCallAdvances(db: Db, call: Call)
    requires IsLeaseCall(call)
    ensures Advances(db, ApplyLeaseCall(db, call).db)
  {
    AttemptStateAdvances(db, call.attemptId, Created);
    AdvancesReflexive(db);
    var db' := ApplyLeaseCall(db, call).db;
    if call.ClaimCall? && db' != db {
      AttemptStepAdvances(db, call.attemptId, db'.runs.attempts[call.attemptId]);
    }
  }

  lemma AcceptAdvances(db: Db, r: WorkerResult, now: int)
    ensures Advances(db, AcceptResult(db, r, now).db)
  {
    AttemptStateAdvances(db, r.row.attemptId, ResultAccepted);
    AdvancesReflexive(db);
  }

  lemma CompleteAdvances(db: Db, key: NodeKey, a: Str)
    ensures Advances(db, CompleteAuthorizedResult(db, key, a).db)
  {
    var step := CompleteAuthorizedResult(db, key, a);
    AdvancesReflexive(db);
    if step.reply.GotNode? {
      NodeStepAdvances(db, key, step.reply.node);
      var db1 := db.(plan := db.plan.(nodes := db.plan.nodes[key := step.reply.node]));
      AttemptStateAdvances(db1, a, Completed);
      AdvancesTransitive(db, db1,
        db1.(runs := db1.runs.(attempts := SetAttemptState(db1.runs.attempts, a, Completed))));
    }
  }

  lemma OtherCallAdvances(db: Db, call: Call)
    requires !IsImport(call) && !IsLeaseCall(call)
    ensures Advances(db, ApplyOtherCall(db, call).db)
  {
    AdvancesReflexive(db);
    match call
    case TransitionCall(key, version, state) =>
      var step := TransitionNode(db, key, version, state);
      if step.reply.GotNode? {
        NodeStepAdvances(db, key, step.reply.node);
      }
    case CreateAttemptCall(key, a, number, job, routing) => CreateAttemptAdvances(db, key, a, number, job, routing);
    case SetJobIdCall(a, job) =>
      if a in db.runs.attempts {
        AttemptStepAdvances(db, a, db.runs.attempts[a].(jobId := job));
      }
    case AcceptCall(result, now) => AcceptAdvances(db, result, now);
    case CompleteCall(key, a) => CompleteAdvances(db, key, a);
    case ProofCall(a, proof) =>
  }

  /** No call undoes what `Advances` lists. */
  lemma StepAdvances(db: Db, call: Call)
    requires Valid(db)
    ensures Advances(db, Apply(db, call).db)
  {
    if IsImport(call) {
      ImportAdvances(db, call);
    } else if IsLeaseCall(call) {
      LeaseCallAdvances(db, call);
    } else {
      OtherCallAdvances(db, call);
    }
  }

  lemma AdvancesTransitive(a: Db, b: Db, c: Db)
    requires Advances(a, b) && Advances(b, c)
    ensures Advances(a, c)
  {
  }

  lemma {:induction false} ChainAdvances(dbs: seq<Db>, i: nat, j: nat)
    requires i <= j < |dbs|
    requires forall m :: i <= m < j ==> Advances(dbs[m], dbs[m + 1])
    ensures Advances(dbs[i], dbs[j])
    decreases j - i
  {
    if i < j {
      ChainAdvances(dbs, i, j - 1);
      assert Advances(dbs[j - 1], dbs[j - 1 + 1]);
      AdvancesTransitive(dbs[i], dbs[j - 1], dbs[j]);
    } else {
      AdvancesReflexive(dbs[i]);
    }
  }

  lemma RunAdvances(dbs: seq<Db>, calls: seq<Call>, i: nat, j: nat)
    requires ValidRun(dbs, calls) && i <= j < |dbs|
    ensures Advances(dbs[i], dbs[j])
  {
    forall m | i <= m < j
      ensures Advances(dbs[m], dbs[m + 1])
    {
      RunStepAdvances(dbs, calls, m);
    }
    ChainAdvances(dbs, i, j);
  }

  lemma RunStepAdvances(dbs: seq<Db>, calls: seq<Call>, i: nat)
    requires ValidRun(dbs, calls) && i < |calls|
    ensures Advances(dbs[i], dbs[i + 1])
  {
    RunKeepsValid(dbs, calls, i);
    StepAdvances(dbs[i], calls[i]);
  }

  // ---- exactly-once completion

  /** In every state of every run a node's version is one more than its lifecycle position. */
  lemma VersionIsPosition(dbs: seq<Db>, calls: seq<Call>, i: nat, key: NodeKey)
    requires ValidRun(dbs, calls) && i < |dbs| && key in dbs[i].plan.nodes
    ensures dbs[i].plan.nodes[key].version == 1 + Position(dbs[i].plan.nodes[key].state)
  {
    RunKeepsValid(dbs, calls, i);
  }

  /** A node that has passed or failed keeps its row for ever. */
  lemma TerminalForEver(dbs: seq<Db>, calls: seq<Call>, i: nat, j: nat, key: NodeKey)
    requires ValidRun(dbs, calls) && i <= j < |dbs|
    requires key in dbs[i].plan.nodes && Terminal(dbs[i].plan.nodes[key].state)
    ensures key in dbs[j].plan.nodes && dbs[j].plan.nodes[key] == dbs[i].plan.nodes[key]
  {
    RunAdvances(dbs, calls, i, j);
  }

  /** Step `i` is a successful completion of `key` by some attempt. */
  ghost predicate Completes(dbs: seq<Db>, calls: seq<Call>, i: nat, key: NodeKey, attemptId: Str)
    requires IsRun(dbs, calls) && i < |calls|
  {
    calls[i] == CompleteCall(key, attemptId) && CompleteAuthorizedResult(dbs[i], key, attemptId).reply.GotNode?
  }

  lemma CompletionEnds(dbs: seq<Db>, calls: seq<Call>, i: nat, key: NodeKey, a: Str)
    requires IsRun(dbs, calls) && i < |calls| && Completes(dbs, calls, i, key, a)
    ensures key in dbs[i].plan.nodes && !Terminal(dbs[i].plan.nodes[key].state)
    ensures key in dbs[i + 1].plan.nodes && Terminal(dbs[i + 1].plan.nodes[key].state)
  {
  }

  /** However many attempts hold accepted results, at most one step of a run completes a node. */
  lemma CompletedAtMostOnce(dbs: seq<Db>, calls: seq<Call>, i: nat, j: nat, key: NodeKey, a: Str, b: Str)
    requires ValidRun(dbs, calls) && i < |calls| && j < |calls|
    requires Completes(dbs, calls, i, key, a) && Completes(dbs, calls, j, key, b)
    ensures i == j && a == b
  {
    CompletionEnds(dbs, calls, i, key, a);
    CompletionEnds(dbs, calls, j, key, b);
    if i < j {
      TerminalForEver(dbs, calls, i + 1, j, key);
    } else if j < i {
      TerminalForEver(dbs, calls, j + 1, i, key);
    }
  }

  /** A node is completed from in progress, at the very version its accepted result was submitted for. */
  lemma CompletedAtSubmittedVersion(dbs: seq<Db>, calls: seq<Call>, i: nat, key: NodeKey, a: Str)
    requires ValidRun(dbs, calls) && i < |calls| && Completes(dbs, calls, i, key, a)
    ensures key in dbs[i].plan.nodes && dbs[i].plan.nodes[key].state.InProgress?
    ensures a in dbs[i].results.accepted
    ensures dbs[i].plan.nodes[key].version == dbs[i].results.accepted[a].expectedNodeVersion
    ensures dbs[i + 1].plan.nodes[key].version == dbs[i].results.accepted[a].expectedNodeVersion + 1
    ensures a !in dbs[i + 1].results.authorizations
  {
    RunKeepsValid(dbs, calls, i);
  }

  // ---- attempts belong to nodes that have left pending

  ghost predicate AttemptsStarted(db: Db) {
    forall a :: a in db.runs.attempts ==>
      db.runs.attempts[a].node in db.plan.nodes && !db.plan.nodes[db.runs.attempts[a].node].state.Pending?
  }

  lemma StartedStays(db: Db, db': Db)
    requires AttemptsStarted(db) && Valid(db) && Valid(db') && NodesAdvance(db.plan.nodes, db'.plan.nodes)
    requires forall a :: a in db'.runs.attempts ==>
      a in db.runs.attempts && db'.runs.attempts[a].node == db.runs.attempts[a].node
    ensures AttemptsStarted(db')
  {
  }

  lemma CreateKeepsStarted(db: Db, key: NodeKey, attemptId: Str, number: nat, job: Str, routing: Option<Routing>)
    requires AttemptsStarted(db)
    ensures AttemptsStarted(CreateAttempt(db, key, attemptId, number, job, routing).db)
  {
  }

  /** No call brings in new attempts except the creation of one. */
  lemma OnlyCreationAddsAttempts(db: Db, call: Call, a: Str)
    requires !call.CreateAttemptCall? && a in Apply(db, call).db.runs.attempts
    ensures a in db.runs.attempts && Apply(db, call).db.runs.attempts[a].node == db.runs.attempts[a].node
  {
    if IsImport(call) {
      ImportChanges(db, call);
    }
  }

  lemma StepKeepsStarted(db: Db, call: Call)
    requires Valid(db) && AttemptsStarted(db)
    ensures AttemptsStarted(Apply(db, call).db)
  {
    if call.CreateAttemptCall? {
      CreateKeepsStarted(db, call.key, call.attemptId, call.number, call.jobId, call.routing);
    } else {
      var db' := Apply(db, call).db;
      ApplyKeepsValid(db, call);
      StepAdvances(db, call);
      forall a | a in db'.runs.attempts
        ensures a in db.runs.attempts && db'.runs.attempts[a].node == db.runs.attempts[a].node
      {
        OnlyCreationAddsAttempts(db, call, a);
      }
      StartedStays(db, db');
    }
  }

  /**
   The discipline of the drivers: they move nodes only to ready and in progress themselves,
   and complete an attempt with the node ids its authorization row stores.
   */
  ghost predicate DriverCall(db: Db, call: Call) {
    match call
    case TransitionCall(_, _, newState) => !Terminal(newState)
    case CompleteCall(key, a) => a in db.results.authorizations ==> db.results.authorizations[a].node == key
    case _ => true
  }

  ghost predicate DriverRun(dbs: seq<Db>, calls: seq<Call>) {
    ValidRun(dbs, calls) && forall i :: 0 <= i < |calls| ==> DriverCall(dbs[i], calls[i])
  }

  ghost predicate OwnOutcome(db: Db, key: NodeKey, a: Str) {
    && key in db.plan.nodes && a in db.runs.attempts && a in db.results.accepted
    && db.runs.attempts[a].node == key
    && db.plan.nodes[key].state == OutcomeState(db.results.accepted[a].outcome)
  }

  /** Step `i` completed the node by attempt `a`, and the node is in the outcome of that attempt's result. */
  ghost predicate EndedBy(dbs: seq<Db>, calls: seq<Call>, k: nat, key: NodeKey, i: int, a: Str)
    requires IsRun(dbs, calls) && k < |dbs|
  {
    0 <= i < k && Completes(dbs, calls, i, key, a) && OwnOutcome(dbs[k], key, a)
  }

  ghost predicate EndedByOwnAttempt(dbs: seq<Db>, calls: seq<Call>, k: nat, key: NodeKey)
    requires IsRun(dbs, calls) && k < |dbs|
  {
    exists i, a :: EndedBy(dbs, calls, k, key, i, a)
  }

  ghost predicate Ended(db: Db, key: NodeKey) {
    key in db.plan.nodes && Terminal(db.plan.nodes[key].state)
  }

  lemma EndingStays(dbs: seq<Db>, calls: seq<Call>, k: nat, key: NodeKey)
    requires ValidRun(dbs, calls) && k < |calls| && Ended(dbs[k], key) && EndedByOwnAttempt(dbs, calls, k, key)
    ensures EndedByOwnAttempt(dbs, calls, k + 1, key)
  {
    var i, a :| EndedBy(dbs, calls, k, key, i, a);
    RunStepAdvances(dbs, calls, k);
    OutcomeStays(dbs[k], dbs[k + 1], key, a);
    assert EndedBy(dbs, calls, k + 1, key, i, a);
  }

  lemma EndingIsCompletion(dbs: seq<Db>, calls: seq<Call>, k: nat, key: NodeKey)
    requires DriverRun(dbs, calls) && k < |calls| && !Ended(dbs[k], key) && Ended(dbs[k + 1], key)
    ensures EndedByOwnAttempt(dbs, calls, k + 1, key)
  {
    RunKeepsValid(dbs, calls, k);
    var call := calls[k];
    EndsByCompletion(dbs[k], call, key);
    assert EndedBy(dbs, calls, k + 1, key, k, call.attemptId);
  }

  /**
   In a driver-level run a node that ends, ends by one completion step, in the state recorded
   by the accepted result of one of its own attempts, and stays there.
   */
  lemma {:induction false} TerminalIsOwnOutcome(dbs: seq<Db>, calls: seq<Call>, k: nat, key: NodeKey)
    requires DriverRun(dbs, calls) && k < |dbs| && Ended(dbs[k], key) && !Ended(dbs[0], key)
    ensures EndedByOwnAttempt(dbs, calls, k, key)
  {
    if k > 0 {
      var j := k - 1;
      if Ended(dbs[j], key) {
        TerminalIsOwnOutcome(dbs, calls, j, key);
      }
      EndingStep(dbs, calls, j, key);
    }
  }

  lemma EndingStep(dbs: seq<Db>, calls: seq<Call>, j: nat, key: NodeKey)
    requires DriverRun(dbs, calls) && j < |calls| && Ended(dbs[j + 1], key)
    requires Ended(dbs[j], key) ==> EndedByOwnAttempt(dbs, calls, j, key)
    ensures EndedByOwnAttempt(dbs, calls, j + 1, key)
  {
    if Ended(dbs[j], key) {
      EndingStays(dbs, calls, j, key);
    } else {
      EndingIsCompletion(dbs, calls, j, key);
    }
  }

  lemma ImportOnlyAddsPending(db: Db, call: Call)
    requires Valid(db) && IsImport(call)
    ensures OnlyAddsPending(db.plan.nodes, ApplyImport(db, call).db.plan.nodes)
  {
    var db' := ApplyImport(db, call).db;
    ImportChanges(db, call);
    if db' != db {
      InsertedKeeps(db, call, db');
    }
  }

  lemma OutcomeStays(db: Db, db': Db, key: NodeKey, a: Str)
    requires Advances(db, db') && OwnOutcome(db, key, a)
    ensures OwnOutcome(db', key, a)
  {
  }

  /** Only imports, transitions and completions write node rows. */
  lemma RowCallNodes(db: Db, call: Call)
    requires !IsImport(call) && !call.TransitionCall? && !call.CompleteCall?
    ensures ApplyRowCall(db, call).db.plan.nodes == db.plan.nodes
  {
    if IsLeaseCall(call) {
      LeaseCallNodes(db, call);
    }
  }

  lemma LeaseCallNodes(db: Db, call: Call)
    requires IsLeaseCall(call)
    ensures ApplyLeaseCall(db, call).db.plan.nodes == db.plan.nodes
  {
  }

  lemma CompletionIsOwnOutcome(db: Db, key: NodeKey, a: Str)
    requires AuthorizationsConsistent(db.results.authorizations, db.results.accepted)
    requires ResultsConsistent(db.results.accepted, db.runs.attempts, db.plan.nodes)
    requires a in db.results.authorizations ==> db.results.authorizations[a].node == key
    requires CompleteAuthorizedResult(db, key, a).reply.GotNode?
    ensures OwnOutcome(CompleteAuthorizedResult(db, key, a).db, key, a)
  {
  }

  lemma EndsByCompletion(db: Db, call: Call, key: NodeKey)
    requires Valid(db) && DriverCall(db, call)
    requires key in db.plan.nodes ==> !Terminal(db.plan.nodes[key].state)
    requires key in Apply(db, call).db.plan.nodes && Terminal(Apply(db, call).db.plan.nodes[key].state)
    ensures call.CompleteCall? && call.key == key && CompleteAuthorizedResult(db, key, call.attemptId).reply.GotNode?
    ensures OwnOutcome(Apply(db, call).db, key, call.attemptId)
  {
    if IsImport(call) {
      ImportOnlyAddsPending(db, call);
    } else if call.CompleteCall? {
      CompletionEndsNode(db, call.key, call.attemptId, key);
      CompletionIsOwnOutcome(db, key, call.attemptId);
    } else if !call.TransitionCall? {
      RowCallNodes(db, call);
    }
  }

  lemma CompletionEndsNode(db: Db, k: NodeKey, a: Str, key: NodeKey)
    requires key in db.plan.nodes ==> !Terminal(db.plan.nodes[key].state)
    requires var db' := CompleteAuthorizedResult(db, k, a).db;
      key in db'.plan.nodes && Terminal(db'.plan.nodes[key].state)
    ensures k == key && CompleteAuthorizedResult(db, k, a).reply.GotNode?
  {
  }

  // ---- first writer wins

  /** An accepted result is never changed or removed. */
  lemma AcceptedForEver(dbs: seq<Db>, calls: seq<Call>, i: nat, j: nat, a: Str)
    requires ValidRun(dbs, calls) && i <= j < |dbs| && a in dbs[i].results.accepted
    ensures a in dbs[j].results.accepted && dbs[j].results.accepted[a] == dbs[i].results.accepted[a]
  {
    RunAdvances(dbs, calls, i, j);
  }

  /**
   Once a result is accepted, at any later point of the run and at any time of day, a
   submission for that attempt changes nothing, and it is acknowledged exactly when it is
   well-formed and equal to the stored result.
   */
  lemma ResubmissionDecided(dbs: seq<Db>, calls: seq<Call>, i: nat, j: nat, r: WorkerResult, now: int)
    requires ValidRun(dbs, calls) && i <= j < |dbs| && r.row.attemptId in dbs[i].results.accepted
    ensures AcceptResult(dbs[j], r, now).db == dbs[j]
    ensures AcceptResult(dbs[j], r, now).reply == Done <==>
      ValidResult(r) && r.row == dbs[i].results.accepted[r.row.attemptId]
    ensures !AcceptResult(dbs[j], r, now).reply.Done? ==> AcceptResult(dbs[j], r, now).reply.Error?
  {
    AcceptedForEver(dbs, calls, i, j, r.row.attemptId);
    RunKeepsValid(dbs, calls, j);
  }
}
