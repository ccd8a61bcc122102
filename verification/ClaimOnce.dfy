/** `claimOnce` of src/composition/direct-task-service.ts, stepping the store. */
module ClaimOnce {
  import opened Text
  import opened Wrappers
  import opened Lifecycle
  import opened Identifiers
  import opened StoreModel
  import opened ClaimLoop
  import opened ClaimFinish
  import opened OrchestrationStore
  import ReconcileModel

  method ReclaimExpired(store: OrchestrationStore, expired: seq<Str>, now: int)
    modifies store
    ensures store.View() == Run(old(store.View()), Reclaims(expired, now))
  {
    ghost var start := store.View();
    assert expired[0..] == expired;
    for i := 0 to |expired|
      invariant Run(store.View(), Reclaims(expired[i..], now)) == Run(start, Reclaims(expired, now))
    {
      assert expired[i..][0] == expired[i] && expired[i..][1..] == expired[i + 1..];
      RunFirst(store.View(), ReclaimCall(expired[i], CLAIM_OWNER, now), Reclaims(expired[i + 1..], now));
      var _ := store.ReclaimLease(expired[i], CLAIM_OWNER, now);
    }
    assert expired[|expired|..] == [];
  }

  /** The first wanted row of the listing. */
  method ChooseRow(store: OrchestrationStore, rows: seq<Listed>) returns (chosen: Option<Listed>)
    ensures chosen == FirstWanted(rows, store.View())
    ensures chosen.Some? ==> chosen.value.key in store.nodes
  {
    assert rows[0..] == rows;
    for i := 0 to |rows|
      invariant FirstWanted(rows, store.View()) == FirstWanted(rows[i..], store.View())
    {
      assert rows[i..][0] == rows[i] && rows[i..][1..] == rows[i + 1..];
      if Wanted(store.View(), rows[i]) {
        return Some(rows[i]);
      }
    }
    return None;
  }

  /** One uninterrupted invocation up to the claim, on any number of tasks. */
  method ClaimTask(store: OrchestrationStore, tasks: seq<NodeKey>, order: seq<Str>, inv: Invocation)
    modifies store
    ensures store.View() == Run(old(store.View()), ClaimCalls(old(store.View()), tasks, order, inv))
  {
    var expired := Keep(order, ReconcileModel.ExpiredAttempts(store.View(), inv.now));
    ReclaimExpired(store, expired, inv.now);
    RunConcat(old(store.View()), Reclaims(expired, inv.now), ChosenCalls(store.View(), tasks, order, inv));
    var chosen := ChooseRow(store, Listing(tasks, order, store.View()));
    if chosen.None? || Proven(store.View(), chosen.value.attempt) {
      return;
    }
    TakeUp(store, chosen.value.key, chosen.value.attempt, inv);
  }

  method TakeUp(store: OrchestrationStore, key: NodeKey, attempt: Option<Str>, inv: Invocation)
    requires key in store.nodes
    modifies store
    ensures store.View() == Run(old(store.View()), TakeUpCalls(old(store.View()), key, attempt, inv))
  {
    var row := store.nodes[key];
    if row.state == Pending {
      ghost var call := TransitionCall(key, row.version, Ready);
      RunOne(store.View(), call);
      var ready := store.TransitionNode(key, row.version, Ready);
      if !ready.GotNode? {
        return;
      }
      RunFirst(old(store.View()), call, PrepareCalls(store.View(), key, ready.node, attempt, inv));
      row := ready.node;
    }
    Prepare(store, key, row, attempt, inv);
  }

  method Prepare(store: OrchestrationStore, key: NodeKey, row: NodeRow, attempt: Option<Str>, inv: Invocation)
    modifies store
    ensures store.View() == Run(old(store.View()), PrepareCalls(old(store.View()), key, row, attempt, inv))
  {
    var attemptId := if attempt.Some? then attempt.value else DeriveAttemptId(key.workId, key.nodeId, 1);
    var jobId := DeriveJobId(attemptId);
    if attempt.None? {
      ghost var call := CreateAttemptCall(key, attemptId, 1, jobId, Some(inv.routing));
      var created := store.CreateAttempt(key, attemptId, 1, jobId, Some(inv.routing));
      if created.Error? {
        RunOne(old(store.View()), call);
        return;
      }
      RunFirst(old(store.View()), call, StartCalls(store.View(), key, row, attemptId, inv));
    }
    Start(store, key, row, attemptId, inv);
  }

  method Start(store: OrchestrationStore, key: NodeKey, row: NodeRow, attemptId: Str, inv: Invocation)
    modifies store
    ensures store.View() == Run(old(store.View()), StartCalls(old(store.View()), key, row, attemptId, inv))
  {
    ghost var claim := ClaimCall(attemptId, CLAIM_OWNER, inv.token, inv.now + inv.leaseTtl, inv.now);
    ghost var call := TransitionCall(key, row.version, InProgress);
    RunOne(old(store.View()), claim);
    RunOne(old(store.View()), call);
    RunTwo(old(store.View()), call, claim);
    if row.state == Ready {
      var inProgress := store.TransitionNode(key, row.version, InProgress);
      if inProgress.Error? {
        return;
      }
    }
    var _ := store.ClaimLease(attemptId, CLAIM_OWNER, inv.token, inv.now + inv.leaseTtl, inv.now);
  }

  /** The worker has run: record its verdict, submit its result and, if that is accepted, complete the node. */
  method Finish(store: OrchestrationStore, claim: Claim, report: Report)
    modifies store
    ensures store.View() == Run(old(store.View()), FinishCalls(old(store.View()), claim, report))
  {
    ghost var proofs := ProofCalls(store.View(), claim.key, claim.attemptId, report);
    var outcome := Record(store, claim.key, claim.attemptId, report);
    RunConcat(
      old(store.View()), proofs, AcceptCalls(store.View(), claim, report.resultId, outcome, report.now));
    Submit(store, claim, report.resultId, outcome, report.now);
  }

  method Record(store: OrchestrationStore, key: NodeKey, attemptId: Str, report: Report) returns (outcome: Outcome)
    modifies store
    ensures store.View() == Run(old(store.View()), ProofCalls(old(store.View()), key, attemptId, report))
    ensures outcome == ReportedOutcome(old(store.View()), key, attemptId, report)
  {
    if report.ending.Unrecorded? {
      return Fail;
    }
    ghost var first := ProofBy(key, attemptId, report, report.ending.outcome);
    RunOne(store.View(), first);
    RunTwo(store.View(), first, ProofBy(key, attemptId, report, Fail));
    var proof := ProofRow(key.nodeId, report.ending.builder, report.resultId, report.ending.outcome);
    var recorded := store.RecordProofResult(attemptId, proof);
    if !recorded.Error? {
      return report.ending.outcome;
    }
    var _ := store.RecordProofResult(attemptId, proof.(outcome := Fail));
    return Fail;
  }

  method Submit(store: OrchestrationStore, claim: Claim, resultId: Str, outcome: Outcome, now: int)
    modifies store
    ensures store.View() == Run(old(store.View()), AcceptCalls(old(store.View()), claim, resultId, outcome, now))
  {
    var result := ResultOf(claim, resultId, outcome);
    RunOne(old(store.View()), AcceptCall(result, now));
    RunTwo(old(store.View()), AcceptCall(result, now), CompleteCall(claim.key, claim.attemptId));
    var accepted := store.AcceptResult(result, now);
    if !accepted.Error? {
      var _ := store.CompleteAuthorizedResult(claim.key, claim.attemptId);
    }
  }
}
