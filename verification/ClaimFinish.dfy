/**
 The end of an invocation of the claim loop: the proof that the worker's run leaves, the
 acceptance of its result and the completion of the node (`claimOnce` of
 src/composition/direct-task-service.ts after the claim).
 */
module ClaimFinish {
  import opened Text
  import opened Wrappers
  import opened Lifecycle
  import opened Identifiers
  import opened StoreModel
  import opened ClaimLoop
  import opened ClaimStarvation

  // ---- the calls

  /** How the run ended: before it had anything to record, or with a verdict on the work of a builder. */
  datatype Ending = Unrecorded | Verdict(builder: Str, outcome: Outcome)

  datatype Report = Report(resultId: Str, ending: Ending, now: int)

  function ProofBy(key: NodeKey, attemptId: Str, report: Report, outcome: Outcome): Call
    requires report.ending.Verdict?
  {
    ProofCall(attemptId, ProofRow(key.nodeId, report.ending.builder, report.resultId, outcome))
  }

  predicate ProofRefused(db: Db, key: NodeKey, attemptId: Str, report: Report)
    requires report.ending.Verdict?
  {
    ApplyRowCall(db, ProofBy(key, attemptId, report, report.ending.outcome)).reply.Error?
  }

  /** The verdict is recorded; if the store refuses it, a failure is tried in its place. */
  function ProofCalls(db: Db, key: NodeKey, attemptId: Str, report: Report): (calls: seq<Call>)
    ensures forall i :: 0 <= i < |calls| ==> calls[i].ProofCall? && calls[i].attemptId == attemptId
  {
    if report.ending.Unrecorded? then []
    else if ProofRefused(db, key, attemptId, report) then
      [ProofBy(key, attemptId, report, report.ending.outcome), ProofBy(key, attemptId, report, Fail)]
    else [ProofBy(key, attemptId, report, report.ending.outcome)]
  }

  /** A verdict counts only if it was recorded. */
  function ReportedOutcome(db: Db, key: NodeKey, attemptId: Str, report: Report): Outcome {
    if report.ending.Unrecorded? || ProofRefused(db, key, attemptId, report) then Fail else report.ending.outcome
  }

  /** `R` */
  const PHASE: Str := [0x52]

  /** The claim under which the worker ran. */
  datatype Claim = Claim(key: NodeKey, attemptId: Str, generation: nat, token: Str, version: int)

  function ResultOf(claim: Claim, resultId: Str, outcome: Outcome): WorkerResult {
    WorkerResult(
      ResultRow(
        resultId, claim.attemptId, claim.key, outcome, PHASE, None, None, claim.generation, claim.version), claim.token)
  }

  function AcceptCalls(db: Db, claim: Claim, resultId: Str, outcome: Outcome, now: int): (calls: seq<Call>)
    ensures forall i :: 0 <= i < |calls| ==> WorkerCall(calls[i], claim.key, claim.attemptId)
  {
    var accept := AcceptCall(ResultOf(claim, resultId, outcome), now);
    if ApplyRowCall(db, accept).reply.Error? then [accept] else [accept, CompleteCall(claim.key, claim.attemptId)]
  }

  /** Every call after the worker has run. */
  function FinishCalls(db: Db, claim: Claim, report: Report): (calls: seq<Call>)
    ensures forall i :: 0 <= i < |calls| ==> WorkerCall(calls[i], claim.key, claim.attemptId)
  {
    var proofs := ProofCalls(db, claim.key, claim.attemptId, report);
    var outcome := ReportedOutcome(db, claim.key, claim.attemptId, report);
    proofs + AcceptCalls(Run(db, proofs), claim, report.resultId, outcome, report.now)
  }

  // ---- cut off anywhere

  /** A call that the end of an invocation makes for its attempt. */
  predicate WorkerCall(call: Call, key: NodeKey, a: Str) {
    || (call.ProofCall? && call.attemptId == a)
    || (call.AcceptCall? && call.result.row.attemptId == a)
    || (call.CompleteCall? && call.key == key && call.attemptId == a)
  }

  /** The attempt is one of the node, completed only if the node has ended, and its lease is where its state says. */
  predicate Worked(db: Db, key: NodeKey, a: Str) {
    && key in db.plan.nodes && a in db.runs.attempts && db.runs.attempts[a].node == key
    && (db.runs.attempts[a].state.Completed? ==> Terminal(db.plan.nodes[key].state))
    && (db.runs.attempts[a].state.ResultAccepted? ==> a in db.runs.leases)
    && (db.runs.attempts[a].state.Created? ==> a !in db.runs.leases)
  }

  lemma WorkerStep(db: Db, call: Call, key: NodeKey, a: Str)
    requires Worked(db, key, a) && WorkerCall(call, key, a)
    ensures var db' := ApplyRowCall(db, call).db;
      Worked(db', key, a) && (a in db.results.proofs ==> a in db'.results.proofs)
  {
    match call
    case CompleteCall(_, _) => CompletionStep(db, key, a);
    case _ =>
  }

  lemma CompletionStep(db: Db, key: NodeKey, a: Str)
    requires Worked(db, key, a)
    ensures var db' := CompleteAuthorizedResult(db, key, a).db;
      Worked(db', key, a) && db'.results.proofs == db.results.proofs
  {
  }

  lemma {:induction false} WorkerRun(db: Db, calls: seq<Call>, key: NodeKey, a: Str)
    requires Worked(db, key, a) && forall i :: 0 <= i < |calls| ==> WorkerCall(calls[i], key, a)
    ensures RowCalls(calls)
    ensures Worked(Run(db, calls), key, a) && (a in db.results.proofs ==> a in Run(db, calls).results.proofs)
    decreases |calls|
  {
    if |calls| > 0 {
      WorkerStep(db, calls[0], key, a);
      WorkerRun(ApplyRowCall(db, calls[0]).db, calls[1..], key, a);
    }
  }

  /** The task can never be claimed again, and has not ended. */
  ghost predicate ShutOut(db: Db, key: NodeKey, a: Str) {
    exists cause :: Shut(db, Listed(key, Some(a)), cause)
  }

  /**
   Wherever the process dies while it finishes a task: the task is shut out for good if and only
   if it has not ended and the attempt has a proof or an accepted result.
   */
  lemma FinishCutOff(db: Db, claim: Claim, report: Report, k: nat)
    requires Worked(db, claim.key, claim.attemptId) && k <= |FinishCalls(db, claim, report)|
    ensures var db' := Run(db, FinishCalls(db, claim, report)[..k]);
      && claim.key in db'.plan.nodes && claim.attemptId in db'.runs.attempts
      && (ShutOut(db', claim.key, claim.attemptId) <==>
            && !Terminal(db'.plan.nodes[claim.key].state)
            && (claim.attemptId in db'.results.proofs || db'.runs.attempts[claim.attemptId].state.ResultAccepted?))
  {
    WorkerRun(db, FinishCalls(db, claim, report)[..k], claim.key, claim.attemptId);
    ShutOutExactly(Run(db, FinishCalls(db, claim, report)[..k]), claim.key, claim.attemptId);
  }

  lemma ShutOutExactly(db: Db, key: NodeKey, a: Str)
    requires Worked(db, key, a)
    ensures ShutOut(db, key, a) <==>
      !Terminal(db.plan.nodes[key].state) && (a in db.results.proofs || db.runs.attempts[a].state.ResultAccepted?)
  {
    var row := Listed(key, Some(a));
    if !Terminal(db.plan.nodes[key].state) {
      assert a in db.results.proofs ==> Shut(db, row, ProofRecorded);
      assert db.runs.attempts[a].state.ResultAccepted? ==> Shut(db, row, LeaseLeft);
    }
  }

  // ---- a late report

  /** The proof of the report is recorded, under an attempt that had none. */
  predicate Records(db: Db, claim: Claim, report: Report) {
    && report.ending.Verdict? && claim.attemptId !in db.results.proofs
    && !ProofRefused(db, claim.key, claim.attemptId, report)
  }

  /** A report whose lease no longer authorizes it leaves the proof behind and nothing else. */
  lemma LateReport(db: Db, claim: Claim, report: Report)
    requires claim.attemptId !in db.results.accepted && Records(db, claim, report)
    requires !LeaseAuthorizes(db, ResultOf(claim, report.resultId, report.ending.outcome), report.now)
    ensures var proof := ProofBy(claim.key, claim.attemptId, report, report.ending.outcome).proof;
      Run(db, FinishCalls(db, claim, report))
      == db.(results := db.results.(proofs := db.results.proofs[claim.attemptId := proof]))
  {
    var first := ProofBy(claim.key, claim.attemptId, report, report.ending.outcome);
    var db1 := ApplyRowCall(db, first).db;
    var accept := AcceptCall(ResultOf(claim, report.resultId, report.ending.outcome), report.now);
    RunOne(db, first);
    RunOne(db1, accept);
    RunConcat(db, [first], [accept]);
    assert ProofCalls(db, claim.key, claim.attemptId, report) == [first];
    assert ApplyRowCall(db1, accept).reply.Error?;
  }

  /**
   A late report shuts its task out for ever, and with it, while it is the first wanted one, every
   later task: no history of invocations claims anything, and the node stays as it is.
   */
  lemma LateReportStarves(db: Db, tasks: seq<NodeKey>, claim: Claim, report: Report, history: seq<CutOff>)
    requires Worked(db, claim.key, claim.attemptId) && db.plan.nodes[claim.key].state.InProgress?
    requires claim.attemptId !in db.results.accepted && Records(db, claim, report)
    requires !LeaseAuthorizes(db, ResultOf(claim, report.resultId, report.ending.outcome), report.now)
    requires var db1 := Run(db, FinishCalls(db, claim, report));
      forall h :: h in history ==> First(db1, tasks, h.order, Listed(claim.key, Some(claim.attemptId)))
    ensures var db1 := Run(db, FinishCalls(db, claim, report));
      var db' := AfterHistory(db1, tasks, history);
      && Idle(db1, db', claim.key) && claim.key in db'.plan.nodes && db'.plan.nodes[claim.key].state.InProgress?
  {
    var db1 := Run(db, FinishCalls(db, claim, report));
    LateReport(db, claim, report);
    assert Shut(db1, Listed(claim.key, Some(claim.attemptId)), ProofRecorded);
    ShutForEver(db1, tasks, Listed(claim.key, Some(claim.attemptId)), ProofRecorded, history);
  }

  // ---- a passed node has a proof

  /** The attempt's recorded proof says that it passed. */
  predicate PassProven(db: Db, a: Str) {
    a in db.results.proofs && db.results.proofs[a].outcome.Pass?
  }

  lemma ProofCallsProve(db: Db, claim: Claim, report: Report)
    requires ReportedOutcome(db, claim.key, claim.attemptId, report).Pass?
    ensures PassProven(Run(db, ProofCalls(db, claim.key, claim.attemptId, report)), claim.attemptId)
  {
    RunOne(db, ProofBy(claim.key, claim.attemptId, report, Pass));
  }

  /** Proofs move no node. */
  lemma ProofCallsKeepNodes(db: Db, key: NodeKey, a: Str, report: Report)
    ensures Run(db, ProofCalls(db, key, a, report)).plan == db.plan
  {
    if report.ending.Verdict? {
      var first := ProofBy(key, a, report, report.ending.outcome);
      RunOne(db, first);
      RunTwo(db, first, ProofBy(key, a, report, Fail));
    }
  }

  lemma AcceptedOutcome(db: Db, claim: Claim, resultId: Str, outcome: Outcome, now: int)
    requires claim.key in db.plan.nodes && !Terminal(db.plan.nodes[claim.key].state)
    ensures var db' := Run(db, AcceptCalls(db, claim, resultId, outcome, now));
      && db'.results.proofs == db.results.proofs
      && claim.key in db'.plan.nodes
      && (Terminal(db'.plan.nodes[claim.key].state) ==> db'.plan.nodes[claim.key].state == OutcomeState(outcome))
  {
    var accept := AcceptCall(ResultOf(claim, resultId, outcome), now);
    var step := ApplyRowCall(db, accept);
    AcceptedRow(db, ResultOf(claim, resultId, outcome), now);
    if step.reply.Error? {
      RunOne(db, accept);
    } else {
      RunTwo(db, accept, CompleteCall(claim.key, claim.attemptId));
      CompletedOutcome(step.db, claim.key, claim.attemptId);
    }
  }

  /** An acknowledged result is the stored one. */
  lemma AcceptedRow(db: Db, r: WorkerResult, now: int)
    ensures var step := AcceptResult(db, r, now);
      && step.db.plan == db.plan && step.db.results.proofs == db.results.proofs
      && (!step.reply.Error? ==>
            r.row.attemptId in step.db.results.accepted && step.db.results.accepted[r.row.attemptId] == r.row)
  {
  }

  lemma CompletedOutcome(db: Db, key: NodeKey, a: Str)
    requires key in db.plan.nodes && !Terminal(db.plan.nodes[key].state) && a in db.results.accepted
    ensures var db' := CompleteAuthorizedResult(db, key, a).db;
      && db'.results.proofs == db.results.proofs && key in db'.plan.nodes
      && (Terminal(db'.plan.nodes[key].state) ==>
            db'.plan.nodes[key].state == OutcomeState(db.results.accepted[a].outcome))
  {
  }

  /** An invocation that ends its node as passed has recorded the passing proof of its attempt. */
  lemma PassedIsProven(db: Db, claim: Claim, report: Report)
    requires claim.key in db.plan.nodes && !Terminal(db.plan.nodes[claim.key].state)
    ensures var db' := Run(db, FinishCalls(db, claim, report));
      && claim.key in db'.plan.nodes
      && (db'.plan.nodes[claim.key].state.Passed? ==> PassProven(db', claim.attemptId))
  {
    var proofs := ProofCalls(db, claim.key, claim.attemptId, report);
    var db1 := Run(db, proofs);
    var outcome := ReportedOutcome(db, claim.key, claim.attemptId, report);
    ProofCallsKeepNodes(db, claim.key, claim.attemptId, report);
    AcceptedOutcome(db1, claim, report.resultId, outcome, report.now);
    RunConcat(db, proofs, AcceptCalls(db1, claim, report.resultId, outcome, report.now));
    if outcome.Pass? {
      ProofCallsProve(db, claim, report);
    }
  }

  // ---- on a store with one direct task

  /** The phase, with proofs recorded. */
  function WithProofs(t: Task, p: Phase, proofs: map<Str, ProofRow>): Db {
    At(t, p).(results := ResultTables(map[], map[], proofs))
  }

  /** The proofs after the run: the verdict, if it is by the routed builder and there was none before. */
  function ProofsAfter(t: Task, p: Phase, proofs: map<Str, ProofRow>, report: Report): map<Str, ProofRow>
    requires p.Held?
  {
    if report.ending.Verdict? && report.ending.builder == p.routing.builder && AttemptId(t) !in proofs then
      proofs[AttemptId(t) := ProofRow(t.key.nodeId, report.ending.builder, report.resultId, report.ending.outcome)]
    else proofs
  }

  /** The outcome after the run: the verdict, if it is now the recorded one, and otherwise a failure. */
  function OutcomeAfter(t: Task, p: Phase, proofs: map<Str, ProofRow>, report: Report): Outcome
    requires p.Held?
  {
    var proofs', a := ProofsAfter(t, p, proofs, report), AttemptId(t);
    if report.ending.Verdict? && report.ending.builder == p.routing.builder && a in proofs'
      && proofs'[a] == ProofRow(t.key.nodeId, report.ending.builder, report.resultId, report.ending.outcome)
    then report.ending.outcome else Fail
  }

  lemma ProofStep(t: Task, p: Phase, proofs: map<Str, ProofRow>, report: Report)
    requires p.Held?
    ensures var db := WithProofs(t, p, proofs);
      && Run(db, ProofCalls(db, t.key, AttemptId(t), report)) == WithProofs(t, p, ProofsAfter(t, p, proofs, report))
      && ReportedOutcome(db, t.key, AttemptId(t), report) == OutcomeAfter(t, p, proofs, report)
  {
    var db, a := WithProofs(t, p, proofs), AttemptId(t);
    if report.ending.Verdict? {
      var first := ProofBy(t.key, a, report, report.ending.outcome);
      var second := ProofBy(t.key, a, report, Fail);
      RunOne(db, first);
      RunTwo(db, first, second);
    }
  }

  /** The store after the result has been accepted. */
  function AcceptedAt(t: Task, p: Phase, proofs: map<Str, ProofRow>, r: WorkerResult): Db
    requires p.Held?
  {
    var a, db := AttemptId(t), At(t, p);
    db.(runs := db.runs.(attempts := map[a := db.runs.attempts[a].(state := ResultAccepted)]),
        results := ResultTables(map[a := r.row], map[a := AuthorizationRow(t.key, r.row.resultId, 3)], proofs))
  }

  lemma AcceptStep(t: Task, p: Phase, proofs: map<Str, ProofRow>, r: WorkerResult, now: int)
    requires p.Held? && ValidResult(r) && r.row.attemptId == AttemptId(t) && r.row.node == t.key
    requires r.row.expectedNodeVersion == 3 && r.row.generation == p.lease.generation
    requires Sha256(r.token) == p.lease.tokenDigest && p.lease.expiresAt > now
    ensures AcceptResult(WithProofs(t, p, proofs), r, now) == Step(AcceptedAt(t, p, proofs, r), Done)
  {
  }

  lemma LateStep(t: Task, p: Phase, proofs: map<Str, ProofRow>, r: WorkerResult, now: int)
    requires p.Held? && r.row.attemptId == AttemptId(t) && p.lease.expiresAt <= now
    ensures var step := AcceptResult(WithProofs(t, p, proofs), r, now);
      step.reply.Error? && step.db == WithProofs(t, p, proofs)
  {
  }

  /** The store after the node has been completed. */
  function EndedAt(t: Task, p: Phase, proofs: map<Str, ProofRow>, r: WorkerResult): Db
    requires p.Held?
  {
    var a, db := AttemptId(t), At(t, p);
    Db(PlanTables(t.works, map[t.key := NodeRow(OutcomeState(r.row.outcome), 4, [])]),
       db.runs.(attempts := map[a := db.runs.attempts[a].(state := Completed)]),
       ResultTables(map[a := r.row], map[], proofs), t.intake)
  }

  lemma CompleteStep(t: Task, p: Phase, proofs: map<Str, ProofRow>, r: WorkerResult)
    requires p.Held?
    ensures CompleteAuthorizedResult(AcceptedAt(t, p, proofs, r), t.key, AttemptId(t)).db == EndedAt(t, p, proofs, r)
  {
    assert map[AttemptId(t) := AuthorizationRow(t.key, r.row.resultId, 3)] - {AttemptId(t)} == map[];
  }

  /** The claim that the invocation holds in this phase. */
  function ClaimAt(t: Task, p: Phase, inv: Invocation): Claim
    requires p.Held?
  {
    Claim(t.key, AttemptId(t), p.lease.generation, inv.token, 3)
  }

  ghost predicate WellFormed(t: Task, inv: Invocation, report: Report) {
    && Claimable(t) && IsNonEmptyString(t.key.workId, MAX_ID_LENGTH) && IsNonEmptyString(t.key.nodeId, MAX_ID_LENGTH)
    && IsNonEmptyString(inv.token, MAX_TOKEN_LENGTH) && IsNonEmptyString(report.resultId, MAX_RESULT_ID_LENGTH)
  }

  /** The result as submitted has an accepted form. */
  lemma ValidReport(t: Task, p: Phase, inv: Invocation, report: Report, outcome: Outcome)
    requires p.Held? && p.lease.generation > 0 && WellFormed(t, inv, report)
    ensures ValidResult(ResultOf(ClaimAt(t, p, inv), report.resultId, outcome))
  {
    AttemptIdLengths(t);
  }

  lemma InTime(t: Task, p: Phase, proofs: map<Str, ProofRow>, claim: Claim, r: WorkerResult, now: int)
    requires p.Held? && ValidResult(r) && claim == Claim(t.key, AttemptId(t), p.lease.generation, r.token, 3)
    requires r == ResultOf(claim, r.row.resultId, r.row.outcome)
    requires Sha256(r.token) == p.lease.tokenDigest && p.lease.expiresAt > now
    ensures var db := WithProofs(t, p, proofs);
      Run(db, AcceptCalls(db, claim, r.row.resultId, r.row.outcome, now)) == EndedAt(t, p, proofs, r)
  {
    AcceptStep(t, p, proofs, r, now);
    RunTwo(WithProofs(t, p, proofs), AcceptCall(r, now), CompleteCall(t.key, AttemptId(t)));
    CompleteStep(t, p, proofs, r);
  }

  lemma TooLate(t: Task, p: Phase, proofs: map<Str, ProofRow>, claim: Claim, resultId: Str, outcome: Outcome, now: int)
    requires p.Held? && claim.attemptId == AttemptId(t) && p.lease.expiresAt <= now
    ensures var db := WithProofs(t, p, proofs); Run(db, AcceptCalls(db, claim, resultId, outcome, now)) == db
  {
    LateStep(t, p, proofs, ResultOf(claim, resultId, outcome), now);
    RunOne(WithProofs(t, p, proofs), AcceptCall(ResultOf(claim, resultId, outcome), now));
  }

  /**
   Whatever proofs are stored: a report under the claim's own live lease ends the task, in the
   outcome of the verdict if that is the recorded one and as failed otherwise; a late one leaves
   only the proof.
   */
  lemma FinishDecides(t: Task, p: Phase, proofs: map<Str, ProofRow>, inv: Invocation, report: Report)
    requires p.Held? && p.lease == NewLease(inv, p.lease.generation) && p.lease.generation > 0
    requires WellFormed(t, inv, report)
    ensures var db := WithProofs(t, p, proofs);
      var proofs' := ProofsAfter(t, p, proofs, report);
      var r := ResultOf(ClaimAt(t, p, inv), report.resultId, OutcomeAfter(t, p, proofs, report));
      Run(db, FinishCalls(db, ClaimAt(t, p, inv), report))
      == if report.now < inv.now + inv.leaseTtl then EndedAt(t, p, proofs', r) else WithProofs(t, p, proofs')
  {
    var db, proofs' := WithProofs(t, p, proofs), ProofsAfter(t, p, proofs, report);
    var outcome := OutcomeAfter(t, p, proofs, report);
    ProofStep(t, p, proofs, report);
    var accepts := AcceptCalls(WithProofs(t, p, proofs'), ClaimAt(t, p, inv), report.resultId, outcome, report.now);
    RunConcat(db, ProofCalls(db, t.key, AttemptId(t), report), accepts);
    if report.now < inv.now + inv.leaseTtl {
      ValidReport(t, p, inv, report, outcome);
      InTime(t, p, proofs', ClaimAt(t, p, inv), ResultOf(ClaimAt(t, p, inv), report.resultId, outcome), report.now);
    } else {
      TooLate(t, p, proofs', ClaimAt(t, p, inv), report.resultId, outcome, report.now);
    }
  }

  lemma LateAt(t: Task, p: Phase, inv: Invocation, report: Report)
    requires p.Held? && p.lease == NewLease(inv, p.lease.generation) && inv.now + inv.leaseTtl <= report.now
    requires report.ending.Verdict? && report.ending.builder == p.routing.builder
    ensures ShutOut(Run(At(t, p), FinishCalls(At(t, p), ClaimAt(t, p, inv), report)), t.key, AttemptId(t))
  {
    var db, claim := At(t, p), ClaimAt(t, p, inv);
    LateReport(db, claim, report);
    assert Shut(Run(db, FinishCalls(db, claim, report)), Listed(t.key, Some(AttemptId(t))), ProofRecorded);
  }

  /**
   It happens to every task that can be claimed: import it into an empty store, let one invocation
   claim it, and let its worker report a verdict after the lease has run out. The task is shut out.
   */
  lemma {:induction false} LateFromImport(input: DirectTaskInput, order: seq<Str>, inv: Invocation, report: Report)
    requires ImportDirectTask(EmptyDb, input).reply.Imported? && |input.work.nodes| == 1
    requires NoDuplicates(order) && AttemptIdOf(input) in order && |DeriveJobId(AttemptIdOf(input))| <= MAX_ID_LENGTH
    requires report.ending.Verdict? && report.ending.builder == inv.routing.builder
    requires inv.now + inv.leaseTtl <= report.now
    ensures var db0 := ImportDirectTask(EmptyDb, input).db;
      var db1 := Run(db0, ClaimCalls(db0, [KeyOf(input)], order, inv));
      var claim := Claim(KeyOf(input), AttemptIdOf(input), 1, inv.token, 3);
      ShutOut(Run(db1, FinishCalls(db1, claim, report)), KeyOf(input), AttemptIdOf(input))
  {
    var db0 := ImportDirectTask(EmptyDb, input).db;
    var t := Task(db0.plan.works, db0.intake, KeyOf(input));
    ImportedIsWaiting(input);
    InvocationLeads(t, Waiting, order, inv);
    LateAt(t, Held(inv.routing, NewLease(inv, 1)), inv, report);
  }
}
