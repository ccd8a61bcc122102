/**
 The claim loop of the direct-task service (`claimOnce` of src/composition/direct-task-service.ts),
 up to the claim: the calls it makes, and on a store that holds one direct task what is left when
 it is cut off between any two of them.
 */
module ClaimLoop {
  import opened Text
  import opened Wrappers
  import opened Lifecycle
  import opened Identifiers
  import opened StoreModel
  import opened StoreInvariants
  import ReconcileModel

  /** `direct-task-service` */
  const CLAIM_OWNER: Str := [
    0x64, 0x69, 0x72, 0x65, 0x63, 0x74, 0x2D, 0x74, 0x61, 0x73, 0x6B, 0x2D, 0x73, 0x65, 0x72, 0x76, 0x69, 0x63, 0x65]

  /** One invocation: its time, the lifetime of leases, the token the store draws, and the builder routing. */
  datatype Invocation = Invocation(now: int, leaseTtl: nat, token: Str, routing: Routing)

  function Run(db: Db, calls: seq<Call>): Db
    requires forall i :: 0 <= i < |calls| ==> !IsImport(calls[i])
    decreases |calls|
  {
    if |calls| == 0 then db else Run(ApplyRowCall(db, calls[0]).db, calls[1..])
  }

  ghost predicate RowCalls(calls: seq<Call>) {
    forall i :: 0 <= i < |calls| ==> !IsImport(calls[i])
  }

  lemma {:induction false} RunConcat(db: Db, a: seq<Call>, b: seq<Call>)
    requires RowCalls(a) && RowCalls(b)
    ensures RowCalls(a + b) && Run(db, a + b) == Run(Run(db, a), b)
    decreases |a|
  {
    if |a| == 0 {
      assert a + b == b;
    } else {
      assert (a + b)[1..] == a[1..] + b;
      assert (a + b)[0] == a[0];
      RunConcat(ApplyRowCall(db, a[0]).db, a[1..], b);
    }
  }

  lemma RunFirst(db: Db, call: Call, rest: seq<Call>)
    requires !IsImport(call) && RowCalls(rest)
    ensures RowCalls([call] + rest) && Run(db, [call] + rest) == Run(ApplyRowCall(db, call).db, rest)
  {
    assert ([call] + rest)[1..] == rest;
  }

  lemma RunOne(db: Db, call: Call)
    requires !IsImport(call)
    ensures Run(db, [call]) == ApplyRowCall(db, call).db
  {
    assert [call][1..] == [];
  }

  lemma RunTwo(db: Db, first: Call, second: Call)
    requires !IsImport(first) && !IsImport(second)
    ensures Run(db, [first, second]) == ApplyRowCall(ApplyRowCall(db, first).db, second).db
  {
    assert [first, second][1..] == [second];
    RunOne(ApplyRowCall(db, first).db, second);
  }

  // ---- the listing

  /** A row of the listing: the node of a direct task with one of its attempts, or with none if it has none. */
  datatype Listed = Listed(key: NodeKey, attempt: Option<Str>)

  /** The attempts of a node. */
  function AttemptsOf(order: seq<Str>, db: Db, key: NodeKey): (r: seq<Str>)
    ensures forall a :: a in r <==> a in order && a in db.runs.attempts && db.runs.attempts[a].node == key
  {
    if |order| == 0 then []
    else if order[0] in db.runs.attempts && db.runs.attempts[order[0]].node == key then
      [order[0]] + AttemptsOf(order[1..], db, key)
    else AttemptsOf(order[1..], db, key)
  }

  function RowsOf(key: NodeKey, attempts: seq<Str>): (r: seq<Listed>)
    ensures forall row :: row in r ==> row.key == key
  {
    if |attempts| == 0 then [Listed(key, None)]
    else seq(|attempts|, i requires 0 <= i < |attempts| => Listed(key, Some(attempts[i])))
  }

  /** The left join of the tasks, which `tasks` lists by the time of their submission, with their attempts. */
  function Listing(tasks: seq<NodeKey>, order: seq<Str>, db: Db): seq<Listed> {
    if |tasks| == 0 then []
    else RowsOf(tasks[0], AttemptsOf(order, db, tasks[0])) + Listing(tasks[1..], order, db)
  }

  /** A row is wanted unless its node has ended, or is in progress with this attempt completed. */
  predicate Wanted(db: Db, row: Listed) {
    && row.key in db.plan.nodes && !Terminal(db.plan.nodes[row.key].state)
    && (db.plan.nodes[row.key].state.InProgress? && row.attempt.Some? && row.attempt.value in db.runs.attempts ==>
          !db.runs.attempts[row.attempt.value].state.Completed?)
  }

  function FirstWanted(rows: seq<Listed>, db: Db): (r: Option<Listed>)
    ensures r.Some? ==> r.value in rows && Wanted(db, r.value)
  {
    if |rows| == 0 then None
    else if Wanted(db, rows[0]) then Some(rows[0])
    else FirstWanted(rows[1..], db)
  }

  // ---- the calls

  function Reclaims(ids: seq<Str>, now: int): (r: seq<Call>)
    ensures |r| == |ids| && forall i :: 0 <= i < |r| ==> r[i] == ReclaimCall(ids[i], CLAIM_OWNER, now)
  {
    if |ids| == 0 then [] else [ReclaimCall(ids[0], CLAIM_OWNER, now)] + Reclaims(ids[1..], now)
  }

  /** A proof is recorded for the attempt. */
  predicate Proven(db: Db, attempt: Option<Str>) {
    attempt.Some? && attempt.value in db.results.proofs
  }

  /** The calls after the task has been chosen, given what they find. */
  function TakeUpCalls(db: Db, key: NodeKey, attempt: Option<Str>, inv: Invocation): (calls: seq<Call>)
    requires key in db.plan.nodes
    ensures forall i :: 0 <= i < |calls| ==> !IsImport(calls[i])
  {
    var row := db.plan.nodes[key];
    if row.state.Pending? then
      var call := TransitionCall(key, row.version, Ready);
      var step := ApplyRowCall(db, call);
      if step.reply.GotNode? then [call] + PrepareCalls(step.db, key, step.reply.node, attempt, inv) else [call]
    else PrepareCalls(db, key, row, attempt, inv)
  }

  function PrepareCalls(db: Db, key: NodeKey, row: NodeRow, attempt: Option<Str>, inv: Invocation): (calls: seq<Call>)
    ensures forall i :: 0 <= i < |calls| ==> !IsImport(calls[i])
  {
    if attempt.Some? then StartCalls(db, key, row, attempt.value, inv)
    else
      var attemptId := DeriveAttemptId(key.workId, key.nodeId, 1);
      var call := CreateAttemptCall(key, attemptId, 1, DeriveJobId(attemptId), Some(inv.routing));
      var step := ApplyRowCall(db, call);
      if step.reply.Error? then [call] else [call] + StartCalls(step.db, key, row, attemptId, inv)
  }

  function StartCalls(db: Db, key: NodeKey, row: NodeRow, attemptId: Str, inv: Invocation): (calls: seq<Call>)
    ensures forall i :: 0 <= i < |calls| ==> !IsImport(calls[i])
  {
    var claim := ClaimCall(attemptId, CLAIM_OWNER, inv.token, inv.now + inv.leaseTtl, inv.now);
    if row.state.Ready? then
      var call := TransitionCall(key, row.version, InProgress);
      if ApplyRowCall(db, call).reply.Error? then [call] else [call, claim]
    else [claim]
  }

  /** The calls after the expired leases have been reclaimed. */
  function ChosenCalls(db: Db, tasks: seq<NodeKey>, order: seq<Str>, inv: Invocation): (calls: seq<Call>)
    ensures forall i :: 0 <= i < |calls| ==> !IsImport(calls[i])
  {
    match FirstWanted(Listing(tasks, order, db), db)
    case None => []
    case Some(row) => if Proven(db, row.attempt) then [] else TakeUpCalls(db, row.key, row.attempt, inv)
  }

  /** Every call of one uninterrupted invocation, up to the claim. */
  function ClaimCalls(db: Db, tasks: seq<NodeKey>, order: seq<Str>, inv: Invocation): (calls: seq<Call>)
    ensures forall i :: 0 <= i < |calls| ==> !IsImport(calls[i])
  {
    var reclaims := Reclaims(Keep(order, ReconcileModel.ExpiredAttempts(db, inv.now)), inv.now);
    reclaims + ChosenCalls(Run(db, reclaims), tasks, order, inv)
  }

  // ---- the states of a store with one direct task

  /** What does not change: the works, the intake tables and the key of the node. */
  datatype Task = Task(works: map<Str, Digest<ApprovedWork>>, intake: IntakeTables, key: NodeKey)

  datatype Phase =
    | Waiting
    | MadeReady
    | Prepared(routing: Routing)
    | Started(routing: Routing, released: nat)
    | Held(routing: Routing, lease: LeaseRow)

  function AttemptId(t: Task): Str {
    DeriveAttemptId(t.key.workId, t.key.nodeId, 1)
  }

  function NodeAt(p: Phase): NodeRow {
    match p
    case Waiting => NodeRow(Pending, 1, [])
    case MadeReady => NodeRow(Ready, 2, [])
    case Prepared(_) => NodeRow(Ready, 2, [])
    case Started(_, _) => NodeRow(InProgress, 3, [])
    case Held(_, _) => NodeRow(InProgress, 3, [])
  }

  /** How often the task has been claimed. */
  function GenerationAt(p: Phase): nat {
    match p
    case Started(_, generation) => generation
    case Held(_, lease) => lease.generation
    case _ => 0
  }

  function RunsAt(t: Task, p: Phase): RunTables {
    if p.Waiting? || p.MadeReady? then RunTables(map[], map[], map[])
    else
      var a := AttemptId(t);
      var row := AttemptRow(t.key, 1, if p.Held? then Leased else Created, DeriveJobId(a), GenerationAt(p));
      RunTables(map[a := row], map[a := p.routing], if p.Held? then map[a := p.lease] else map[])
  }

  function At(t: Task, p: Phase): Db {
    Db(PlanTables(t.works, map[t.key := NodeAt(p)]), RunsAt(t, p), ResultTables(map[], map[], map[]), t.intake)
  }

  /** The derived job id is one that the store accepts. */
  predicate Claimable(t: Task) {
    |DeriveJobId(AttemptId(t))| <= MAX_ID_LENGTH
  }

  predicate Possible(t: Task, p: Phase) {
    !p.Waiting? && !p.MadeReady? ==> Claimable(t)
  }

  function NewLease(inv: Invocation, generation: nat): LeaseRow {
    LeaseRow(generation, CLAIM_OWNER, Sha256(inv.token), inv.now, inv.now + inv.leaseTtl)
  }

  predicate Live(p: Phase, now: int) {
    p.Held? && p.lease.expiresAt > now
  }

  /** Where a full invocation leads. */
  function PhaseAfter(t: Task, p: Phase, inv: Invocation): Phase {
    if Live(p, inv.now) then p
    else if !Claimable(t) then MadeReady
    else Held(if p.Waiting? || p.MadeReady? then inv.routing else p.routing, NewLease(inv, GenerationAt(p) + 1))
  }

  // ---- single calls

  lemma AttemptIdLengths(t: Task)
    ensures |AttemptId(t)| > 0 && |DeriveJobId(AttemptId(t))| == |AttemptId(t)| + 6
    ensures 0 < |CLAIM_OWNER| <= MAX_OWNER_LENGTH
  {
  }

  lemma ReadyStep(t: Task)
    ensures TransitionNode(At(t, Waiting), t.key, 1, Ready) == Step(At(t, MadeReady), GotNode(NodeAt(MadeReady)))
  {
  }

  lemma CreateStep(t: Task, routing: Routing)
    ensures var step := CreateAttempt(At(t, MadeReady), t.key, AttemptId(t), 1, DeriveJobId(AttemptId(t)),
      Some(routing));
      if Claimable(t) then step.db == At(t, Prepared(routing)) && !step.reply.Error?
      else step.db == At(t, MadeReady) && step.reply.Error?
  {
    AttemptIdLengths(t);
  }

  lemma StartStep(t: Task, routing: Routing)
    ensures TransitionNode(At(t, Prepared(routing)), t.key, 2, InProgress)
      == Step(At(t, Started(routing, 0)), GotNode(NodeAt(Started(routing, 0))))
  {
  }

  lemma ClaimStep(t: Task, p: Phase, inv: Invocation)
    requires (p.Started? || p.Held?) && Possible(t, p)
    ensures var step := ClaimLease(At(t, p), AttemptId(t), CLAIM_OWNER, inv.token, inv.now + inv.leaseTtl, inv.now);
      if p.Held? then step == Step(At(t, p), Error(LEASE_CONFLICT))
      else
        var generation := GenerationAt(p) + 1;
        step == Step(At(t, Held(p.routing, NewLease(inv, generation))), Claimed(generation, inv.token))
  {
    AttemptIdLengths(t);
  }

  lemma ReclaimStep(t: Task, p: Phase, now: int)
    requires p.Held? && p.lease.expiresAt <= now
    ensures ReclaimLease(At(t, p), AttemptId(t), CLAIM_OWNER, now).db == At(t, Started(p.routing, p.lease.generation))
  {
    AttemptIdLengths(t);
    assert map[AttemptId(t) := p.lease] - {AttemptId(t)} == map[];
  }

  // ---- prefixes of calls

  /** The database is in one of the phases. */
  ghost predicate InPhase(t: Task, db: Db) {
    exists p :: Possible(t, p) && db == At(t, p)
  }

  /** Cut off anywhere the calls leave a phase, and in full they lead to `last`. */
  ghost predicate Leads(t: Task, p: Phase, calls: seq<Call>, last: Phase) {
    && RowCalls(calls)
    && (forall k :: 0 <= k <= |calls| ==> InPhase(t, Run(At(t, p), calls[..k])))
    && Run(At(t, p), calls) == At(t, last) && Possible(t, last)
  }

  lemma LeadsNowhere(t: Task, p: Phase)
    requires Possible(t, p)
    ensures Leads(t, p, [], p)
  {
  }

  lemma LeadsOn(t: Task, p: Phase, call: Call, p': Phase, rest: seq<Call>, last: Phase)
    requires Possible(t, p) && !IsImport(call) && ApplyRowCall(At(t, p), call).db == At(t, p')
      && Leads(t, p', rest, last)
    ensures Leads(t, p, [call] + rest, last)
  {
    var calls := [call] + rest;
    assert calls[1..] == rest;
    forall k | 0 <= k <= |calls|
      ensures InPhase(t, Run(At(t, p), calls[..k]))
    {
      if k > 0 {
        assert calls[..k][1..] == rest[..k - 1];
      } else {
        assert At(t, p) == Run(At(t, p), calls[..0]);
      }
    }
  }

  // ---- the invocation

  function ClaimBy(t: Task, inv: Invocation): Call {
    ClaimCall(AttemptId(t), CLAIM_OWNER, inv.token, inv.now + inv.leaseTtl, inv.now)
  }

  lemma ClaimLeads(t: Task, p: Phase, inv: Invocation)
    requires Possible(t, p) && (p.Started? || Live(p, inv.now))
    ensures Leads(t, p, [ClaimBy(t, inv)], PhaseAfter(t, p, inv))
  {
    var last := PhaseAfter(t, p, inv);
    LeadsNowhere(t, last);
    ClaimStep(t, p, inv);
    LeadsOn(t, p, ClaimBy(t, inv), last, [], last);
    assert [ClaimBy(t, inv)] + [] == [ClaimBy(t, inv)];
  }

  lemma StartLeads(t: Task, p: Phase, inv: Invocation)
    requires Possible(t, p) && !p.Waiting? && !p.MadeReady? && (p.Held? ==> Live(p, inv.now))
    ensures Leads(t, p, StartCalls(At(t, p), t.key, NodeAt(p), AttemptId(t), inv), PhaseAfter(t, p, inv))
  {
    if p.Prepared? {
      StartStep(t, p.routing);
      var started := Started(p.routing, 0);
      ClaimLeads(t, started, inv);
      var call := TransitionCall(t.key, 2, InProgress);
      LeadsOn(t, p, call, started, [ClaimBy(t, inv)], PhaseAfter(t, p, inv));
      assert StartCalls(At(t, p), t.key, NodeAt(p), AttemptId(t), inv) == [call] + [ClaimBy(t, inv)];
    } else {
      ClaimLeads(t, p, inv);
    }
  }

  lemma PrepareLeads(t: Task, p: Phase, inv: Invocation)
    requires Possible(t, p) && !p.Waiting? && (p.Held? ==> Live(p, inv.now))
    ensures Leads(
      t, p,
      PrepareCalls(At(t, p), t.key, NodeAt(p), AttemptAt(t, p), inv), PhaseAfter(t, p, inv))
  {
    if p.MadeReady? {
      var call := CreateAttemptCall(t.key, AttemptId(t), 1, DeriveJobId(AttemptId(t)), Some(inv.routing));
      CreateStep(t, inv.routing);
      if Claimable(t) {
        var prepared := Prepared(inv.routing);
        StartLeads(t, prepared, inv);
        LeadsOn(
          t, p, call, prepared, StartCalls(At(t, prepared), t.key, NodeAt(prepared), AttemptId(t), inv),
          PhaseAfter(t, p, inv));
      } else {
        LeadsNowhere(t, p);
        LeadsOn(t, p, call, p, [], p);
        assert [call] + [] == [call];
      }
    } else {
      StartLeads(t, p, inv);
    }
  }

  lemma TakeUpLeads(t: Task, p: Phase, inv: Invocation)
    requires Possible(t, p) && (p.Held? ==> Live(p, inv.now))
    ensures Leads(
      t, p,
      TakeUpCalls(At(t, p), t.key, AttemptAt(t, p), inv),
      PhaseAfter(t, p, inv))
  {
    if p.Waiting? {
      ReadyStep(t);
      PrepareLeads(t, MadeReady, inv);
      LeadsOn(
        t, p, TransitionCall(t.key, 1, Ready), MadeReady,
        PrepareCalls(At(t, MadeReady), t.key, NodeAt(MadeReady), None, inv), PhaseAfter(t, p, inv));
    } else {
      PrepareLeads(t, p, inv);
    }
  }

  lemma {:induction false} NoneOf(order: seq<Str>, db: Db, key: NodeKey)
    requires forall a :: a in db.runs.attempts ==> db.runs.attempts[a].node != key
    ensures AttemptsOf(order, db, key) == []
  {
    if |order| > 0 {
      NoneOf(order[1..], db, key);
    }
  }

  lemma {:induction false} OnlyOne(order: seq<Str>, db: Db, key: NodeKey, only: Str)
    requires NoDuplicates(order)
    requires forall a :: a in db.runs.attempts && db.runs.attempts[a].node == key ==> a == only
    ensures AttemptsOf(order, db, key) == [] || AttemptsOf(order, db, key) == [only]
  {
    if |order| > 0 {
      OnlyOne(order[1..], db, key, only);
      if order[0] == only {
        assert only !in order[1..];
      }
    }
  }

  /** The attempt of the only task, if it has one yet. */
  function AttemptAt(t: Task, p: Phase): Option<Str> {
    if p.Waiting? || p.MadeReady? then None else Some(AttemptId(t))
  }

  lemma TaskListed(t: Task, p: Phase, order: seq<Str>)
    requires ListsTask(t, order)
    ensures Listing([t.key], order, At(t, p)) == [Listed(t.key, AttemptAt(t, p))]
  {
    var db := At(t, p);
    assert [t.key][1..] == [];
    if p.Waiting? || p.MadeReady? {
      NoneOf(order, db, t.key);
    } else {
      OnlyOne(order, db, t.key, AttemptId(t));
      assert AttemptId(t) in AttemptsOf(order, db, t.key);
    }
  }

  lemma {:induction false} KeepNone(order: seq<Str>)
    ensures Keep(order, {}) == []
  {
    if |order| > 0 {
      KeepNone(order[1..]);
    }
  }

  lemma {:induction false} KeepOne(order: seq<Str>, a: Str)
    requires NoDuplicates(order) && a in order
    ensures Keep(order, {a}) == [a]
  {
    if order[0] == a {
      assert a !in order[1..];
      KeepMissing(order[1..], a);
    } else {
      KeepOne(order[1..], a);
    }
  }

  lemma {:induction false} KeepMissing(order: seq<Str>, a: Str)
    requires a !in order
    ensures Keep(order, {a}) == []
  {
    if |order| > 0 {
      KeepMissing(order[1..], a);
    }
  }

  /** The lease has run out. */
  predicate Expired(p: Phase, now: int) {
    p.Held? && p.lease.expiresAt <= now
  }

  lemma ExpiredOfTask(t: Task, p: Phase, order: seq<Str>, now: int)
    requires NoDuplicates(order) && AttemptId(t) in order
    ensures Keep(order, ReconcileModel.ExpiredAttempts(At(t, p), now)) == if Expired(p, now) then [AttemptId(t)] else []
  {
    var expired := ReconcileModel.ExpiredAttempts(At(t, p), now);
    if Expired(p, now) {
      assert expired == {AttemptId(t)};
      KeepOne(order, AttemptId(t));
    } else {
      assert expired == {};
      KeepNone(order);
    }
  }

  /** The only task is the one chosen. */
  lemma TaskTakenUp(t: Task, p: Phase, order: seq<Str>, inv: Invocation)
    requires ListsTask(t, order)
    ensures ChosenCalls(At(t, p), [t.key], order, inv) ==
      TakeUpCalls(At(t, p), t.key, AttemptAt(t, p), inv)
  {
    TaskListed(t, p, order);
  }

  lemma ExpiredLeads(t: Task, p: Phase, order: seq<Str>, inv: Invocation)
    requires Possible(t, p) && NoDuplicates(order) && AttemptId(t) in order && Expired(p, inv.now)
    ensures Leads(t, p, ClaimCalls(At(t, p), [t.key], order, inv), PhaseAfter(t, p, inv))
  {
    var started := Started(p.routing, p.lease.generation);
    ReclaimStep(t, p, inv.now);
    TakeUpLeads(t, started, inv);
    LeadsOn(
      t, p, ReclaimCall(AttemptId(t), CLAIM_OWNER, inv.now), started,
      TakeUpCalls(At(t, started), t.key, Some(AttemptId(t)), inv), PhaseAfter(t, p, inv));
    ExpiredCalls(t, p, order, inv);
  }

  lemma ExpiredCalls(t: Task, p: Phase, order: seq<Str>, inv: Invocation)
    requires ListsTask(t, order) && Expired(p, inv.now)
    ensures ClaimCalls(At(t, p), [t.key], order, inv) == [ReclaimCall(AttemptId(t), CLAIM_OWNER, inv.now)]
      + TakeUpCalls(At(t, Started(p.routing, p.lease.generation)), t.key, Some(AttemptId(t)), inv)
  {
    var reclaim := ReclaimCall(AttemptId(t), CLAIM_OWNER, inv.now);
    ReclaimStep(t, p, inv.now);
    TaskTakenUp(t, Started(p.routing, p.lease.generation), order, inv);
    RunOne(At(t, p), reclaim);
    ExpiredOfTask(t, p, order, inv.now);
    assert Reclaims([AttemptId(t)], inv.now) == [reclaim];
  }

  /**
   One invocation from any phase. Cut off after any of its calls it leaves a phase; in full it
   leads to the phase after.
   */
  lemma InvocationLeads(t: Task, p: Phase, order: seq<Str>, inv: Invocation)
    requires Possible(t, p) && NoDuplicates(order) && AttemptId(t) in order
    ensures Leads(t, p, ClaimCalls(At(t, p), [t.key], order, inv), PhaseAfter(t, p, inv))
  {
    if Expired(p, inv.now) {
      ExpiredLeads(t, p, order, inv);
    } else {
      var attempt := AttemptAt(t, p);
      ExpiredOfTask(t, p, order, inv.now);
      TaskTakenUp(t, p, order, inv);
      TakeUpLeads(t, p, inv);
      assert Reclaims([], inv.now) == [];
      assert ClaimCalls(At(t, p), [t.key], order, inv) == TakeUpCalls(At(t, p), t.key, attempt, inv);
    }
  }

  // ---- from the import on

  /** An invocation and the number of its calls that took place. */
  datatype CutOff = CutOff(inv: Invocation, order: seq<Str>, cut: nat)

  /** The store after one more invocation, however far it got. */
  function AfterCut(db: Db, tasks: seq<NodeKey>, h: CutOff): Db {
    var calls := ClaimCalls(db, tasks, h.order, h.inv);
    Run(db, calls[..if h.cut <= |calls| then h.cut else |calls|])
  }

  /** The store after a history of invocations that were cut off. */
  function AfterHistory(db: Db, tasks: seq<NodeKey>, history: seq<CutOff>): Db
    decreases |history|
  {
    if |history| == 0 then db
    else
      AfterCut(AfterHistory(db, tasks, history[..|history| - 1]), tasks, history[|history| - 1])
  }

  /** Every listing is complete and free of repetitions. */
  ghost predicate ListsTask(t: Task, order: seq<Str>) {
    NoDuplicates(order) && AttemptId(t) in order
  }

  lemma {:induction false} HistoryInPhase(t: Task, history: seq<CutOff>)
    requires ListedThroughout(AttemptId(t), history)
    ensures InPhase(t, AfterHistory(At(t, Waiting), [t.key], history))
    decreases |history|
  {
    if |history| == 0 {
      assert Possible(t, Waiting);
    } else {
      var rest := history[..|history| - 1];
      assert forall i :: 0 <= i < |rest| ==> rest[i] == history[i];
      HistoryInPhase(t, rest);
      CutInPhase(t, AfterHistory(At(t, Waiting), [t.key], rest), history[|history| - 1]);
    }
  }

  lemma CutInPhase(t: Task, db: Db, h: CutOff)
    requires InPhase(t, db) && ListsTask(t, h.order)
    ensures InPhase(t, AfterCut(db, [t.key], h))
  {
    var p :| Possible(t, p) && db == At(t, p);
    InvocationLeads(t, p, h.order, h.inv);
    var calls := ClaimCalls(At(t, p), [t.key], h.order, h.inv);
    var k := if h.cut <= |calls| then h.cut else |calls|;
    assert InPhase(t, Run(At(t, p), calls[..k]));
  }

  /** A store into which one direct task has just been imported is in the first phase. */
  lemma {:induction false} ImportedIsWaiting(input: DirectTaskInput)
    requires ImportDirectTask(EmptyDb, input).reply.Imported? && |input.work.nodes| == 1
    ensures var db := ImportDirectTask(EmptyDb, input).db;
      db == At(Task(db.plan.works, db.intake, KeyOf(input)), Waiting)
  {
    var node := input.work.nodes[0].graph;
    assert GraphOf(input.work) == [node];
    LoneNodeHasNoEdges([node]);
    LoneFreshRows(input.work.workId, node);
  }

  /** The attempt's lease counter, zero before there is an attempt. */
  function Claims(db: Db, attemptId: Str): nat {
    if attemptId in db.runs.attempts then db.runs.attempts[attemptId].leaseGeneration else 0
  }

  predicate LeaseLive(db: Db, attemptId: Str, now: int) {
    attemptId in db.runs.leases && db.runs.leases[attemptId].expiresAt > now
  }

  /** The attempt is leased under this invocation's token. */
  predicate ClaimedBy(db: Db, key: NodeKey, attemptId: Str, inv: Invocation, generation: nat) {
    && key in db.plan.nodes && db.plan.nodes[key].state.InProgress?
    && attemptId in db.runs.attempts && db.runs.attempts[attemptId].node == key
    && db.runs.attempts[attemptId].state.Leased? && db.runs.attempts[attemptId].leaseGeneration == generation
    && attemptId in db.runs.leases && db.runs.leases[attemptId] == NewLease(inv, generation)
  }

  lemma PhaseClaims(t: Task, p: Phase, inv: Invocation)
    requires Possible(t, p)
    ensures Resumed(At(t, p), At(t, PhaseAfter(t, p, inv)), t.key, inv)
  {
  }

  /**
   What a full invocation makes of the store: nothing if a lease is live; otherwise the task's
   one derived attempt is leased to it under the next generation, if and only if the store
   accepts the length of the derived job id.
   */
  predicate Resumed(db: Db, db': Db, key: NodeKey, inv: Invocation) {
    var a := DeriveAttemptId(key.workId, key.nodeId, 1);
    if LeaseLive(db, a, inv.now) then db' == db
    else ClaimedBy(db', key, a, inv, Claims(db, a) + 1) <==> |DeriveJobId(a)| <= MAX_ID_LENGTH
  }

  lemma {:induction false} PhaseResumes(t: Task, db: Db, order: seq<Str>, inv: Invocation)
    requires InPhase(t, db) && ListsTask(t, order)
    ensures Resumed(db, Run(db, ClaimCalls(db, [t.key], order, inv)), t.key, inv)
  {
    var p :| Possible(t, p) && db == At(t, p);
    InvocationLeads(t, p, order, inv);
    PhaseClaims(t, p, inv);
  }

  /** Every invocation of the history had a complete listing. */
  ghost predicate ListedThroughout(attemptId: Str, history: seq<CutOff>) {
    forall i :: 0 <= i < |history| ==> NoDuplicates(history[i].order) && attemptId in history[i].order
  }

  /**
   Resumability. Take a direct task imported into an empty store and any history of invocations,
   each cut off after any of its calls. The next full invocation, if no lease is live, reaches
   the claim on the same attempt with the next generation, exactly if the derived job id is at
   most 200 long.
   */
  lemma {:induction false} ClaimResumes(input: DirectTaskInput, history: seq<CutOff>, order: seq<Str>, inv: Invocation)
    requires ImportDirectTask(EmptyDb, input).reply.Imported? && |input.work.nodes| == 1
    requires NoDuplicates(order) && AttemptIdOf(input) in order && ListedThroughout(AttemptIdOf(input), history)
    ensures var db := AfterHistory(ImportDirectTask(EmptyDb, input).db, [KeyOf(input)], history);
      Resumed(db, Run(db, ClaimCalls(db, [KeyOf(input)], order, inv)), KeyOf(input), inv)
  {
    var db0 := ImportDirectTask(EmptyDb, input).db;
    var t := Task(db0.plan.works, db0.intake, KeyOf(input));
    ImportedIsWaiting(input);
    HistoryInPhase(t, history);
    PhaseResumes(t, AfterHistory(db0, [KeyOf(input)], history), order, inv);
  }

  function KeyOf(input: DirectTaskInput): NodeKey
    requires |input.work.nodes| == 1
  {
    NodeKey(input.work.workId, input.work.nodes[0].graph.id)
  }

  function AttemptIdOf(input: DirectTaskInput): Str
    requires |input.work.nodes| == 1
  {
    DeriveAttemptId(KeyOf(input).workId, KeyOf(input).nodeId, 1)
  }

  /** A task whose derived job id is too long is never claimed. */
  lemma {:induction false} NeverClaimed(t: Task, db: Db, order: seq<Str>, inv: Invocation)
    requires InPhase(t, db) && ListsTask(t, order) && !Claimable(t)
    ensures AttemptId(t) !in Run(db, ClaimCalls(db, [t.key], order, inv)).runs.leases
  {
    var p :| Possible(t, p) && db == At(t, p);
    InvocationLeads(t, p, order, inv);
  }
}
