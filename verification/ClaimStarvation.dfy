/**
 Starvation in the claim loop: exactly when the first wanted task can be claimed at all, and what
 is left to happen when it cannot.
 */
module ClaimStarvation {
  import opened Text
  import opened Wrappers
  import opened Lifecycle
  import opened Identifiers
  import opened StoreModel
  import opened StoreInvariants
  import opened StoreRuns
  import opened ClaimLoop
  import opened ClaimTurns
  import ReconcileModel

  /** The first wanted row can be claimed, at the latest when its attempt's lease has run out. */
  predicate Open(db: Db, row: Listed)
    requires row.key in db.plan.nodes
  {
    && !Proven(db, row.attempt)
    && match row.attempt
       case Some(a) => a in db.runs.leases ==> a in db.runs.attempts && db.runs.attempts[a].state.Leased?
       case None => !db.plan.nodes[row.key].state.InProgress? && |DeriveJobId(Target(row))| <= MAX_ID_LENGTH
  }

  /** Why a row can never be claimed. */
  datatype Cause =
    | ProofRecorded // its attempt has a proof
    | LeaseLeft     // its attempt's lease stayed when the result was accepted, and is not listed for reclaiming
    | NoAttempt     // it has none, and the store refuses to create one

  ghost predicate Shut(db: Db, row: Listed, cause: Cause) {
    && row.key in db.plan.nodes && !Terminal(db.plan.nodes[row.key].state) && RowOf(db, row)
    && (row.attempt.Some? ==> !db.runs.attempts[row.attempt.value].state.Completed?)
    && match cause
       case ProofRecorded => Proven(db, row.attempt)
       case LeaseLeft =>
         row.attempt.Some? && row.attempt.value in db.runs.leases && !db.runs.attempts[row.attempt.value].state.Leased?
       case NoAttempt =>
         row.attempt.None? &&
         (db.plan.nodes[row.key].state.InProgress? || |DeriveJobId(Target(row))| > MAX_ID_LENGTH)
  }

  /** What every run of the drivers keeps besides `Valid`. */
  ghost predicate AttemptsInOrder(db: Db) {
    forall a :: a in db.runs.attempts ==>
      && IsNonEmptyString(a, MAX_ID_LENGTH)
      && (db.runs.attempts[a].state.Completed? ==>
            db.runs.attempts[a].node in db.plan.nodes && Terminal(db.plan.nodes[db.runs.attempts[a].node].state))
  }

  lemma OpenOrShut(db: Db, row: Listed)
    requires Wanted(db, row) && RowOf(db, row) && AttemptsInOrder(db)
    ensures Open(db, row) <==> forall cause :: !Shut(db, row, cause)
  {
    if !Open(db, row) {
      var cause :=
        if Proven(db, row.attempt) then ProofRecorded else if row.attempt.Some? then LeaseLeft else NoAttempt;
      assert Shut(db, row, cause);
    }
  }

  ghost predicate NoNewLeases(leases: map<Str, LeaseRow>, leases': map<Str, LeaseRow>) {
    forall a :: a in leases' ==> a in leases && leases'[a] == leases[a]
  }

  /** No attempt is created, claimed, completed or moved to another node. */
  ghost predicate SameAttempts(attempts: map<Str, AttemptRow>, attempts': map<Str, AttemptRow>) {
    attempts'.Keys == attempts.Keys && forall a :: a in attempts ==>
      && attempts'[a].node == attempts[a].node && attempts'[a].leaseGeneration == attempts[a].leaseGeneration
      && (attempts'[a].state.Completed? <==> attempts[a].state.Completed?)
  }

  /** Nothing happens but that leases run out and this node is made ready or in progress. */
  ghost predicate Idle(db: Db, db': Db, key: NodeKey) {
    && SameNodesBut(db.plan.nodes, db'.plan.nodes, key)
    && (key in db.plan.nodes && db.plan.nodes[key].state.InProgress? ==> db'.plan.nodes[key].state.InProgress?)
    && SameAttempts(db.runs.attempts, db'.runs.attempts) && NoNewLeases(db.runs.leases, db'.runs.leases)
    && db'.runs.routing == db.runs.routing && db'.results == db.results && db'.intake == db.intake
  }

  lemma IdleOn(db: Db, db1: Db, db2: Db, key: NodeKey)
    requires Idle(db, db1, key) && Idle(db1, db2, key)
    ensures Idle(db, db2, key)
  {
  }

  lemma {:induction false} SameAttemptsOf(order: seq<Str>, db: Db, db': Db, key: NodeKey)
    requires SameAttempts(db.runs.attempts, db'.runs.attempts)
    ensures AttemptsOf(order, db', key) == AttemptsOf(order, db, key)
  {
    if |order| > 0 {
      SameAttemptsOf(order[1..], db, db', key);
    }
  }

  lemma {:induction false} SameListing(tasks: seq<NodeKey>, order: seq<Str>, db: Db, db': Db)
    requires SameAttempts(db.runs.attempts, db'.runs.attempts)
    ensures Listing(tasks, order, db') == Listing(tasks, order, db)
  {
    if |tasks| > 0 {
      SameAttemptsOf(order, db, db', tasks[0]);
      SameListing(tasks[1..], order, db, db');
    }
  }

  lemma {:induction false} FirstStays(rows: seq<Listed>, db: Db, db': Db, row: Listed)
    requires FirstWanted(rows, db) == Some(row) && Wanted(db', row)
    requires forall r :: !Wanted(db, r) ==> !Wanted(db', r)
    ensures FirstWanted(rows, db') == Some(row)
  {
    if rows[0] != row {
      FirstStays(rows[1..], db, db', row);
    }
  }

  /** While nothing happens the same row stays the first wanted one. */
  lemma SameFirst(tasks: seq<NodeKey>, order: seq<Str>, db: Db, db': Db, row: Listed)
    requires FirstWanted(Listing(tasks, order, db), db) == Some(row)
    requires Idle(db, db', row.key) && Wanted(db', row)
    ensures FirstWanted(Listing(tasks, order, db'), db') == Some(row)
  {
    SameListing(tasks, order, db, db');
    forall r | !Wanted(db, r)
      ensures !Wanted(db', r)
    {
    }
    FirstStays(Listing(tasks, order, db), db, db', row);
  }

  /** What may still be called for a shut row after the reclaims. */
  predicate Harmless(row: Listed, cause: Cause, call: Call) {
    || (call.TransitionCall? && call.key == row.key && (call.newState.Ready? || call.newState.InProgress?))
    || (call.CreateAttemptCall? && cause.NoAttempt? && call.key == row.key && call.jobId == DeriveJobId(Target(row)))
    || (call.ClaimCall? && cause.LeaseLeft? && row.attempt == Some(call.attemptId))
  }

  lemma HarmlessMove(db: Db, row: Listed, cause: Cause, version: int, newState: NodeState)
    requires Shut(db, row, cause) && (newState.Ready? || newState.InProgress?)
    ensures var db' := TransitionNode(db, row.key, version, newState).db;
      Shut(db', row, cause) && Idle(db, db', row.key)
  {
  }

  lemma HarmlessStep(db: Db, row: Listed, cause: Cause, call: Call)
    requires Shut(db, row, cause) && Harmless(row, cause, call)
    ensures var db' := ApplyRowCall(db, call).db; Shut(db', row, cause) && Idle(db, db', row.key)
    ensures !call.TransitionCall? ==> ApplyRowCall(db, call).reply.Error?
  {
    if call.TransitionCall? {
      HarmlessMove(db, row, cause, call.expectedVersion, call.newState);
    } else {
      assert ApplyRowCall(db, call).db == db;
    }
  }

  lemma {:induction false} HarmlessRun(db: Db, row: Listed, cause: Cause, calls: seq<Call>)
    requires Shut(db, row, cause) && RowCalls(calls) && forall i :: 0 <= i < |calls| ==> Harmless(row, cause, calls[i])
    ensures Shut(Run(db, calls), row, cause) && Idle(db, Run(db, calls), row.key)
    decreases |calls|
  {
    if |calls| > 0 {
      var db1 := ApplyRowCall(db, calls[0]).db;
      HarmlessStep(db, row, cause, calls[0]);
      HarmlessRun(db1, row, cause, calls[1..]);
      IdleOn(db, db1, Run(db1, calls[1..]), row.key);
    }
  }

  lemma DropIsIdle(db: Db, s: set<Str>, now: int, key: NodeKey)
    requires s <= ReconcileModel.ExpiredAttempts(db, now)
    ensures Idle(db, ReconcileModel.Dropped(db, s), key)
  {
  }

  lemma DropKeepsShut(db: Db, s: set<Str>, now: int, row: Listed, cause: Cause)
    requires Shut(db, row, cause) && s <= ReconcileModel.ExpiredAttempts(db, now)
    ensures Shut(ReconcileModel.Dropped(db, s), row, cause)
  {
  }

  lemma StartHarmless(db: Db, row: Listed, cause: Cause, node: NodeRow, inv: Invocation)
    requires row.attempt.Some? && cause.LeaseLeft?
    ensures var calls := StartCalls(db, row.key, node, row.attempt.value, inv);
      forall i :: 0 <= i < |calls| ==> Harmless(row, cause, calls[i])
  {
  }

  lemma PrepareHarmless(db: Db, row: Listed, cause: Cause, node: NodeRow, inv: Invocation)
    requires Shut(db, row, cause) && !cause.ProofRecorded?
    ensures var calls := PrepareCalls(db, row.key, node, row.attempt, inv);
      forall i :: 0 <= i < |calls| ==> Harmless(row, cause, calls[i])
  {
    if row.attempt.Some? {
      StartHarmless(db, row, cause, node, inv);
    } else {
      HarmlessStep(
        db, row, cause, CreateAttemptCall(row.key, Target(row), 1, DeriveJobId(Target(row)), Some(inv.routing)));
    }
  }

  lemma ChosenHarmless(db: Db, tasks: seq<NodeKey>, order: seq<Str>, inv: Invocation, row: Listed, cause: Cause)
    requires FirstWanted(Listing(tasks, order, db), db) == Some(row) && Shut(db, row, cause)
    ensures var calls := ChosenCalls(db, tasks, order, inv);
      forall i :: 0 <= i < |calls| ==> Harmless(row, cause, calls[i])
  {
    if !Proven(db, row.attempt) {
      var node := db.plan.nodes[row.key];
      if node.state.Pending? {
        var call := TransitionCall(row.key, node.version, Ready);
        var step := ApplyRowCall(db, call);
        HarmlessStep(db, row, cause, call);
        if step.reply.GotNode? {
          PrepareHarmless(step.db, row, cause, step.reply.node, inv);
        }
      } else {
        PrepareHarmless(db, row, cause, node, inv);
      }
    }
  }

  /** The expired attempts in listing order. */
  function ExpiredList(db: Db, order: seq<Str>, now: int): seq<Str> {
    Keep(order, ReconcileModel.ExpiredAttempts(db, now))
  }

  /** Cut off among the reclaims, an invocation has dropped some of the expired leases. */
  lemma CutAmongReclaims(db: Db, tasks: seq<NodeKey>, h: CutOff, ids: seq<Str>)
    requires ids == ExpiredList(db, h.order, h.inv.now) && h.cut <= |ids|
    ensures ToSet(ids[..h.cut]) <= ReconcileModel.ExpiredAttempts(db, h.inv.now)
    ensures AfterCut(db, tasks, h) == ReconcileModel.Dropped(db, ToSet(ids[..h.cut]))
  {
    ReclaimsPrefix(ids, h.inv.now, h.cut);
    ReclaimsDrop(db, ids[..h.cut], h.inv.now);
    assert ToSet(ids[..h.cut]) * ReconcileModel.ExpiredAttempts(db, h.inv.now) == ToSet(ids[..h.cut]);
    assert ClaimCalls(db, tasks, h.order, h.inv)[..h.cut] == Reclaims(ids, h.inv.now)[..h.cut];
  }

  /** Cut off later, it has dropped all of them and begun with the chosen row. */
  lemma CutAfterReclaims(db: Db, tasks: seq<NodeKey>, h: CutOff, ids: seq<Str>) returns (m: nat)
    requires ids == ExpiredList(db, h.order, h.inv.now) && h.cut > |ids|
    ensures ToSet(ids) <= ReconcileModel.ExpiredAttempts(db, h.inv.now)
    ensures var db1 := ReconcileModel.Dropped(db, ToSet(ids));
      var calls := ChosenCalls(db1, tasks, h.order, h.inv);
      m <= |calls| && AfterCut(db, tasks, h) == Run(db1, calls[..m])
  {
    ReclaimsDrop(db, ids, h.inv.now);
    assert ToSet(ids) * ReconcileModel.ExpiredAttempts(db, h.inv.now) == ToSet(ids);
    var reclaims := Reclaims(ids, h.inv.now);
    var calls := ChosenCalls(Run(db, reclaims), tasks, h.order, h.inv);
    var k := if h.cut <= |reclaims + calls| then h.cut else |reclaims + calls|;
    m := k - |reclaims|;
    assert (reclaims + calls)[..k] == reclaims + calls[..m];
    RunConcat(db, reclaims, calls[..m]);
  }

  /** Some of the expired leases are dropped, and a beginning of the calls for the row is made. */
  lemma BegunStaysShut(
    db: Db, tasks: seq<NodeKey>, h: CutOff, row: Listed, cause: Cause, dropped: set<Str>, m: nat)
    requires Shut(db, row, cause) && FirstWanted(Listing(tasks, h.order, db), db) == Some(row)
    requires dropped <= ReconcileModel.ExpiredAttempts(db, h.inv.now)
    requires m <= |ChosenCalls(ReconcileModel.Dropped(db, dropped), tasks, h.order, h.inv)|
    ensures var db1 := ReconcileModel.Dropped(db, dropped);
      var db' := Run(db1, ChosenCalls(db1, tasks, h.order, h.inv)[..m]);
      Shut(db', row, cause) && Idle(db, db', row.key)
  {
    var db1 := ReconcileModel.Dropped(db, dropped);
    DropIsIdle(db, dropped, h.inv.now, row.key);
    DropKeepsShut(db, dropped, h.inv.now, row, cause);
    SameFirst(tasks, h.order, db, db1, row);
    ChosenHarmless(db1, tasks, h.order, h.inv, row, cause);
    var calls := ChosenCalls(db1, tasks, h.order, h.inv)[..m];
    HarmlessRun(db1, row, cause, calls);
    IdleOn(db, db1, Run(db1, calls), row.key);
  }

  lemma ShutStays(db: Db, tasks: seq<NodeKey>, h: CutOff, row: Listed, cause: Cause)
    requires Shut(db, row, cause) && FirstWanted(Listing(tasks, h.order, db), db) == Some(row)
    ensures var db' := AfterCut(db, tasks, h); Shut(db', row, cause) && Idle(db, db', row.key)
  {
    var ids := ExpiredList(db, h.order, h.inv.now);
    if h.cut <= |ids| {
      CutAmongReclaims(db, tasks, h, ids);
      DropIsIdle(db, ToSet(ids[..h.cut]), h.inv.now, row.key);
      DropKeepsShut(db, ToSet(ids[..h.cut]), h.inv.now, row, cause);
    } else {
      var m := CutAfterReclaims(db, tasks, h, ids);
      BegunStaysShut(db, tasks, h, row, cause, ToSet(ids), m);
    }
  }

  /** The listing shows this row as the first wanted one. */
  ghost predicate First(db: Db, tasks: seq<NodeKey>, order: seq<Str>, row: Listed) {
    FirstWanted(Listing(tasks, order, db), db) == Some(row)
  }

  /**
   A shut first row stops the loop for good: whatever is invoked, however often and wherever it is
   cut off, no attempt is created, claimed or completed for any task, no lease is given, and no
   other node moves.
   */
  lemma {:induction false} ShutForEver(db: Db, tasks: seq<NodeKey>, row: Listed, cause: Cause, history: seq<CutOff>)
    requires Shut(db, row, cause) && forall h :: h in history ==> First(db, tasks, h.order, row)
    ensures var db' := AfterHistory(db, tasks, history); Shut(db', row, cause) && Idle(db, db', row.key)
    decreases |history|
  {
    if |history| > 0 {
      var h := history[|history| - 1];
      var before := AfterHistory(db, tasks, history[..|history| - 1]);
      ShutForEver(db, tasks, row, cause, history[..|history| - 1]);
      SameFirst(tasks, h.order, db, before, row);
      ShutStays(before, tasks, h, row, cause);
      IdleOn(db, before, AfterCut(before, tasks, h), row.key);
    }
  }

  /** The lease of the row's attempt, if there is one, has run out. */
  predicate LeaseOver(db: Db, row: Listed, now: int) {
    Target(row) in db.runs.leases ==> db.runs.leases[Target(row)].expiresAt <= now
  }

  /** The derived id of a node without attempts is not in use for another node. */
  predicate OwnId(db: Db, row: Listed) {
    row.attempt.None? ==> Target(row) !in db.runs.attempts
  }

  lemma OpenGetsTurn(db: Db, row: Listed, now: int)
    requires Valid(db) && AttemptsInOrder(db) && RowOf(db, row) && row.key in db.plan.nodes
    requires OwnId(db, row) && Open(db, row) && LeaseOver(db, row, now)
    ensures Turn(Reclaimed(db, now), row)
  {
  }

  lemma TakenIsClaimed(db: Db, db1: Db, db2: Db, row: Listed, inv: Invocation)
    requires RowOf(db, row) && OwnId(db, row) && SameAttempts(db.runs.attempts, db1.runs.attempts)
      && Taken(db1, db2, row, inv)
    ensures ClaimedBy(db2, row.key, Target(row), inv, Claims(db, Target(row)) + 1)
  {
  }

  /** An open first row is claimed by every full invocation after its attempt's lease has run out. */
  lemma OpenIsTaken(db: Db, tasks: seq<NodeKey>, order: seq<Str>, row: Listed, inv: Invocation)
    requires Valid(db) && AttemptsInOrder(db) && Complete(order, db) && First(db, tasks, order, row)
    requires OwnId(db, row) && Open(db, row) && LeaseOver(db, row, inv.now)
    ensures var db' := Run(db, ClaimCalls(db, tasks, order, inv));
      ClaimedBy(db', row.key, Target(row), inv, Claims(db, Target(row)) + 1)
  {
    var db1 := Reclaimed(db, inv.now);
    ListedRow(tasks, order, db, row);
    OpenGetsTurn(db, row, inv.now);
    ReclaimIsIdle(db, inv.now, row);
    SameFirst(tasks, order, db, db1, row);
    TurnExact(db, tasks, order, inv);
    TakenIsClaimed(db, db1, Run(db, ClaimCalls(db, tasks, order, inv)), row, inv);
  }

  lemma ReclaimIsIdle(db: Db, now: int, row: Listed)
    ensures Idle(db, Reclaimed(db, now), row.key) && (Wanted(db, row) ==> Wanted(Reclaimed(db, now), row))
  {
    DropIsIdle(db, ReconcileModel.ExpiredAttempts(db, now), now, row.key);
  }

  /** The history claims the row's attempt, and throughout it the row is the first wanted one. */
  ghost predicate HistoryClaims(db: Db, tasks: seq<NodeKey>, row: Listed, history: seq<CutOff>) {
    && (forall h :: h in history ==> First(db, tasks, h.order, row))
    && Claims(AfterHistory(db, tasks, history), Target(row)) > Claims(db, Target(row))
  }

  /** One invocation that is not cut off. */
  lemma WholeInvocation(db: Db, tasks: seq<NodeKey>, h: CutOff)
    requires h.cut == |ClaimCalls(db, tasks, h.order, h.inv)|
    ensures AfterHistory(db, tasks, [h]) == Run(db, ClaimCalls(db, tasks, h.order, h.inv))
  {
    assert [h][..0] == [];
    assert AfterHistory(db, tasks, [h][..0]) == db;
    assert ClaimCalls(db, tasks, h.order, h.inv)[..h.cut] == ClaimCalls(db, tasks, h.order, h.inv);
  }

  lemma OpenHistory(db: Db, tasks: seq<NodeKey>, order: seq<Str>, row: Listed) returns (history: seq<CutOff>)
    requires Valid(db) && AttemptsInOrder(db) && Complete(order, db) && First(db, tasks, order, row)
    requires OwnId(db, row) && Open(db, row)
    ensures HistoryClaims(db, tasks, row, history)
  {
    var now := if Target(row) in db.runs.leases then db.runs.leases[Target(row)].expiresAt else 0;
    var inv := Invocation(now, 0, [], Routing([], 0));
    var h := CutOff(inv, order, |ClaimCalls(db, tasks, order, inv)|);
    OpenIsTaken(db, tasks, order, row, inv);
    WholeInvocation(db, tasks, h);
    history := [h];
  }

  /**
   Starvation, exactly. The first wanted row is claimed in some history of invocations, wherever
   they are cut off, if and only if it is open.
   */
  lemma TurnComesExactly(db: Db, tasks: seq<NodeKey>, order: seq<Str>, row: Listed)
    requires Valid(db) && AttemptsInOrder(db) && Complete(order, db) && First(db, tasks, order, row) && OwnId(db, row)
    ensures Open(db, row) <==> exists history :: HistoryClaims(db, tasks, row, history)
  {
    ListedRow(tasks, order, db, row);
    if Open(db, row) {
      var history := OpenHistory(db, tasks, order, row);
    } else {
      OpenOrShut(db, row);
      var cause :| Shut(db, row, cause);
      forall history: seq<CutOff> | forall h :: h in history ==> First(db, tasks, h.order, row)
        ensures !HistoryClaims(db, tasks, row, history)
      {
        ShutForEver(db, tasks, row, cause, history);
      }
    }
  }

  // ---- what every run keeps

  lemma CallKeepsOrder(db: Db, call: Call)
    requires Valid(db) && AttemptsInOrder(db) && DriverCall(db, call)
    ensures AttemptsInOrder(Apply(db, call).db)
  {
    if IsImport(call) {
      ImportChanges(db, call);
      StepAdvances(db, call);
    } else if IsLeaseCall(call) {
      LeaseCallKeepsOrder(db, call);
    } else {
      OtherCallKeepsOrder(db, call);
    }
  }

  lemma LeaseCallKeepsOrder(db: Db, call: Call)
    requires AttemptsInOrder(db) && IsLeaseCall(call)
    ensures AttemptsInOrder(ApplyLeaseCall(db, call).db)
  {
  }

  lemma OtherCallKeepsOrder(db: Db, call: Call)
    requires Valid(db) && AttemptsInOrder(db) && DriverCall(db, call) && !IsImport(call) && !IsLeaseCall(call)
    ensures AttemptsInOrder(ApplyOtherCall(db, call).db)
  {
    if call.CompleteCall? {
      CompletionKeepsOrder(db, call.key, call.attemptId);
    } else if call.TransitionCall? {
      MoveKeepsOrder(db, call.key, call.expectedVersion, call.newState);
    }
  }

  lemma MoveKeepsOrder(db: Db, key: NodeKey, version: int, newState: NodeState)
    requires AttemptsInOrder(db)
    ensures AttemptsInOrder(TransitionNode(db, key, version, newState).db)
  {
  }

  lemma CompletionKeepsOrder(db: Db, key: NodeKey, a: Str)
    requires Valid(db) && AttemptsInOrder(db) && DriverCall(db, CompleteCall(key, a))
    ensures AttemptsInOrder(CompleteAuthorizedResult(db, key, a).db)
  {
  }

  lemma {:induction false} RunKeepsOrder(dbs: seq<Db>, calls: seq<Call>, i: nat)
    requires DriverRun(dbs, calls) && i < |dbs| && AttemptsInOrder(dbs[0])
    ensures AttemptsInOrder(dbs[i])
  {
    if i > 0 {
      RunKeepsOrder(dbs, calls, i - 1);
      RunKeepsValid(dbs, calls, i - 1);
      CallKeepsOrder(dbs[i - 1], calls[i - 1]);
    }
  }
}
