/**
 Whose turn it is in the claim loop, on any number of tasks: exactly when an invocation claims
 the first wanted one, and what it does otherwise.
 */
module ClaimTurns {
  import opened Text
  import opened Wrappers
  import opened Lifecycle
  import opened Identifiers
  import opened StoreModel
  import opened StoreInvariants
  import opened ClaimLoop
  import ReconcileModel

  // ---- one invocation

  /** The attempt that is claimed for a row: its own, or the derived one. */
  function Target(row: Listed): Str {
    if row.attempt.Some? then row.attempt.value else DeriveAttemptId(row.key.workId, row.key.nodeId, 1)
  }

  /** The conditions under which the first wanted row is claimed. */
  predicate Turn(db: Db, row: Listed)
    requires row.key in db.plan.nodes
  {
    && !Proven(db, row.attempt)
    && Target(row) !in db.runs.leases
    && if row.attempt.Some? then IsNonEmptyString(row.attempt.value, MAX_ID_LENGTH)
       else !db.plan.nodes[row.key].state.InProgress? && |DeriveJobId(Target(row))| <= MAX_ID_LENGTH
  }

  ghost predicate SameNodesBut(nodes: map<NodeKey, NodeRow>, nodes': map<NodeKey, NodeRow>, key: NodeKey) {
    nodes'.Keys == nodes.Keys && forall k :: k in nodes && k != key ==> nodes'[k] == nodes[k]
  }

  ghost predicate SameAttemptsBut(attempts: map<Str, AttemptRow>, attempts': map<Str, AttemptRow>, a: Str) {
    forall b :: b != a ==> (b in attempts' <==> b in attempts) && (b in attempts ==> attempts'[b] == attempts[b])
  }

  /** Nothing but the row's node and its attempt is touched, and no lease is. */
  ghost predicate Missed(db: Db, db': Db, row: Listed) {
    && SameNodesBut(db.plan.nodes, db'.plan.nodes, row.key)
    && SameAttemptsBut(db.runs.attempts, db'.runs.attempts, Target(row))
    && db'.runs.leases == db.runs.leases && Claims(db', Target(row)) == Claims(db, Target(row))
    && db'.results == db.results && db'.intake == db.intake
  }

  /** The row's attempt is leased under the next generation, its node is in progress, and nothing else is touched. */
  ghost predicate Taken(db: Db, db': Db, row: Listed, inv: Invocation) {
    var a, generation := Target(row), Claims(db, Target(row)) + 1;
    && SameNodesBut(db.plan.nodes, db'.plan.nodes, row.key)
    && SameAttemptsBut(db.runs.attempts, db'.runs.attempts, a)
    && row.key in db'.plan.nodes && db'.plan.nodes[row.key].state.InProgress?
    && db'.runs.leases == db.runs.leases[a := NewLease(inv, generation)]
    && a in db'.runs.attempts && db'.runs.attempts[a].state.Leased?
      && db'.runs.attempts[a].leaseGeneration == generation
    && db'.runs.attempts[a].node == (if a in db.runs.attempts then db.runs.attempts[a].node else row.key)
    && db'.results == db.results && db'.intake == db.intake
  }

  /** What a call sequence for this row makes of the database. */
  ghost predicate Decided(db: Db, db': Db, row: Listed, inv: Invocation, taken: bool) {
    if taken then Taken(db, db', row, inv) else Missed(db, db', row)
  }

  /** The claim can be made: its attempt's id has a length the store accepts, and there is no lease. */
  predicate Free(db: Db, row: Listed) {
    IsNonEmptyString(Target(row), MAX_ID_LENGTH) && Target(row) !in db.runs.leases
  }

  lemma ClaimDecides(db: Db, row: Listed, inv: Invocation)
    requires row.key in db.plan.nodes && db.plan.nodes[row.key].state.InProgress?
    requires Target(row) in db.runs.attempts
    ensures var call := ClaimCall(Target(row), CLAIM_OWNER, inv.token, inv.now + inv.leaseTtl, inv.now);
      Decided(db, Run(db, [call]), row, inv, Free(db, row))
  {
    RunOne(db, ClaimCall(Target(row), CLAIM_OWNER, inv.token, inv.now + inv.leaseTtl, inv.now));
  }

  /** A change of the row's node alone comes before. */
  lemma NodeFirst(db: Db, db1: Db, db2: Db, row: Listed, inv: Invocation, taken: bool)
    requires SameNodesBut(db.plan.nodes, db1.plan.nodes, row.key) && db1.runs == db.runs
    requires db1.results == db.results && db1.intake == db.intake
    requires Decided(db1, db2, row, inv, taken)
    ensures Decided(db, db2, row, inv, taken)
  {
  }

  /** A move one position forward at the version read. */
  lemma MoveStep(db: Db, key: NodeKey, newState: NodeState)
    requires key in db.plan.nodes && IsValidTransition(db.plan.nodes[key].state, newState) && !newState.Pending?
    ensures var node := db.plan.nodes[key];
      var step := ApplyRowCall(db, TransitionCall(key, node.version, newState));
      && step.reply.GotNode? && key in step.db.plan.nodes && step.db.plan.nodes[key] == step.reply.node
      && step.reply.node.state == newState && SameNodesBut(db.plan.nodes, step.db.plan.nodes, key)
      && step.db.runs == db.runs && step.db.results == db.results && step.db.intake == db.intake
  {
  }

  lemma ReadyDecides(db: Db, row: Listed, inv: Invocation)
    requires row.key in db.plan.nodes && Target(row) in db.runs.attempts && db.plan.nodes[row.key].state.Ready?
    ensures var calls := StartCalls(db, row.key, db.plan.nodes[row.key], Target(row), inv);
      Decided(db, Run(db, calls), row, inv, Free(db, row))
  {
    var call := TransitionCall(row.key, db.plan.nodes[row.key].version, InProgress);
    var db1 := ApplyRowCall(db, call).db;
    MoveStep(db, row.key, InProgress);
    var rest := [ClaimCall(Target(row), CLAIM_OWNER, inv.token, inv.now + inv.leaseTtl, inv.now)];
    RunFirst(db, call, rest);
    ClaimDecides(db1, row, inv);
    NodeFirst(db, db1, Run(db1, rest), row, inv, Free(db, row));
    assert StartCalls(db, row.key, db.plan.nodes[row.key], Target(row), inv) == [call] + rest;
  }

  lemma RunningDecides(db: Db, row: Listed, inv: Invocation)
    requires row.key in db.plan.nodes && Target(row) in db.runs.attempts && db.plan.nodes[row.key].state.InProgress?
    ensures var calls := StartCalls(db, row.key, db.plan.nodes[row.key], Target(row), inv);
      Decided(db, Run(db, calls), row, inv, Free(db, row))
  {
    ClaimDecides(db, row, inv);
    assert StartCalls(db, row.key, db.plan.nodes[row.key], Target(row), inv)
      == [ClaimCall(Target(row), CLAIM_OWNER, inv.token, inv.now + inv.leaseTtl, inv.now)];
  }

  lemma StartDecides(db: Db, row: Listed, inv: Invocation)
    requires row.key in db.plan.nodes && Target(row) in db.runs.attempts
    requires db.plan.nodes[row.key].state.Ready? || db.plan.nodes[row.key].state.InProgress?
    ensures var calls := StartCalls(db, row.key, db.plan.nodes[row.key], Target(row), inv);
      Decided(db, Run(db, calls), row, inv, Free(db, row))
  {
    if db.plan.nodes[row.key].state.Ready? {
      ReadyDecides(db, row, inv);
    } else {
      RunningDecides(db, row, inv);
    }
  }

  /** The row is one that the left join can show for its node. */
  ghost predicate RowOf(db: Db, row: Listed) {
    if row.attempt.Some? then
      row.attempt.value in db.runs.attempts && db.runs.attempts[row.attempt.value].node == row.key
    else forall a :: a in db.runs.attempts ==> db.runs.attempts[a].node != row.key
  }

  ghost predicate RunsValid(db: Db) {
    db.runs.routing.Keys == db.runs.attempts.Keys && forall a :: a in db.runs.leases ==> a in db.runs.attempts
  }

  /** Creating the derived attempt of a node without attempts. */
  lemma CreateDecides(db: Db, row: Listed, routing: Routing)
    requires row.key in db.plan.nodes && row.attempt.None? && RowOf(db, row) && RunsValid(db)
    ensures var a := Target(row);
      var step := CreateAttempt(db, row.key, a, 1, DeriveJobId(a), Some(routing));
      if |DeriveJobId(a)| > MAX_ID_LENGTH || !db.plan.nodes[row.key].state.Ready? then
        step.reply.Error? && step.db == db
      else
        && !step.reply.Error? && 0 < |a| <= MAX_ID_LENGTH && step.db.plan == db.plan && a in step.db.runs.attempts
        && step.db.runs.leases == db.runs.leases && step.db.results == db.results && step.db.intake == db.intake
        && SameAttemptsBut(db.runs.attempts, step.db.runs.attempts, a) && Claims(step.db, a) == Claims(db, a)
        && step.db.runs.attempts[a].node == (if a in db.runs.attempts then db.runs.attempts[a].node else row.key)
  {
    assert !NumberTaken(db, row.key, 1);
  }

  /** The creation of the row's attempt comes before. */
  lemma CreatedFirst(db: Db, db1: Db, db2: Db, row: Listed, inv: Invocation, taken: bool)
    requires db1.plan == db.plan && Target(row) in db1.runs.attempts && db1.runs.leases == db.runs.leases
    requires SameAttemptsBut(db.runs.attempts, db1.runs.attempts, Target(row))
    requires Claims(db1, Target(row)) == Claims(db, Target(row))
    requires db1.runs.attempts[Target(row)].node
      == (if Target(row) in db.runs.attempts then db.runs.attempts[Target(row)].node else row.key)
    requires db1.results == db.results && db1.intake == db.intake
    requires Decided(db1, db2, row, inv, taken)
    ensures Decided(db, db2, row, inv, taken)
  {
  }

  lemma PrepareDecides(db: Db, row: Listed, inv: Invocation)
    requires row.key in db.plan.nodes && RowOf(db, row) && RunsValid(db)
    requires db.plan.nodes[row.key].state.Ready? || db.plan.nodes[row.key].state.InProgress?
    requires !Proven(db, row.attempt)
    ensures Decided(
      db, Run(db, PrepareCalls(db, row.key, db.plan.nodes[row.key], row.attempt, inv)), row, inv, Turn(db, row))
  {
    var node, a := db.plan.nodes[row.key], Target(row);
    if row.attempt.Some? {
      StartDecides(db, row, inv);
    } else {
      var call := CreateAttemptCall(row.key, a, 1, DeriveJobId(a), Some(inv.routing));
      var step := ApplyRowCall(db, call);
      CreateDecides(db, row, inv.routing);
      if step.reply.Error? {
        RunOne(db, call);
      } else {
        var rest := StartCalls(step.db, row.key, node, a, inv);
        RunFirst(db, call, rest);
        StartDecides(step.db, row, inv);
        CreatedFirst(db, step.db, Run(step.db, rest), row, inv, Turn(db, row));
      }
    }
  }

  lemma TakeUpDecides(db: Db, row: Listed, inv: Invocation)
    requires row.key in db.plan.nodes && !Terminal(db.plan.nodes[row.key].state) && RowOf(db, row) && RunsValid(db)
    requires !Proven(db, row.attempt)
    ensures Decided(db, Run(db, TakeUpCalls(db, row.key, row.attempt, inv)), row, inv, Turn(db, row))
  {
    var node := db.plan.nodes[row.key];
    if node.state.Pending? {
      var call := TransitionCall(row.key, node.version, Ready);
      var step := ApplyRowCall(db, call);
      MoveStep(db, row.key, Ready);
      var rest := PrepareCalls(step.db, row.key, step.reply.node, row.attempt, inv);
      RunFirst(db, call, rest);
      PrepareDecides(step.db, row, inv);
      NodeFirst(db, step.db, Run(step.db, rest), row, inv, Turn(db, row));
    } else {
      PrepareDecides(db, row, inv);
    }
  }

  // ---- the reclaims before

  lemma {:induction false} ReclaimsPrefix(ids: seq<Str>, now: int, k: nat)
    requires k <= |ids|
    ensures Reclaims(ids, now)[..k] == Reclaims(ids[..k], now)
  {
  }

  /** Every listed attempt has an expired lease, or none any more. */
  ghost predicate ExpiredOrGone(db: Db, ids: seq<Str>, now: int) {
    forall a :: a in ids ==> a in ReconcileModel.ExpiredAttempts(db, now) || a !in db.runs.leases
  }

  lemma ReclaimFirst(db: Db, ids: seq<Str>, now: int)
    requires ExpiredOrGone(db, ids, now) && |ids| > 0
    ensures var expired := ReconcileModel.ExpiredAttempts(db, now);
      var db1 := ReclaimLease(db, ids[0], CLAIM_OWNER, now).db;
      db1 == if ids[0] in expired then ReconcileModel.Dropped(db, {ids[0]}) else db
  {
    if ids[0] in ReconcileModel.ExpiredAttempts(db, now) {
      ReconcileModel.ReclaimDrops(db, ids[0], now);
    }
  }

  lemma {:induction false} ReclaimsDrop(db: Db, ids: seq<Str>, now: int)
    requires ExpiredOrGone(db, ids, now)
    ensures Run(db, Reclaims(ids, now))
      == ReconcileModel.Dropped(db, ToSet(ids) * ReconcileModel.ExpiredAttempts(db, now))
    decreases |ids|
  {
    var expired := ReconcileModel.ExpiredAttempts(db, now);
    if |ids| == 0 {
      assert ToSet(ids) * expired == {};
      ReconcileModel.DroppedNone(db);
    } else {
      var a, rest := ids[0], ids[1..];
      ReclaimFirst(db, ids, now);
      RunFirst(db, ReclaimCall(a, CLAIM_OWNER, now), Reclaims(rest, now));
      assert ToSet(ids) == {a} + ToSet(rest);
      if a in expired {
        ReconcileModel.ExpiredAfterDrop(db, {a}, now);
        ReclaimsDrop(ReconcileModel.Dropped(db, {a}), rest, now);
        ReconcileModel.DroppedTwice(db, {a}, ToSet(rest) * (expired - {a}));
        assert ToSet(ids) * expired == {a} + ToSet(rest) * (expired - {a});
      } else {
        ReclaimsDrop(db, rest, now);
        assert ToSet(ids) * expired == ToSet(rest) * expired;
      }
    }
  }

  /** Every attempt is listed. */
  ghost predicate Complete(order: seq<Str>, db: Db) {
    forall a :: a in db.runs.attempts ==> a in order
  }

  /** The store after the expired leases have been reclaimed. */
  function Reclaimed(db: Db, now: int): Db {
    ReconcileModel.Dropped(db, ReconcileModel.ExpiredAttempts(db, now))
  }

  lemma ReclaimsDone(db: Db, order: seq<Str>, now: int)
    requires Complete(order, db)
    ensures Run(db, Reclaims(Keep(order, ReconcileModel.ExpiredAttempts(db, now)), now)) == Reclaimed(db, now)
  {
    var ids := Keep(order, ReconcileModel.ExpiredAttempts(db, now));
    ReclaimsDrop(db, ids, now);
    assert ToSet(ids) * ReconcileModel.ExpiredAttempts(db, now) == ReconcileModel.ExpiredAttempts(db, now);
  }

  lemma {:induction false} ListedRow(tasks: seq<NodeKey>, order: seq<Str>, db: Db, row: Listed)
    requires row in Listing(tasks, order, db) && Complete(order, db)
    ensures RowOf(db, row)
  {
    var first := RowsOf(tasks[0], AttemptsOf(order, db, tasks[0]));
    if row in first {
      if row.attempt.Some? {
        assert row.attempt.value in AttemptsOf(order, db, tasks[0]);
      }
    } else {
      ListedRow(tasks[1..], order, db, row);
    }
  }

  /** A row waits for a worker: its node has not begun, or is in progress with this attempt not completed. */
  predicate Waits(db: Db, row: Listed) {
    && row.key in db.plan.nodes
    && match db.plan.nodes[row.key].state
       case Pending => true
       case Ready => true
       case InProgress =>
         row.attempt.Some? && row.attempt.value in db.runs.attempts ==>
           !db.runs.attempts[row.attempt.value].state.Completed?
       case _ => false
  }

  /** The row that is chosen is the first of the listing that waits; none is chosen only if none waits. */
  lemma {:induction false} ChosenExactly(rows: seq<Listed>, db: Db)
    ensures match FirstWanted(rows, db)
      case None => forall i :: 0 <= i < |rows| ==> !Waits(db, rows[i])
      case Some(row) =>
        exists i ::
          && 0 <= i < |rows| && rows[i] == row && Waits(db, row)
          && forall j :: 0 <= j < i ==> !Waits(db, rows[j])
  {
    if |rows| > 0 && !Waits(db, rows[0]) {
      var rest := rows[1..];
      ChosenExactly(rest, db);
      assert forall j :: 1 <= j < |rows| ==> rows[j] == rest[j - 1];
      if FirstWanted(rest, db).Some? {
        var row := FirstWanted(rest, db).value;
        var i :| 0 <= i < |rest| && rest[i] == row && Waits(db, row) && forall j :: 0 <= j < i ==> !Waits(db, rest[j]);
        assert rows[i + 1] == row;
      }
    } else if |rows| > 0 {
      assert rows[0] == FirstWanted(rows, db).value;
    }
  }

  lemma ChosenDecides(db: Db, tasks: seq<NodeKey>, order: seq<Str>, inv: Invocation)
    requires RunsValid(db) && Complete(order, db)
    ensures var db' := Run(db, ChosenCalls(db, tasks, order, inv));
      match FirstWanted(Listing(tasks, order, db), db)
      case None => db' == db
      case Some(row) => Decided(db, db', row, inv, Turn(db, row))
  {
    var chosen := FirstWanted(Listing(tasks, order, db), db);
    if chosen.Some? {
      ListedRow(tasks, order, db, chosen.value);
      if !Proven(db, chosen.value.attempt) {
        TakeUpDecides(db, chosen.value, inv);
      }
    }
  }

  /**
   Whose turn it is. After the expired leases have been reclaimed, a full invocation looks at the
   first wanted row only: it leases that row's attempt under the next generation if and only if
   `Turn` holds, and otherwise no lease changes. Nothing but that row's node and attempt is touched.
   */
  lemma TurnExact(db: Db, tasks: seq<NodeKey>, order: seq<Str>, inv: Invocation)
    requires Valid(db) && Complete(order, db)
    ensures var db1 := Reclaimed(db, inv.now);
      var db2 := Run(db, ClaimCalls(db, tasks, order, inv));
      match FirstWanted(Listing(tasks, order, db1), db1)
      case None => db2 == db1
      case Some(row) => Decided(db1, db2, row, inv, Turn(db1, row))
  {
    var reclaims := Reclaims(Keep(order, ReconcileModel.ExpiredAttempts(db, inv.now)), inv.now);
    ReclaimsDone(db, order, inv.now);
    RunConcat(db, reclaims, ChosenCalls(Reclaimed(db, inv.now), tasks, order, inv));
    ChosenDecides(Reclaimed(db, inv.now), tasks, order, inv);
  }
}
