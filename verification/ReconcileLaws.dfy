/**
 What one startup reconciliation achieves, told from the tables before and after it: authorized
 results are completed and their jobs removed, and no expired lease is left
 (src/domains/orchestration/reconciliation.ts).
 */
module ReconcileLaws {
  import opened Text
  import opened Lifecycle
  import opened StoreModel
  import opened StoreInvariants
  import opened StoreLaws
  import opened ReconcileModel
  import opened ReconcileJobs

  // ---- one authorization

  /** Pursuing an authorization is completing it, if it can be completed, and else nothing. */
  lemma PursuitIsCall(db: Db, a: Str)
    requires Valid(db)
    ensures CompleteOne(db, a) ==
      if Completable(db, a) then Apply(db, CompleteCall(db.results.authorizations[a].node, a)).db else db
  {
    if a in db.results.authorizations {
      CompletionExactly(db, a);
    }
  }

  lemma PursuitKeepsValid(db: Db, a: Str)
    requires Valid(db)
    ensures Valid(CompleteOne(db, a))
  {
    if a in db.results.authorizations {
      CompleteKeeps(db, db.results.authorizations[a].node, a);
    }
  }

  /** Pursuing an authorization completes it if its node is in progress at its version, and else nothing. */
  lemma PursuitExactly(db: Db, a: Str)
    requires Valid(db)
    ensures var db' := CompleteOne(db, a);
      && Valid(db')
      && if Completable(db, a) then
           var key := db.results.authorizations[a].node;
           && EndedBy(db, db', key, a)
           && (forall k :: k in db.plan.nodes && k != key ==>
                 k in db'.plan.nodes && db'.plan.nodes[k] == db.plan.nodes[k])
           && db'.results.authorizations == db.results.authorizations - {a}
           && db'.results.accepted == db.results.accepted
         else db' == db
  {
    PursuitIsCall(db, a);
    PursuitKeepsValid(db, a);
    CompleteOneCases(db, a);
    if a in db.results.authorizations {
      CompletionExactly(db, a);
    }
  }

  // ---- the whole third pass

  /** The authorizations and accepted results that the pass began with, as far as they are left. */
  ghost predicate Later(db: Db, db': Db) {
    && (forall a :: a in db'.results.authorizations ==>
          a in db.results.authorizations && db'.results.authorizations[a] == db.results.authorizations[a])
    && db'.results.accepted == db.results.accepted
  }

  /** The node is as before, or one of these completed it, for good. */
  ghost predicate KeptOrEnded(db: Db, db': Db, ids: seq<Str>, key: NodeKey)
    requires key in db.plan.nodes
  {
    && key in db'.plan.nodes
    && (db'.plan.nodes[key] == db.plan.nodes[key]
        || exists a ::
             a in ids && Completable(db, a) && db.results.authorizations[a].node == key && EndedBy(db, db', key, a))
  }

  /** Completed attempts stay completed. */
  lemma CompletedStays(db: Db, b: Str, a: Str)
    requires a in db.runs.attempts && db.runs.attempts[a].state.Completed?
    ensures a in CompleteOne(db, b).runs.attempts && CompleteOne(db, b).runs.attempts[a].state.Completed?
  {
  }

  /** An ended node and a completed attempt stay so. */
  lemma EndedStays(db: Db, db1: Db, b: Str, key: NodeKey, a: Str)
    requires Valid(db1) && EndedBy(db, db1, key, a)
    ensures EndedBy(db, CompleteOne(db1, b), key, a)
  {
    PursuitExactly(db1, b);
    CompletedStays(db1, b, a);
  }

  lemma {:induction false} EndedStaysAlong(db: Db, db1: Db, ids: seq<Str>, key: NodeKey, a: Str)
    requires Valid(db1) && EndedBy(db, db1, key, a)
    ensures EndedBy(db, CompleteAll(db1, ids), key, a)
    decreases |ids|
  {
    if |ids| > 0 {
      PursuitExactly(db1, ids[0]);
      EndedStays(db, db1, ids[0], key, a);
      EndedStaysAlong(db, CompleteOne(db1, ids[0]), ids[1..], key, a);
    }
  }

  lemma EarlierCompletable(db: Db, db1: Db, db2: Db, key: NodeKey, a: Str)
    requires Later(db, db1) && key in db.plan.nodes && key in db1.plan.nodes
    requires db1.plan.nodes[key] == db.plan.nodes[key]
    requires Completable(db1, a) && db1.results.authorizations[a].node == key && EndedBy(db1, db2, key, a)
    ensures Completable(db, a) && db.results.authorizations[a].node == key && EndedBy(db, db2, key, a)
  {
  }

  lemma {:induction false} PassKeepsOrEnds(db: Db, ids: seq<Str>, key: NodeKey)
    requires Valid(db) && key in db.plan.nodes
    ensures Valid(CompleteAll(db, ids)) && Later(db, CompleteAll(db, ids))
    ensures KeptOrEnded(db, CompleteAll(db, ids), ids, key)
    decreases |ids|
  {
    if |ids| > 0 {
      var a, db1 := ids[0], CompleteOne(db, ids[0]);
      PursuitExactly(db, a);
      PassKeepsOrEnds(db1, ids[1..], key);
      if Completable(db, a) && db.results.authorizations[a].node == key {
        EndedStaysAlong(db, db1, ids[1..], key, a);
        assert a in ids;
      } else if CompleteAll(db, ids).plan.nodes[key] != db.plan.nodes[key] {
        var b :| b in ids[1..] && Completable(db1, b) && db1.results.authorizations[b].node == key
          && EndedBy(db1, CompleteAll(db, ids), key, b);
        EarlierCompletable(db, db1, CompleteAll(db, ids), key, b);
        assert b in ids;
      }
    }
  }

  /** After the pass none of those it pursued can be completed any more. */
  lemma NothingCompletable(db: Db, ids: seq<Str>, a: Str)
    requires Valid(db) && Valid(CompleteAll(db, ids)) && a in ids
    ensures !Completable(CompleteAll(db, ids), a)
  {
    AllInertAfter(db, ids, a);
    PursuitExactly(CompleteAll(db, ids), a);
  }

  /** An authorization is used up only by the completion of its node. */
  lemma {:induction false} UsedUp(db: Db, ids: seq<Str>, a: Str)
    requires Valid(db) && a in db.results.authorizations && a !in CompleteAll(db, ids).results.authorizations
    ensures var key := db.results.authorizations[a].node;
      key in CompleteAll(db, ids).plan.nodes && Terminal(CompleteAll(db, ids).plan.nodes[key].state)
    decreases |ids|
  {
    if |ids| > 0 {
      var db1 := CompleteOne(db, ids[0]);
      var key := db.results.authorizations[a].node;
      PursuitExactly(db, ids[0]);
      if a in db1.results.authorizations {
        UsedUp(db1, ids[1..], a);
      } else {
        EndedStaysAlong(db, db1, ids[1..], key, a);
      }
    }
  }

  // ---- a whole run

  lemma DroppedIsValid(db: Db, s: set<Str>)
    requires Valid(db)
    ensures Valid(Dropped(db, s))
  {
    var db' := Dropped(db, s);
    assert AttemptsAdvance(db.runs.attempts, db'.runs.attempts);
    ResultsStayConsistent(
      db.results.accepted, db.runs.attempts, db.plan.nodes, db'.runs.attempts, db'.plan.nodes);
    assert db'.runs.attempts.Keys == db.runs.attempts.Keys;
  }

  /** No authorization is left whose node is in progress at the version it stands for. */
  ghost predicate NoneLeft(db: Db) {
    forall a :: a in db.results.authorizations ==> !Completable(db, a)
  }

  /** No attempt in state leased has an expired lease. */
  ghost predicate NoneExpired(db: Db, now: int) {
    forall a :: a in db.runs.attempts && db.runs.attempts[a].state.Leased? && a in db.runs.leases ==>
      db.runs.leases[a].expiresAt > now
  }

  /**
   The node has ended one version later, in the outcome of the accepted result of one of the
   attempts that were authorized to end it; that attempt is completed and its job is gone.
   */
  ghost predicate Ended(sys: System, sys': System, key: NodeKey) {
    exists a ::
      && Completable(sys.db, a) && sys.db.results.authorizations[a].node == key
      && EndedBy(sys.db, sys'.db, key, a) && !JobQueued(sys', a)
  }

  lemma NothingLeft(db: Db, order: seq<Str>, now: int)
    requires Valid(db) && Lists(order, db)
    ensures NoneLeft(Settled(db, order, now))
  {
    var ids := Keep(order, db.results.authorizations.Keys);
    var dropped := Dropped(db, ExpiredAttempts(db, now));
    var db' := CompleteAll(dropped, ids);
    DroppedIsValid(db, ExpiredAttempts(db, now));
    PassValid(dropped, ids);
    AuthorizationsAfter(dropped, ids);
    forall a | a in db'.results.authorizations
      ensures !Completable(db', a)
    {
      assert a in db.results.authorizations.Keys && a in order;
      NothingCompletable(dropped, ids, a);
    }
  }

  lemma NothingExpired(db: Db, order: seq<Str>, now: int)
    ensures NoneExpired(Settled(db, order, now), now)
  {
    var db' := Settled(db, order, now);
    SettledExpiresNothing(db, order, now);
    forall a | a in db'.runs.attempts && db'.runs.attempts[a].state.Leased? && a in db'.runs.leases
      ensures db'.runs.leases[a].expiresAt > now
    {
      assert a !in ExpiredAttempts(db', now);
    }
  }

  lemma {:induction false} PassValid(db: Db, ids: seq<Str>)
    requires Valid(db)
    ensures Valid(CompleteAll(db, ids)) && Later(db, CompleteAll(db, ids))
    decreases |ids|
  {
    if |ids| > 0 {
      PursuitExactly(db, ids[0]);
      PassValid(CompleteOne(db, ids[0]), ids[1..]);
    }
  }

  /** A node with an authorization that can be completed has ended after the pass. */
  lemma AuthorizedEnds(db: Db, order: seq<Str>, now: int, a: Str) returns (b: Str)
    requires Valid(db) && Lists(order, db) && Completable(db, a)
    ensures var key := db.results.authorizations[a].node;
      && Completable(db, b) && db.results.authorizations[b].node == key && EndedBy(db, Settled(db, order, now), key, b)
  {
    var ids := Keep(order, db.results.authorizations.Keys);
    var dropped := Dropped(db, ExpiredAttempts(db, now));
    var key := db.results.authorizations[a].node;
    var db' := CompleteAll(dropped, ids);
    DroppedIsValid(db, ExpiredAttempts(db, now));
    PassKeepsOrEnds(dropped, ids, key);
    assert a in order;
    NothingCompletable(dropped, ids, a);
    if a !in db'.results.authorizations {
      UsedUp(dropped, ids, a);
    }
    assert db'.plan.nodes[key] != dropped.plan.nodes[key];
    b :| b in ids && Completable(dropped, b) && dropped.results.authorizations[b].node == key
      && EndedBy(dropped, db', key, b);
  }

  /**
   A reconciliation does its work. After one run no authorization is left whose node is in
   progress at the version it stands for, and no attempt is leased beyond its time; and every node
   that had such an authorization has ended in the outcome of one of them.
   */
  lemma RunCompletes(sys: System, order: seq<Str>, now: int)
    requires Valid(sys.db) && DerivedIds(sys.db) && Lists(order, sys.db)
    ensures var sys' := Reconciled(sys, order, now);
      && NoneLeft(sys'.db) && NoneExpired(sys'.db, now)
      && forall a :: Completable(sys.db, a) ==> Ended(sys, sys', sys.db.results.authorizations[a].node)
  {
    var sys' := Reconciled(sys, order, now);
    ReconciledDb(sys, order, now);
    NothingLeft(sys.db, order, now);
    NothingExpired(sys.db, order, now);
    forall a | Completable(sys.db, a)
      ensures Ended(sys, sys', sys.db.results.authorizations[a].node)
    {
      var b := AuthorizedEnds(sys.db, order, now, a);
      JobAfterOneRun(sys, order, now, b);
      assert !JobQueued(sys', b);
    }
  }
}
