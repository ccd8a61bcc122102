/** The reconciliation driver, stepping the store and the queue. */
module Reconciliation {
  import opened Text
  import opened Lifecycle
  import opened Identifiers
  import opened StoreModel
  import opened OrchestrationStore
  import opened ReconcileModel

  /** The queue port: `ensureJob` and `removeJob` are idempotent. */
  class JobQueue {
    var jobs: map<Str, QueueEnvelope>

    constructor ()
      ensures jobs == map[]
    {
      jobs := map[];
    }

    method EnsureJob(envelope: QueueEnvelope)
      modifies this
      ensures jobs == old(jobs)[envelope.jobId := envelope]
    {
      jobs := jobs[envelope.jobId := envelope];
    }

    method RemoveJob(jobId: Str)
      modifies this
      ensures jobs == old(jobs) - {jobId}
    {
      jobs := jobs - {jobId};
    }
  }

  function SystemOf(store: OrchestrationStore, queue: JobQueue): System
    reads store, queue
  {
    System(store.View(), queue.jobs)
  }

  method EnsureJobs(store: OrchestrationStore, queue: JobQueue, created: seq<Str>, ghost now: int)
    requires forall a :: a in created ==> a in store.attempts
    modifies store, queue
    ensures SystemOf(store, queue) == Play(old(SystemOf(store, queue)), JobEffects(old(store.View()), created), now)
  {
    var snapshot := store.attempts;
    ghost var start := SystemOf(store, queue);
    WholeSeq(created);
    for i := 0 to |created|
      invariant forall a :: a in created ==> a in snapshot && snapshot[a] == start.db.runs.attempts[a]
      invariant Play(SystemOf(store, queue), JobEffects(start.db, created[i..]), now)
             == Play(start, JobEffects(start.db, created), now)
    {
      var a := created[i];
      assert created[i..][0] == a && created[i..][1..] == created[i + 1..];
      ghost var rest := JobEffects(start.db, created[i + 1..]);
      var envelope := MakeQueueEnvelope(snapshot[a].node.workId, snapshot[a].node.nodeId, snapshot[a].number);
      assert ([EnsureJob(envelope), SetJob(a, envelope.jobId)] + rest)[1..] == [SetJob(a, envelope.jobId)] + rest;
      assert ([SetJob(a, envelope.jobId)] + rest)[1..] == rest;
      queue.EnsureJob(envelope);
      store.SetJobId(a, envelope.jobId);
    }
  }

  method ReclaimExpired(
    store: OrchestrationStore, listed: seq<Str>, rows: map<Str, AttemptRow>, now: int,
    ghost queue: map<Str, QueueEnvelope>)
    requires forall a :: a in listed ==> a in rows
    modifies store
    ensures System(store.View(), queue)
         == Play(System(old(store.View()), queue), ReclaimEffects(Keep(listed, LeasedIn(rows))), now)
  {
    ghost var start := System(store.View(), queue);
    for i := 0 to |listed|
      invariant Play(System(store.View(), queue), ReclaimEffects(Keep(listed[i..], LeasedIn(rows))), now)
             == Play(start, ReclaimEffects(Keep(listed, LeasedIn(rows))), now)
    {
      var a := listed[i];
      assert listed[i..][0] == a && listed[i..][1..] == listed[i + 1..];
      if rows[a].state == Leased {
        ghost var rest := ReclaimEffects(Keep(listed[i + 1..], LeasedIn(rows)));
        assert ([Reclaim(a)] + rest)[1..] == rest;
        var _ := store.ReclaimLease(a, OWNER, now);
      }
    }
  }

  function LeasedIn(rows: map<Str, AttemptRow>): set<Str> {
    set a | a in rows && rows[a].state.Leased?
  }

  method CompleteAuthorized(store: OrchestrationStore, queue: JobQueue, authorized: seq<Str>, ghost now: int)
    requires NoDuplicates(authorized) && forall a :: a in authorized ==> a in store.authorizations
    modifies store, queue
    ensures SystemOf(store, queue)
         == Play(old(SystemOf(store, queue)), CompletionEffects(old(SystemOf(store, queue)), authorized, now), now)
  {
    var snapshot := store.authorizations;
    ghost var start := SystemOf(store, queue);
    for i := 0 to |authorized|
      invariant forall m :: i <= m < |authorized| ==>
        authorized[m] in store.authorizations && authorized[m] in snapshot
        && store.authorizations[authorized[m]] == snapshot[authorized[m]]
      invariant Play(SystemOf(store, queue), CompletionEffects(SystemOf(store, queue), authorized[i..], now), now)
             == Play(start, CompletionEffects(start, authorized, now), now)
    {
      var a := authorized[i];
      ghost var before := SystemOf(store, queue);
      ghost var first := CompletionOf(before.db, a);
      assert authorized[i..][0] == a && authorized[i..][1..] == authorized[i + 1..];
      PlayConcat(before, first, CompletionEffects(Play(before, first, now), authorized[i + 1..], now), now);
      var key := snapshot[a].node;
      if key in store.nodes && store.nodes[key].state != Passed && store.nodes[key].state != Failed {
        CompleteOneCases(before.db, a);
        CompletionPlays(before, a, now);
        var completed := store.CompleteAuthorizedResult(key, a);
        if !completed.Error? {
          queue.RemoveJob(DeriveJobId(a));
        }
      }
    }
  }

  lemma CompletionPlays(sys: System, a: Str, now: int)
    requires Pursued(sys.db, a)
    ensures var key := sys.db.results.authorizations[a].node;
      var step := CompleteAuthorizedResult(sys.db, key, a);
      Play(sys, CompletionOf(sys.db, a), now)
      == System(step.db, if step.reply.Error? then sys.queue else sys.queue - {DeriveJobId(a)})
  {
    var effects := CompletionOf(sys.db, a);
    var sys1 := PlayOne(sys, effects[0], now);
    if |effects| == 1 {
      assert effects[1..] == [];
    } else {
      assert effects[1..] == [effects[1]];
      assert Play(sys1, [effects[1]], now) == Play(PlayOne(sys1, effects[1], now), [], now);
    }
  }

  /** One uninterrupted run; `order` is the order in which the list queries return rows. */
  method Reconcile(store: OrchestrationStore, queue: JobQueue, order: seq<Str>, now: int)
    requires NoDuplicates(order)
    modifies store, queue
    ensures SystemOf(store, queue) == Reconciled(old(SystemOf(store, queue)), order, now)
  {
    ghost var sys := SystemOf(store, queue);
    var created := Keep(order, CreatedAttempts(store.View()));
    EnsureJobs(store, queue, created, now);

    ghost var sys1 := SystemOf(store, queue);
    var rows := store.attempts;
    var needing := CreatedAttempts(store.View()) + ExpiredAttempts(store.View(), now);
    var listed := Keep(order, needing);
    ReclaimExpired(store, listed, rows, now, queue.jobs);
    ListedLeases(order, sys1.db, now);

    ghost var sys2 := SystemOf(store, queue);
    var authorized := Keep(order, store.authorizations.Keys);
    KeepNoDuplicates(order, store.authorizations.Keys);
    CompleteAuthorized(store, queue, authorized, now);

    PlayConcat(sys, FirstPass(sys, order) + SecondPass(sys1, order, now), ThirdPass(sys2, order, now), now);
    PlayConcat(sys, FirstPass(sys, order), SecondPass(sys1, order, now), now);
  }

  /** Of the attempts listed as needing reconciliation, the leased ones are the expired ones. */
  lemma {:induction false} ListedLeases(order: seq<Str>, db: Db, now: int)
    ensures Keep(Keep(order, CreatedAttempts(db) + ExpiredAttempts(db, now)), LeasedIn(db.runs.attempts))
         == Keep(order, ExpiredAttempts(db, now))
  {
    if |order| > 0 {
      ListedLeases(order[1..], db, now);
    }
  }
}
