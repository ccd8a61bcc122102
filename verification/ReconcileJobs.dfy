/**
 The queue after reconciliation: which jobs one run leaves, why reclaimed attempts need a second
 run, and exactly how a run that was cut off and repeated differs from an uninterrupted one.
 */
module ReconcileJobs {
  import opened Text
  import opened Identifiers
  import opened StoreModel
  import opened ReconcileModel

  // ---- what a list of effects does to one job

  function Touched(queued: bool, e: Effect, a: Str): bool {
    match e
    case EnsureJob(envelope) => if envelope.jobId == DeriveJobId(a) then envelope.attemptId == a else queued
    case RemoveJob(job) => job != DeriveJobId(a) && queued
    case _ => queued
  }

  function JobAfter(queued: bool, effects: seq<Effect>, a: Str): bool
    decreases |effects|
  {
    if |effects| == 0 then queued else JobAfter(Touched(queued, effects[0], a), effects[1..], a)
  }

  lemma {:induction false} PlayJob(sys: System, effects: seq<Effect>, now: int, a: Str)
    ensures JobQueued(Play(sys, effects, now), a) == JobAfter(JobQueued(sys, a), effects, a)
    decreases |effects|
  {
    if |effects| > 0 {
      PlayJob(PlayOne(sys, effects[0], now), effects[1..], now, a);
    }
  }

  lemma {:induction false} JobAfterConcat(queued: bool, x: seq<Effect>, y: seq<Effect>, a: Str)
    ensures JobAfter(queued, x + y, a) == JobAfter(JobAfter(queued, x, a), y, a)
    decreases |x|
  {
    if |x| == 0 {
      assert x + y == y;
    } else {
      assert (x + y)[0] == x[0] && (x + y)[1..] == x[1..] + y;
      JobAfterConcat(Touched(queued, x[0], a), x[1..], y, a);
    }
  }

  predicate EnsuresJobOf(e: Effect, a: Str) {
    e.EnsureJob? && e.envelope.jobId == DeriveJobId(a)
  }

  ghost predicate Ensures(effects: seq<Effect>, a: Str) {
    exists i :: 0 <= i < |effects| && EnsuresJobOf(effects[i], a)
  }

  predicate Removes(effects: seq<Effect>, a: Str) {
    RemoveJob(DeriveJobId(a)) in effects
  }

  /** Only jobs are ensured, each under the id derived from its attempt; nothing is removed. */
  ghost predicate OnlyEnsures(effects: seq<Effect>) {
    forall i :: 0 <= i < |effects| ==>
      && !effects[i].RemoveJob?
      && (effects[i].EnsureJob? ==> effects[i].envelope.jobId == DeriveJobId(effects[i].envelope.attemptId))
  }

  ghost predicate EnsuresNothing(effects: seq<Effect>) {
    forall i :: 0 <= i < |effects| ==> !effects[i].EnsureJob?
  }

  lemma {:induction false} JobAfterEnsures(queued: bool, effects: seq<Effect>, a: Str)
    requires OnlyEnsures(effects)
    ensures JobAfter(queued, effects, a) <==> queued || Ensures(effects, a)
    decreases |effects|
  {
    if |effects| > 0 {
      var e, rest := effects[0], effects[1..];
      assert forall i :: 0 <= i < |rest| ==> rest[i] == effects[i + 1];
      if EnsuresJobOf(e, a) {
        DeriveJobIdInjective(e.envelope.attemptId, a);
      }
      JobAfterEnsures(Touched(queued, e, a), rest, a);
      EnsuresRest(effects, a);
    }
  }

  lemma EnsuresRest(effects: seq<Effect>, a: Str)
    requires |effects| > 0
    ensures Ensures(effects, a) <==> EnsuresJobOf(effects[0], a) || Ensures(effects[1..], a)
  {
    var rest := effects[1..];
    assert forall i :: 0 <= i < |rest| ==> rest[i] == effects[i + 1];
    if Ensures(effects, a) && !EnsuresJobOf(effects[0], a) {
      var i :| 0 <= i < |effects| && EnsuresJobOf(effects[i], a);
      assert EnsuresJobOf(rest[i - 1], a);
    }
    if Ensures(rest, a) {
      var i :| 0 <= i < |rest| && EnsuresJobOf(rest[i], a);
      assert EnsuresJobOf(effects[i + 1], a);
    }
  }

  lemma {:induction false} JobAfterRemoves(queued: bool, effects: seq<Effect>, a: Str)
    requires EnsuresNothing(effects)
    ensures JobAfter(queued, effects, a) <==> queued && !Removes(effects, a)
    decreases |effects|
  {
    if |effects| > 0 {
      var rest := effects[1..];
      assert forall i :: 0 <= i < |rest| ==> rest[i] == effects[i + 1];
      JobAfterRemoves(Touched(queued, effects[0], a), rest, a);
    }
  }

  // ---- the three passes

  lemma {:induction false} FirstPassEnsures(db: Db, ids: seq<Str>, a: Str)
    requires DerivedIds(db) && forall b :: b in ids ==> b in db.runs.attempts
    ensures OnlyEnsures(JobEffects(db, ids)) && (Ensures(JobEffects(db, ids), a) <==> a in ids)
    decreases |ids|
  {
    if |ids| > 0 {
      var b := ids[0];
      var envelope := Envelope(db.runs.attempts[b]);
      var rest := JobEffects(db, ids[1..]);
      var effects := JobEffects(db, ids);
      FirstPassEnsures(db, ids[1..], a);
      assert effects == [EnsureJob(envelope), SetJob(b, envelope.jobId)] + rest;
      assert effects[1..] == [SetJob(b, envelope.jobId)] + rest && effects[1..][1..] == rest;
      assert forall i :: 2 <= i < |effects| ==> effects[i] == rest[i - 2];
      EnsuresRest(effects, a);
      EnsuresRest(effects[1..], a);
      if envelope.jobId == DeriveJobId(a) {
        DeriveJobIdInjective(b, a);
      }
    }
  }

  lemma {:induction false} OnlyReclaims(ids: seq<Str>)
    ensures forall e :: e in ReclaimEffects(ids) ==> e.Reclaim?
  {
    if |ids| > 0 {
      OnlyReclaims(ids[1..]);
    }
  }

  /** The authorization of the attempt was used up on the way. */
  predicate Consumed(db: Db, db': Db, a: Str) {
    a in db.results.authorizations && a !in db'.results.authorizations
  }

  lemma CompletionOfRemoves(sys: System, b: Str, now: int, a: Str)
    ensures EnsuresNothing(CompletionOf(sys.db, b))
    ensures Removes(CompletionOf(sys.db, b), a) <==> a == b && Consumed(sys.db, CompleteOne(sys.db, b), a)
  {
    if DeriveJobId(a) == DeriveJobId(b) {
      DeriveJobIdInjective(a, b);
    }
  }

  /** The third pass removes exactly the jobs of the attempts whose authorizations it uses up. */
  lemma {:induction false} CompletionsRemove(sys: System, ids: seq<Str>, now: int, a: Str)
    ensures EnsuresNothing(CompletionEffects(sys, ids, now))
    ensures Removes(CompletionEffects(sys, ids, now), a) <==> Consumed(sys.db, CompleteAll(sys.db, ids), a)
    decreases |ids|
  {
    if |ids| > 0 {
      var b := ids[0];
      var first := CompletionOf(sys.db, b);
      var sys1 := Play(sys, first, now);
      PlayCompletionOf(sys, b, now);
      CompletionOfRemoves(sys, b, now, a);
      CompletionsRemove(sys1, ids[1..], now, a);
      CompleteOneCases(sys.db, b);
      AuthorizationsAfter(sys1.db, ids[1..]);
    }
  }

  lemma SlicesEnsureNothing(effects: seq<Effect>, k: nat)
    requires EnsuresNothing(effects) && k <= |effects|
    ensures EnsuresNothing(effects[..k])
  {
  }

  // ---- a whole run

  /** The effects after the first pass. */
  function LaterEffects(sys: System, order: seq<Str>, now: int): seq<Effect> {
    var sys1 := Play(sys, FirstPass(sys, order), now);
    var sys2 := Play(sys1, SecondPass(sys1, order, now), now);
    SecondPass(sys1, order, now) + ThirdPass(sys2, order, now)
  }

  lemma EffectsSplit(sys: System, order: seq<Str>, now: int)
    ensures Effects(sys, order, now) == FirstPass(sys, order) + LaterEffects(sys, order, now)
  {
  }

  lemma AllEnsureNothing(x: seq<Effect>, y: seq<Effect>)
    requires EnsuresNothing(x) && EnsuresNothing(y)
    ensures EnsuresNothing(x + y)
  {
  }

  lemma LaterRemove(sys: System, order: seq<Str>, now: int, a: Str)
    requires DerivedIds(sys.db) && Lists(order, sys.db)
    ensures EnsuresNothing(LaterEffects(sys, order, now))
    ensures Removes(LaterEffects(sys, order, now), a) <==> Consumed(sys.db, Reconciled(sys, order, now).db, a)
  {
    var first := FirstPass(sys, order);
    var sys1 := Play(sys, first, now);
    WholeSeq(first);
    FirstPassKeepsDb(sys, order, now, |first|);
    var second := SecondPass(sys1, order, now);
    WholeSeq(second);
    var s := SecondPassDrops(sys1, order, now, |second|);
    var sys2 := Play(sys1, second, now);
    var ids := Keep(order, sys2.db.results.authorizations.Keys);
    OnlyReclaims(Keep(order, ExpiredAttempts(sys1.db, now)));
    assert forall i :: 0 <= i < |second| ==> second[i] in second;
    CompletionsRemove(sys2, ids, now, a);
    AllEnsureNothing(second, ThirdPass(sys2, order, now));
    ReconciledDb(sys, order, now);
    assert Removes(LaterEffects(sys, order, now), a) <==> Removes(ThirdPass(sys2, order, now), a);
    assert Reconciled(sys, order, now).db == CompleteAll(sys2.db, ids);
  }

  /** The job was there, or the first pass ensures it. */
  ghost predicate Expected(sys: System, a: Str) {
    JobQueued(sys, a) || (a in sys.db.runs.attempts && sys.db.runs.attempts[a].state.Created?)
  }

  lemma CreatedEnsured(sys: System, order: seq<Str>, a: Str)
    requires DerivedIds(sys.db) && Lists(order, sys.db)
    ensures OnlyEnsures(FirstPass(sys, order))
    ensures Ensures(FirstPass(sys, order), a) <==> a in sys.db.runs.attempts && sys.db.runs.attempts[a].state.Created?
  {
    FirstPassEnsures(sys.db, Keep(order, CreatedAttempts(sys.db)), a);
  }

  /**
   Exactly which jobs are queued after one run: those that were there or whose attempt was
   created before it, without those of the attempts it completes. An attempt whose expired lease
   the run reclaims becomes created after its job could have been ensured; that takes a second
   run.
   */
  lemma JobAfterOneRun(sys: System, order: seq<Str>, now: int, a: Str)
    requires DerivedIds(sys.db) && Lists(order, sys.db)
    ensures JobQueued(Reconciled(sys, order, now), a) <==>
      Expected(sys, a) && !Consumed(sys.db, Reconciled(sys, order, now).db, a)
  {
    var first, later := FirstPass(sys, order), LaterEffects(sys, order, now);
    EffectsSplit(sys, order, now);
    PlayJob(sys, Effects(sys, order, now), now, a);
    JobAfterConcat(JobQueued(sys, a), first, later, a);
    CreatedEnsured(sys, order, a);
    JobAfterEnsures(JobQueued(sys, a), first, a);
    LaterRemove(sys, order, now, a);
    JobAfterRemoves(JobQueued(sys, a) || Ensures(first, a), later, a);
  }

  // ---- a run that is cut off

  function Cut(sys: System, order: seq<Str>, now: int, k: nat): System
    requires k <= |Effects(sys, order, now)|
  {
    Play(sys, Effects(sys, order, now)[..k], now)
  }

  lemma JobAtCut(sys: System, order: seq<Str>, now: int, k: nat, a: Str)
    requires DerivedIds(sys.db) && Lists(order, sys.db) && k <= |Effects(sys, order, now)|
    ensures JobQueued(Cut(sys, order, now, k), a) <==>
      (JobQueued(sys, a)
        || Ensures(FirstPass(sys, order)[..if k <= |FirstPass(sys, order)| then k else |FirstPass(sys, order)|], a))
      && !Removes(Effects(sys, order, now)[..k], a)
  {
    var first, later := FirstPass(sys, order), LaterEffects(sys, order, now);
    EffectsSplit(sys, order, now);
    TakeConcat(first, later, k);
    CreatedEnsured(sys, order, a);
    LaterRemove(sys, order, now, a);
    PlayJob(sys, Effects(sys, order, now)[..k], now, a);
    if k <= |first| {
      JobAfterEnsures(JobQueued(sys, a), first[..k], a);
      assert forall e :: e in first[..k] ==> !e.RemoveJob?;
    } else {
      var tail := later[..k - |first|];
      WholeSeq(first);
      JobAfterConcat(JobQueued(sys, a), first, tail, a);
      JobAfterEnsures(JobQueued(sys, a), first, a);
      SlicesEnsureNothing(later, k - |first|);
      JobAfterRemoves(JobQueued(sys, a) || Ensures(first, a), tail, a);
      assert forall e :: e in first ==> !e.RemoveJob?;
    }
  }

  /** A prefix of the run has dropped some expired leases and then pursued some authorizations. */
  ghost predicate Prefix(db: Db, order: seq<Str>, now: int, cut: Db, s: set<Str>, i: nat) {
    var ids := Keep(order, db.results.authorizations.Keys);
    && s <= ExpiredAttempts(db, now) && i <= |ids| && cut == CompleteAll(Dropped(db, s), ids[..i])
  }

  lemma CutIsPrefix(sys: System, order: seq<Str>, now: int, k: nat) returns (s: set<Str>, i: nat)
    requires DerivedIds(sys.db) && Lists(order, sys.db) && k <= |Effects(sys, order, now)|
    ensures Prefix(sys.db, order, now, Cut(sys, order, now, k).db, s, i)
    ensures k <= |FirstPass(sys, order)| ==> Cut(sys, order, now, k).db == sys.db
  {
    var first := FirstPass(sys, order);
    var sys1 := Play(sys, first, now);
    WholeSeq(first);
    FirstPassKeepsDb(sys, order, now, |first|);
    var second := SecondPass(sys1, order, now);
    var sys2 := Play(sys1, second, now);
    var third := ThirdPass(sys2, order, now);
    TakeConcat(first + second, third, k);
    s, i := {}, 0;
    if k <= |first + second| {
      TakeConcat(first, second, k);
      if k <= |first| {
        FirstPassKeepsDb(sys, order, now, k);
        DroppedNone(sys.db);
      } else {
        s := SecondPassDrops(sys1, order, now, k - |first|);
        PlayConcat(sys, first, second[..k - |first|], now);
      }
      assert Keep(order, sys.db.results.authorizations.Keys)[..0] == [];
    } else {
      WholeSeq(second);
      s := SecondPassDrops(sys1, order, now, |second|);
      var m := k - |first + second|;
      PlayConcat(sys, first, second, now);
      PlayConcat(sys, first + second, third[..m], now);
      i := CompletionPrefix(sys2, Keep(order, sys2.db.results.authorizations.Keys), now, m);
    }
  }

  /** Pursuing authorizations completes exactly the attempts whose authorizations it uses up. */
  lemma {:induction false} CompletedIfConsumed(db: Db, ids: seq<Str>, a: Str)
    requires a in db.runs.attempts
    ensures var db' := CompleteAll(db, ids);
      a in db'.runs.attempts && if Consumed(db, db', a) then db'.runs.attempts[a].state.Completed?
                                else db'.runs.attempts[a] == db.runs.attempts[a]
    decreases |ids|
  {
    if |ids| > 0 {
      var db1 := CompleteOne(db, ids[0]);
      CompleteOneCases(db, ids[0]);
      CompleteOneAttempts(db, ids[0], a);
      CompletedIfConsumed(db1, ids[1..], a);
      AuthorizationsAfter(db1, ids[1..]);
      CompletesOnly(db1, ids[1..]);
    }
  }

  lemma CompleteOneAttempts(db: Db, b: Str, a: Str)
    requires a in db.runs.attempts
    ensures var db' := CompleteOne(db, b);
      a in db'.runs.attempts && if Consumed(db, db', a) then db'.runs.attempts[a].state.Completed?
                                else db'.runs.attempts[a] == db.runs.attempts[a]
  {
  }

  /** How an attempt stands when the run is cut off. */
  lemma StateAtCut(db: Db, order: seq<Str>, now: int, cut: Db, s: set<Str>, i: nat, a: Str)
    requires Prefix(db, order, now, cut, s, i) && a in db.runs.attempts
    ensures a in cut.runs.attempts && cut.results.authorizations.Keys <= db.results.authorizations.Keys
    ensures Consumed(db, cut, a) ==> cut.runs.attempts[a].state.Completed?
    ensures !Consumed(db, cut, a) && db.runs.attempts[a].state.Created? ==> cut.runs.attempts[a].state.Created?
  {
    var ids := Keep(order, db.results.authorizations.Keys);
    CompletedIfConsumed(Dropped(db, s), ids[..i], a);
    AuthorizationsAfter(Dropped(db, s), ids[..i]);
  }

  /**
   Exactly how the queue differs when a run is cut off and then run again in full. The job of
   an attempt that the run completes stays behind only if the cut fell between the completion
   and the removal of the job; the job of an attempt that was reclaimed before the cut is there
   a run early. All other jobs are as after the uninterrupted run.
   */
  lemma QueueAfterCutOff(sys: System, order: seq<Str>, now: int, k: nat, a: Str)
    requires DerivedIds(sys.db) && Lists(order, sys.db) && k <= |Effects(sys, order, now)| && a in sys.db.runs.attempts
    ensures var cut := Cut(sys, order, now, k);
      var full, again := Reconciled(sys, order, now), Reconciled(cut, order, now);
      JobQueued(again, a) <==>
      if Consumed(sys.db, full.db, a)
      then Consumed(sys.db, cut.db, a) && !Removes(Effects(sys, order, now)[..k], a) && Expected(sys, a)
      else JobQueued(full, a) || (a in cut.db.runs.attempts && cut.db.runs.attempts[a].state.Created?)
  {
    var cut := Cut(sys, order, now, k);
    CutOffDb(sys, order, now, k);
    CutOffRunConverges(sys, order, now, k);
    var s, i := CutIsPrefix(sys, order, now, k);
    StateAtCut(sys.db, order, now, cut.db, s, i, a);
    AuthorizationsShrink(cut, order, now);
    JobAfterOneRun(sys, order, now, a);
    JobAfterOneRun(cut, order, now, a);
    JobAtCut(sys, order, now, k, a);
    EnsuredAtCut(sys, order, now, k, a);
    RemovedAtCut(sys, order, now, k, a);
  }

  lemma AuthorizationsShrink(sys: System, order: seq<Str>, now: int)
    requires DerivedIds(sys.db) && Lists(order, sys.db)
    ensures Reconciled(sys, order, now).db.results.authorizations.Keys <= sys.db.results.authorizations.Keys
  {
    ReconciledDb(sys, order, now);
    AuthorizationsAfter(Dropped(sys.db, ExpiredAttempts(sys.db, now)), Keep(order, sys.db.results.authorizations.Keys));
  }

  /** What the cut-off first pass ensured is created; past the first pass everything created is ensured. */
  lemma EnsuredAtCut(sys: System, order: seq<Str>, now: int, k: nat, a: Str)
    requires DerivedIds(sys.db) && Lists(order, sys.db) && a in sys.db.runs.attempts
    ensures var first := FirstPass(sys, order);
      var ensured := Ensures(first[..if k <= |first| then k else |first|], a);
      && (ensured ==> sys.db.runs.attempts[a].state.Created?)
      && (k > |first| ==> (ensured <==> sys.db.runs.attempts[a].state.Created?))
  {
    var first := FirstPass(sys, order);
    CreatedEnsured(sys, order, a);
    WholeSeq(first);
    var m := if k <= |first| then k else |first|;
    if Ensures(first[..m], a) {
      var j :| 0 <= j < m && EnsuresJobOf(first[..m][j], a);
      assert EnsuresJobOf(first[j], a);
    }
  }

  /** A job that the run does not remove is not removed before the cut either. */
  lemma RemovedAtCut(sys: System, order: seq<Str>, now: int, k: nat, a: Str)
    requires DerivedIds(sys.db) && Lists(order, sys.db) && k <= |Effects(sys, order, now)|
    ensures Removes(Effects(sys, order, now)[..k], a) ==> Consumed(sys.db, Reconciled(sys, order, now).db, a)
  {
    CreatedEnsured(sys, order, a);
    LaterRemove(sys, order, now, a);
    EffectsSplit(sys, order, now);
    assert forall e :: e in FirstPass(sys, order) ==> !e.RemoveJob?;
  }
}
