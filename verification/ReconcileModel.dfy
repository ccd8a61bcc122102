/**
 Startup reconciliation (src/domains/orchestration/reconciliation.ts) as the sequence of calls
 it makes, and what it leaves when it is cut off after any of them and run again.
 */
module ReconcileModel {
  import opened Text
  import opened Lifecycle
  import opened Identifiers
  import opened StoreModel

  /** The database and the queue, whose jobs are keyed by job id. */
  datatype System = System(db: Db, queue: map<Str, QueueEnvelope>)

  datatype Effect =
    | EnsureJob(envelope: QueueEnvelope)
    | SetJob(attemptId: Str, jobId: Str)
    | Reclaim(attemptId: Str)
    | Complete(key: NodeKey, attemptId: Str)
    | RemoveJob(jobId: Str)

  /** `reconciliation` */
  const OWNER: Str := [0x72, 0x65, 0x63, 0x6F, 0x6E, 0x63, 0x69, 0x6C, 0x69, 0x61, 0x74, 0x69, 0x6F, 0x6E]

  function PlayOne(sys: System, e: Effect, now: int): System {
    match e
    case EnsureJob(envelope) => sys.(queue := sys.queue[envelope.jobId := envelope])
    case SetJob(a, job) => sys.(db := SetJobId(sys.db, a, job).db)
    case Reclaim(a) => sys.(db := ReclaimLease(sys.db, a, OWNER, now).db)
    case Complete(key, a) => sys.(db := CompleteAuthorizedResult(sys.db, key, a).db)
    case RemoveJob(job) => sys.(queue := sys.queue - {job})
  }

  function Play(sys: System, effects: seq<Effect>, now: int): System
    decreases |effects|
  {
    if |effects| == 0 then sys else Play(PlayOne(sys, effects[0], now), effects[1..], now)
  }

  // ---- what the list queries return, in a fixed listing order

  function CreatedAttempts(db: Db): set<Str> {
    set a | a in db.runs.attempts && db.runs.attempts[a].state.Created?
  }

  function ExpiredAttempts(db: Db, now: int): set<Str> {
    set a | a in db.runs.attempts && db.runs.attempts[a].state.Leased? && a in db.runs.leases
            && db.runs.leases[a].expiresAt <= now
  }

  // ---- the three passes

  function Envelope(row: AttemptRow): QueueEnvelope {
    MakeQueueEnvelope(row.node.workId, row.node.nodeId, row.number)
  }

  function JobEffects(db: Db, ids: seq<Str>): seq<Effect>
    requires forall a :: a in ids ==> a in db.runs.attempts
  {
    if |ids| == 0 then []
    else
      var envelope := Envelope(db.runs.attempts[ids[0]]);
      [EnsureJob(envelope), SetJob(ids[0], envelope.jobId)] + JobEffects(db, ids[1..])
  }

  function ReclaimEffects(ids: seq<Str>): seq<Effect> {
    if |ids| == 0 then [] else [Reclaim(ids[0])] + ReclaimEffects(ids[1..])
  }

  /** The node of an authorization is there and has not ended. */
  predicate Pursued(db: Db, a: Str) {
    && a in db.results.authorizations
    && db.results.authorizations[a].node in db.plan.nodes
    && !Terminal(db.plan.nodes[db.results.authorizations[a].node].state)
  }

  function CompletionOf(db: Db, a: Str): seq<Effect> {
    if !Pursued(db, a) then []
    else
      var key := db.results.authorizations[a].node;
      [Complete(key, a)] +
      if CompleteAuthorizedResult(db, key, a).reply.Error? then [] else [RemoveJob(DeriveJobId(a))]
  }

  function CompletionEffects(sys: System, ids: seq<Str>, now: int): seq<Effect>
    decreases |ids|
  {
    if |ids| == 0 then []
    else
      var first := CompletionOf(sys.db, ids[0]);
      first + CompletionEffects(Play(sys, first, now), ids[1..], now)
  }

  function FirstPass(sys: System, order: seq<Str>): seq<Effect> {
    JobEffects(sys.db, Keep(order, CreatedAttempts(sys.db)))
  }

  function SecondPass(sys: System, order: seq<Str>, now: int): seq<Effect> {
    ReclaimEffects(Keep(order, ExpiredAttempts(sys.db, now)))
  }

  function ThirdPass(sys: System, order: seq<Str>, now: int): seq<Effect> {
    CompletionEffects(sys, Keep(order, sys.db.results.authorizations.Keys), now)
  }

  /** Every call an uninterrupted run makes, in order. */
  function Effects(sys: System, order: seq<Str>, now: int): seq<Effect> {
    var first := FirstPass(sys, order);
    var sys1 := Play(sys, first, now);
    var second := SecondPass(sys1, order, now);
    var sys2 := Play(sys1, second, now);
    first + second + ThirdPass(sys2, order, now)
  }

  function Reconciled(sys: System, order: seq<Str>, now: int): System {
    Play(sys, Effects(sys, order, now), now)
  }

  // ---- assumptions of the convergence theorems

  /** Attempts were created with derived ids, as every dispatcher creates them. */
  ghost predicate DerivedIds(db: Db) {
    forall a :: a in db.runs.attempts ==>
      && a == DeriveAttemptId(db.runs.attempts[a].node.workId, db.runs.attempts[a].node.nodeId,
        db.runs.attempts[a].number)
      && db.runs.attempts[a].jobId == DeriveJobId(a)
  }

  ghost predicate Lists(order: seq<Str>, db: Db) {
    && NoDuplicates(order)
    && (forall a :: a in db.runs.attempts ==> a in order)
    && (forall a :: a in db.results.authorizations ==> a in order)
  }

  // ---- playing

  lemma {:induction false} PlayConcat(sys: System, a: seq<Effect>, b: seq<Effect>, now: int)
    ensures Play(sys, a + b, now) == Play(Play(sys, a, now), b, now)
    decreases |a|
  {
    if |a| == 0 {
      assert a + b == b;
    } else {
      assert (a + b)[1..] == a[1..] + b;
      PlayConcat(PlayOne(sys, a[0], now), a[1..], b, now);
    }
  }

  lemma {:induction false} TakeConcat(a: seq<Effect>, b: seq<Effect>, k: nat)
    requires k <= |a| + |b|
    ensures (a + b)[..k] == if k <= |a| then a[..k] else a + b[..k - |a|]
  {
  }

  // ---- first pass: the database does not change

  ghost predicate Neutral(db: Db, e: Effect) {
    e.EnsureJob? || e.RemoveJob? || (e.SetJob? && SetJobId(db, e.attemptId, e.jobId).db == db)
  }

  lemma {:induction false} PlayNeutral(sys: System, effects: seq<Effect>, now: int)
    requires forall i :: 0 <= i < |effects| ==> Neutral(sys.db, effects[i])
    ensures Play(sys, effects, now).db == sys.db
    decreases |effects|
  {
    if |effects| > 0 {
      assert Neutral(sys.db, effects[0]);
      PlayNeutral(PlayOne(sys, effects[0], now), effects[1..], now);
    }
  }

  lemma {:induction false} JobEffectsNeutral(db: Db, ids: seq<Str>)
    requires DerivedIds(db) && forall a :: a in ids ==> a in db.runs.attempts
    ensures forall i :: 0 <= i < |JobEffects(db, ids)| ==> Neutral(db, JobEffects(db, ids)[i])
  {
    if |ids| > 0 {
      JobEffectsNeutral(db, ids[1..]);
      var a := ids[0];
      var envelope := Envelope(db.runs.attempts[a]);
      assert envelope.jobId == db.runs.attempts[a].jobId;
      assert SetJobId(db, a, envelope.jobId).db.runs.attempts == db.runs.attempts;
      var rest := JobEffects(db, ids[1..]);
      assert JobEffects(db, ids) == [EnsureJob(envelope), SetJob(a, envelope.jobId)] + rest;
      assert forall i :: 2 <= i < |JobEffects(db, ids)| ==> JobEffects(db, ids)[i] == rest[i - 2];
    }
  }

  // ---- second pass: a set of attempts is reclaimed

  /** The database with the leases of `s` dropped. */
  function Dropped(db: Db, s: set<Str>): Db {
    db.(runs := db.runs.(
      leases := db.runs.leases - s,
      attempts := map a | a in db.runs.attempts ::
        if a in s then db.runs.attempts[a].(state := Created) else db.runs.attempts[a]))
  }

  lemma DroppedNone(db: Db)
    ensures Dropped(db, {}) == db
  {
    assert Dropped(db, {}).runs.attempts == db.runs.attempts;
    assert db.runs.leases - {} == db.runs.leases;
  }

  lemma DroppedTwice(db: Db, s: set<Str>, t: set<Str>)
    ensures Dropped(Dropped(db, s), t) == Dropped(db, s + t)
  {
    assert Dropped(Dropped(db, s), t).runs.attempts == Dropped(db, s + t).runs.attempts;
    assert db.runs.leases - s - t == db.runs.leases - (s + t);
  }

  lemma ReclaimDrops(db: Db, a: Str, now: int)
    requires a in ExpiredAttempts(db, now)
    ensures ReclaimLease(db, a, OWNER, now).db == Dropped(db, {a})
  {
    assert DropLease(db, a).runs.attempts == Dropped(db, {a}).runs.attempts;
  }

  lemma ExpiredAfterDrop(db: Db, s: set<Str>, now: int)
    ensures ExpiredAttempts(Dropped(db, s), now) == ExpiredAttempts(db, now) - s
  {
  }

  lemma {:induction false} PlayReclaims(sys: System, ids: seq<Str>, now: int)
    requires NoDuplicates(ids) && forall a :: a in ids ==> a in ExpiredAttempts(sys.db, now)
    ensures Play(sys, ReclaimEffects(ids), now) == sys.(db := Dropped(sys.db, ToSet(ids)))
    decreases |ids|
  {
    if |ids| == 0 {
      assert ToSet(ids) == {};
      DroppedNone(sys.db);
    } else {
      var a := ids[0];
      ReclaimDrops(sys.db, a, now);
      ExpiredAfterDrop(sys.db, {a}, now);
      var sys1 := PlayOne(sys, Reclaim(a), now);
      var rest := ReclaimEffects(ids[1..]);
      assert ([Reclaim(a)] + rest)[1..] == rest;
      forall b | b in ids[1..]
        ensures b in ExpiredAttempts(sys1.db, now)
      {
        var i :| 0 <= i < |ids[1..]| && ids[1..][i] == b;
        assert ids[i + 1] != ids[0];
      }
      PlayReclaims(sys1, ids[1..], now);
      DroppedTwice(sys.db, {a}, ToSet(ids[1..]));
      assert ToSet(ids) == {a} + ToSet(ids[1..]);
    }
  }

  lemma {:induction false} ReclaimPrefix(ids: seq<Str>, k: nat)
    requires k <= |ids|
    ensures |ReclaimEffects(ids)| == |ids| && ReclaimEffects(ids)[..k] == ReclaimEffects(ids[..k])
  {
    if k > 0 {
      ReclaimPrefix(ids[1..], k - 1);
      assert ids[..k][1..] == ids[1..][..k - 1];
    } else if |ids| > 0 {
      ReclaimPrefix(ids[1..], 0);
    }
  }

  // ---- third pass: authorized results are completed

  function CompleteOne(db: Db, a: Str): Db {
    if Pursued(db, a) then CompleteAuthorizedResult(db, db.results.authorizations[a].node, a).db else db
  }

  function CompleteAll(db: Db, ids: seq<Str>): Db
    decreases |ids|
  {
    if |ids| == 0 then db else CompleteAll(CompleteOne(db, ids[0]), ids[1..])
  }

  lemma {:induction false} CompleteAllConcat(db: Db, a: seq<Str>, b: seq<Str>)
    ensures CompleteAll(db, a + b) == CompleteAll(CompleteAll(db, a), b)
    decreases |a|
  {
    if |a| == 0 {
      assert a + b == b;
    } else {
      assert (a + b)[1..] == a[1..] + b;
      CompleteAllConcat(CompleteOne(db, a[0]), a[1..], b);
    }
  }

  /** Pursuing `a` changes nothing: it is gone, its node has ended, or the completion is refused. */
  ghost predicate Inert(db: Db, a: Str) {
    CompleteOne(db, a) == db
  }

  /** A completion either removes its authorization and ends the node, or changes nothing. */
  lemma CompleteOneCases(db: Db, a: Str)
    ensures var db' := CompleteOne(db, a);
      db' != db ==>
      && Pursued(db, a)
      && db'.results.authorizations == db.results.authorizations - {a}
      && db'.results.accepted == db.results.accepted
      && var key := db.results.authorizations[a].node;
         key in db'.plan.nodes && Terminal(db'.plan.nodes[key].state)
         && (forall k :: k in db'.plan.nodes <==> k in db.plan.nodes)
         && (forall k :: k in db.plan.nodes && k != key ==> db'.plan.nodes[k] == db.plan.nodes[k])
  {
  }

  /** After pursuing `a` once there is nothing left to pursue. */
  lemma PursuedOnce(db: Db, a: Str)
    ensures Inert(CompleteOne(db, a), a)
  {
    CompleteOneCases(db, a);
  }

  lemma InertStays(db: Db, a: Str, b: Str)
    requires Inert(db, a)
    ensures Inert(CompleteOne(db, b), a)
  {
    var db' := CompleteOne(db, b);
    CompleteOneCases(db, b);
    if db' != db && a != b && Pursued(db', a) {
      var key := db.results.authorizations[a].node;
      assert Pursued(db, a);
      assert CompleteAuthorizedResult(db, key, a).db == db;
      RefusalStays(db, db', key, a);
    }
  }

  lemma RefusalStays(db: Db, db': Db, key: NodeKey, a: Str)
    requires a in db.results.authorizations && a in db'.results.authorizations
    requires db'.results.authorizations[a] == db.results.authorizations[a]
    requires key in db.plan.nodes && key in db'.plan.nodes && db'.plan.nodes[key] == db.plan.nodes[key]
    requires db'.results.accepted == db.results.accepted
    requires CompleteAuthorizedResult(db, key, a).db == db
    ensures CompleteAuthorizedResult(db', key, a).db == db'
  {
  }

  lemma {:induction false} InertStaysAlong(db: Db, a: Str, ids: seq<Str>)
    requires Inert(db, a)
    ensures Inert(CompleteAll(db, ids), a)
    decreases |ids|
  {
    if |ids| > 0 {
      InertStays(db, a, ids[0]);
      InertStaysAlong(CompleteOne(db, ids[0]), a, ids[1..]);
    }
  }

  lemma {:induction false} AllInertAfter(db: Db, ids: seq<Str>, a: Str)
    requires a in ids
    ensures Inert(CompleteAll(db, ids), a)
    decreases |ids|
  {
    if a == ids[0] {
      PursuedOnce(db, a);
      InertStaysAlong(CompleteOne(db, a), a, ids[1..]);
    } else {
      AllInertAfter(CompleteOne(db, ids[0]), ids[1..], a);
    }
  }

  lemma {:induction false} InertAllUnchanged(db: Db, ids: seq<Str>)
    requires forall a :: a in ids ==> Inert(db, a)
    ensures CompleteAll(db, ids) == db
    decreases |ids|
  {
    if |ids| > 0 {
      assert Inert(db, ids[0]);
      InertAllUnchanged(db, ids[1..]);
    }
  }

  /** Which authorizations a pass leaves: some of those it pursued are gone, the others stay. */
  lemma {:induction false} AuthorizationsAfter(db: Db, ids: seq<Str>)
    ensures var left := CompleteAll(db, ids).results.authorizations.Keys;
      && left <= db.results.authorizations.Keys
      && forall a :: a in db.results.authorizations && a !in ids ==> a in left
    decreases |ids|
  {
    if |ids| > 0 {
      CompleteOneCases(db, ids[0]);
      AuthorizationsAfter(CompleteOne(db, ids[0]), ids[1..]);
    }
  }

  /** Completions leave no attempt leased that was not, and no lease changed. */
  ghost predicate OnlyCompletes(db: Db, db': Db) {
    && db'.runs.leases == db.runs.leases
    && db'.runs.attempts.Keys == db.runs.attempts.Keys
    && forall a :: a in db.runs.attempts ==>
      db'.runs.attempts[a] == db.runs.attempts[a] || db'.runs.attempts[a] == db.runs.attempts[a].(state := Completed)
  }

  lemma {:induction false} CompletesOnly(db: Db, ids: seq<Str>)
    ensures OnlyCompletes(db, CompleteAll(db, ids))
    decreases |ids|
  {
    if |ids| > 0 {
      assert OnlyCompletes(db, CompleteOne(db, ids[0]));
      CompletesOnly(CompleteOne(db, ids[0]), ids[1..]);
    }
  }

  lemma {:induction false} PlayCompletionOf(sys: System, a: Str, now: int)
    ensures Play(sys, CompletionOf(sys.db, a), now).db == CompleteOne(sys.db, a)
    ensures forall k :: 1 <= k <= |CompletionOf(sys.db, a)| ==>
      Play(sys, CompletionOf(sys.db, a)[..k], now).db == CompleteOne(sys.db, a)
  {
    var effects := CompletionOf(sys.db, a);
    if Pursued(sys.db, a) {
      var sys1 := PlayOne(sys, effects[0], now);
      assert effects[..1] == [effects[0]];
      assert Play(sys, effects[..1], now) == Play(sys1, [], now);
      if |effects| == 2 {
        assert effects[1..] == [effects[1]] && effects[..2] == effects;
        assert Play(sys1, effects[1..], now) == Play(PlayOne(sys1, effects[1], now), [], now);
      } else {
        assert effects[1..] == [];
      }
    }
  }

  /** Any prefix of the third pass leaves the database as completing a prefix of the list does. */
  lemma {:induction false} CompletionPrefix(sys: System, ids: seq<Str>, now: int, k: nat) returns (i: nat)
    requires k <= |CompletionEffects(sys, ids, now)|
    ensures i <= |ids| && Play(sys, CompletionEffects(sys, ids, now)[..k], now).db == CompleteAll(sys.db, ids[..i])
    decreases |ids|
  {
    var effects := CompletionEffects(sys, ids, now);
    if k == 0 {
      i := 0;
      assert effects[..0] == [];
    } else {
      var first := CompletionOf(sys.db, ids[0]);
      var sys1 := Play(sys, first, now);
      var rest := CompletionEffects(sys1, ids[1..], now);
      PlayCompletionOf(sys, ids[0], now);
      TakeConcat(first, rest, k);
      if k <= |first| {
        i := 1;
        assert ids[..1] == [ids[0]];
        assert CompleteAll(sys.db, [ids[0]]) == CompleteAll(CompleteOne(sys.db, ids[0]), []);
      } else {
        var j := CompletionPrefix(sys1, ids[1..], now, k - |first|);
        i := j + 1;
        PlayConcat(sys, first, rest[..k - |first|], now);
        assert ids[..i][1..] == ids[1..][..j];
      }
    }
  }

  lemma CompletionWhole(sys: System, ids: seq<Str>, now: int)
    ensures Play(sys, CompletionEffects(sys, ids, now), now).db == CompleteAll(sys.db, ids)
    decreases |ids|
  {
    if |ids| > 0 {
      var first := CompletionOf(sys.db, ids[0]);
      var sys1 := Play(sys, first, now);
      PlayCompletionOf(sys, ids[0], now);
      CompletionWhole(sys1, ids[1..], now);
      PlayConcat(sys, first, CompletionEffects(sys1, ids[1..], now), now);
    }
  }

  // ---- what a whole run does to the database

  function Settled(db: Db, order: seq<Str>, now: int): Db {
    CompleteAll(Dropped(db, ExpiredAttempts(db, now)), Keep(order, db.results.authorizations.Keys))
  }

  lemma FirstPassKeepsDb(sys: System, order: seq<Str>, now: int, k: nat)
    requires DerivedIds(sys.db) && k <= |FirstPass(sys, order)|
    ensures Play(sys, FirstPass(sys, order)[..k], now).db == sys.db
  {
    JobEffectsNeutral(sys.db, Keep(order, CreatedAttempts(sys.db)));
    PlayNeutral(sys, FirstPass(sys, order)[..k], now);
  }

  lemma SecondPassDrops(sys: System, order: seq<Str>, now: int, k: nat) returns (s: set<Str>)
    requires Lists(order, sys.db) && k <= |SecondPass(sys, order, now)|
    ensures s <= ExpiredAttempts(sys.db, now)
    ensures k == |SecondPass(sys, order, now)| ==> s == ExpiredAttempts(sys.db, now)
    ensures Play(sys, SecondPass(sys, order, now)[..k], now) == sys.(db := Dropped(sys.db, s))
  {
    var expired := ExpiredAttempts(sys.db, now);
    var ids := Keep(order, expired);
    KeepNoDuplicates(order, expired);
    ReclaimPrefix(ids, 0);
    ReclaimPrefix(ids, k);
    PlayReclaims(sys, ids[..k], now);
    s := ToSet(ids[..k]);
    if k == |ids| {
      WholeSeq(ids);
    }
  }

  lemma ReconciledDb(sys: System, order: seq<Str>, now: int)
    requires DerivedIds(sys.db) && Lists(order, sys.db)
    ensures Reconciled(sys, order, now).db == Settled(sys.db, order, now)
  {
    var first := FirstPass(sys, order);
    var sys1 := Play(sys, first, now);
    WholeSeq(first);
    FirstPassKeepsDb(sys, order, now, |first|);
    var second := SecondPass(sys1, order, now);
    WholeSeq(second);
    var s := SecondPassDrops(sys1, order, now, |second|);
    var sys2 := Play(sys1, second, now);
    var third := ThirdPass(sys2, order, now);
    CompletionWhole(sys2, Keep(order, sys2.db.results.authorizations.Keys), now);
    PlayConcat(sys, first + second, third, now);
    PlayConcat(sys, first, second, now);
  }

  lemma DroppedKeepsIds(db: Db, order: seq<Str>, s: set<Str>)
    requires DerivedIds(db) && Lists(order, db)
    ensures DerivedIds(Dropped(db, s)) && Lists(order, Dropped(db, s))
  {
  }

  lemma CompletedKeepsIds(db: Db, order: seq<Str>, ids: seq<Str>)
    requires DerivedIds(db) && Lists(order, db)
    ensures DerivedIds(CompleteAll(db, ids)) && Lists(order, CompleteAll(db, ids))
  {
    CompletesOnly(db, ids);
    AuthorizationsAfter(db, ids);
  }

  /** Reclaiming some of the expired leases first makes no difference. */
  lemma SettledAfterDrop(db: Db, order: seq<Str>, now: int, s: set<Str>)
    requires s <= ExpiredAttempts(db, now)
    ensures Settled(Dropped(db, s), order, now) == Settled(db, order, now)
  {
    ExpiredAfterDrop(db, s, now);
    DroppedTwice(db, s, ExpiredAttempts(db, now) - s);
    assert s + (ExpiredAttempts(db, now) - s) == ExpiredAttempts(db, now);
  }

  lemma NothingExpires(db: Db, ids: seq<Str>, now: int)
    requires ExpiredAttempts(db, now) == {}
    ensures ExpiredAttempts(CompleteAll(db, ids), now) == {}
  {
    CompletesOnly(db, ids);
    var db' := CompleteAll(db, ids);
    forall a | a in ExpiredAttempts(db', now)
      ensures a in ExpiredAttempts(db, now)
    {
    }
  }

  /** The list of a later run: what is left of the part already handled, then the rest unchanged. */
  lemma RemainingList(order: seq<Str>, keys: set<Str>, left: set<Str>, i: nat)
    requires NoDuplicates(order) && left <= keys && i <= |Keep(order, keys)|
    requires forall a :: a in keys && a !in Keep(order, keys)[..i] ==> a in left
    ensures Keep(order, left) == Keep(Keep(order, keys)[..i], left) + Keep(order, keys)[i..]
  {
    var ids := Keep(order, keys);
    var done, rest := ids[..i], ids[i..];
    KeepNoDuplicates(order, keys);
    KeepTwice(order, keys, left);
    assert ids == done + rest;
    KeepConcat(done, rest, left);
    forall a | a in rest
      ensures a in left
    {
      var j :| 0 <= j < |rest| && rest[j] == a;
      assert ids[i + j] == a;
      assert forall m :: 0 <= m < i ==> done[m] == ids[m] != a;
      assert a in keys;
    }
    KeepAll(rest, left);
  }

  /** Having completed a prefix of the list first makes no difference. */
  lemma SettledAfterPrefix(db: Db, order: seq<Str>, now: int, i: nat)
    requires NoDuplicates(order) && ExpiredAttempts(db, now) == {}
    requires i <= |Keep(order, db.results.authorizations.Keys)|
    ensures var ids := Keep(order, db.results.authorizations.Keys);
      Settled(CompleteAll(db, ids[..i]), order, now) == CompleteAll(db, ids)
  {
    var ids := Keep(order, db.results.authorizations.Keys);
    var done, rest := ids[..i], ids[i..];
    var db' := CompleteAll(db, done);
    var left := db'.results.authorizations.Keys;
    NothingExpires(db, done, now);
    DroppedNone(db');
    AuthorizationsAfter(db, done);
    RemainingList(order, db.results.authorizations.Keys, left, i);
    forall a | a in Keep(done, left)
      ensures Inert(db', a)
    {
      AllInertAfter(db, done, a);
    }
    InertAllUnchanged(db', Keep(done, left));
    CompleteAllConcat(db', Keep(done, left), rest);
    assert ids == done + rest;
    CompleteAllConcat(db, done, rest);
  }

  // ---- the theorems

  /**
   However a run is cut off, running reconciliation again in full with the same clock reaches
   the database that one uninterrupted run reaches.
   */
  lemma CutOffRunConverges(sys: System, order: seq<Str>, now: int, k: nat)
    requires DerivedIds(sys.db) && Lists(order, sys.db) && k <= |Effects(sys, order, now)|
    ensures var cut := Play(sys, Effects(sys, order, now)[..k], now);
      Reconciled(cut, order, now).db == Reconciled(sys, order, now).db
  {
    var cut := Play(sys, Effects(sys, order, now)[..k], now);
    ReconciledDb(sys, order, now);
    CutOffDb(sys, order, now, k);
    ReconciledDb(cut, order, now);
  }

  lemma CutOffDb(sys: System, order: seq<Str>, now: int, k: nat)
    requires DerivedIds(sys.db) && Lists(order, sys.db) && k <= |Effects(sys, order, now)|
    ensures var cut := Play(sys, Effects(sys, order, now)[..k], now);
      DerivedIds(cut.db) && Lists(order, cut.db) && Settled(cut.db, order, now) == Settled(sys.db, order, now)
  {
    var first := FirstPass(sys, order);
    var sys1 := Play(sys, first, now);
    WholeSeq(first);
    FirstPassKeepsDb(sys, order, now, |first|);
    var second := SecondPass(sys1, order, now);
    var sys2 := Play(sys1, second, now);
    var third := ThirdPass(sys2, order, now);
    TakeConcat(first + second, third, k);
    if k <= |first + second| {
      TakeConcat(first, second, k);
      if k <= |first| {
        FirstPassKeepsDb(sys, order, now, k);
      } else {
        var s := SecondPassDrops(sys1, order, now, k - |first|);
        PlayConcat(sys, first, second[..k - |first|], now);
        DroppedKeepsIds(sys.db, order, s);
        SettledAfterDrop(sys.db, order, now, s);
      }
    } else {
      WholeSeq(second);
      var s := SecondPassDrops(sys1, order, now, |second|);
      var m := k - |first + second|;
      PlayConcat(sys, first, second, now);
      PlayConcat(sys, first + second, third[..m], now);
      CutOffInThirdPass(sys.db, sys2, order, now, m);
    }
  }

  lemma CutOffInThirdPass(db: Db, sys2: System, order: seq<Str>, now: int, m: nat)
    requires DerivedIds(db) && Lists(order, db) && sys2.db == Dropped(db, ExpiredAttempts(db, now))
    requires m <= |ThirdPass(sys2, order, now)|
    ensures var cut := Play(sys2, ThirdPass(sys2, order, now)[..m], now);
      DerivedIds(cut.db) && Lists(order, cut.db) && Settled(cut.db, order, now) == Settled(db, order, now)
  {
    var ids := Keep(order, sys2.db.results.authorizations.Keys);
    var i := CompletionPrefix(sys2, ids, now, m);
    DroppedKeepsIds(db, order, ExpiredAttempts(db, now));
    CompletedKeepsIds(sys2.db, order, ids[..i]);
    ExpiredAfterDrop(db, ExpiredAttempts(db, now), now);
    SettledAfterPrefix(sys2.db, order, now, i);
  }

  /** A second run with the same clock leaves the database unchanged. */
  lemma SecondRunChangesNothing(sys: System, order: seq<Str>, now: int)
    requires DerivedIds(sys.db) && Lists(order, sys.db)
    ensures Reconciled(Reconciled(sys, order, now), order, now).db == Reconciled(sys, order, now).db
  {
    WholeSeq(Effects(sys, order, now));
    CutOffRunConverges(sys, order, now, |Effects(sys, order, now)|);
  }

  // ---- jobs

  ghost predicate JobQueued(sys: System, a: Str) {
    DeriveJobId(a) in sys.queue && sys.queue[DeriveJobId(a)].attemptId == a
  }

  lemma {:induction false} JobEffectsQueue(db: Db, sys: System, ids: seq<Str>, now: int, a: Str)
    requires DerivedIds(db) && forall b :: b in ids ==> b in db.runs.attempts
    requires a in db.runs.attempts && (a in ids || JobQueued(sys, a))
    ensures JobQueued(Play(sys, JobEffects(db, ids), now), a)
    decreases |ids|
  {
    if |ids| > 0 {
      var b := ids[0];
      var envelope := Envelope(db.runs.attempts[b]);
      var pair := [EnsureJob(envelope), SetJob(b, envelope.jobId)];
      var rest := JobEffects(db, ids[1..]);
      var sys1 := PlayOne(sys, pair[0], now);
      var sys2 := PlayOne(sys1, pair[1], now);
      assert pair[1..] == [pair[1]];
      assert Play(sys, pair, now) == Play(sys1, [pair[1]], now) == Play(sys2, [], now);
      PlayConcat(sys, pair, rest, now);
      if DeriveJobId(a) == DeriveJobId(b) {
        DeriveJobIdInjective(a, b);
      }
      JobEffectsQueue(db, sys2, ids[1..], now, a);
    }
  }

  /** If nothing can be completed the third pass removes no job. */
  lemma {:induction false} InertPassKeepsQueue(sys: System, ids: seq<Str>, now: int)
    requires forall a :: a in ids ==> Inert(sys.db, a)
    ensures Play(sys, CompletionEffects(sys, ids, now), now) == sys
    decreases |ids|
  {
    if |ids| > 0 {
      var a := ids[0];
      assert Inert(sys.db, a);
      var first := CompletionOf(sys.db, a);
      InertCompletion(sys, a, now);
      InertPassKeepsQueue(sys, ids[1..], now);
      PlayConcat(sys, first, CompletionEffects(sys, ids[1..], now), now);
    }
  }

  lemma InertCompletion(sys: System, a: Str, now: int)
    requires Inert(sys.db, a)
    ensures Play(sys, CompletionOf(sys.db, a), now) == sys
  {
    CompleteOneCases(sys.db, a);
    var effects := CompletionOf(sys.db, a);
    if Pursued(sys.db, a) {
      RefusedIsError(sys.db, sys.db.results.authorizations[a].node, a);
      assert effects == [effects[0]];
      assert Play(sys, effects, now) == Play(PlayOne(sys, effects[0], now), [], now);
    }
  }

  lemma RefusedIsError(db: Db, key: NodeKey, a: Str)
    requires CompleteAuthorizedResult(db, key, a).db == db
    ensures CompleteAuthorizedResult(db, key, a).reply.Error?
  {
  }

  lemma SettledIsInert(db: Db, order: seq<Str>, now: int, a: Str)
    requires Lists(order, db) && a in Settled(db, order, now).results.authorizations
    ensures Inert(Settled(db, order, now), a)
  {
    var db1 := Dropped(db, ExpiredAttempts(db, now));
    var ids := Keep(order, db.results.authorizations.Keys);
    AuthorizationsAfter(db1, ids);
    AllInertAfter(db1, ids, a);
  }

  /** After two runs every created attempt has its job in the queue. */
  lemma CreatedAttemptsQueued(sys: System, order: seq<Str>, now: int, a: Str)
    requires DerivedIds(sys.db) && Lists(order, sys.db)
    requires var twice := Reconciled(Reconciled(sys, order, now), order, now);
      a in twice.db.runs.attempts && twice.db.runs.attempts[a].state.Created?
    ensures JobQueued(Reconciled(Reconciled(sys, order, now), order, now), a)
  {
    var once := Reconciled(sys, order, now);
    WholeSeq(Effects(sys, order, now));
    CutOffDb(sys, order, now, |Effects(sys, order, now)|);
    ReconciledDb(sys, order, now);
    SecondRunChangesNothing(sys, order, now);

    var first := FirstPass(once, order);
    JobEffectsQueue(once.db, once, Keep(order, CreatedAttempts(once.db)), now, a);
    WholeSeq(first);
    FirstPassKeepsDb(once, order, now, |first|);
    var once1 := Play(once, first, now);
    var second := SecondPass(once1, order, now);
    WholeSeq(second);
    var s := SecondPassDrops(once1, order, now, |second|);
    SettledExpiresNothing(sys.db, order, now);
    DroppedNone(once1.db);
    var once2 := Play(once1, second, now);
    forall b | b in Keep(order, once2.db.results.authorizations.Keys)
      ensures Inert(once2.db, b)
    {
      SettledIsInert(sys.db, order, now, b);
    }
    InertPassKeepsQueue(once2, Keep(order, once2.db.results.authorizations.Keys), now);
    PlayConcat(once, first + second, ThirdPass(once2, order, now), now);
    PlayConcat(once, first, second, now);
  }

  lemma SettledExpiresNothing(db: Db, order: seq<Str>, now: int)
    ensures ExpiredAttempts(Settled(db, order, now), now) == {}
  {
    ExpiredAfterDrop(db, ExpiredAttempts(db, now), now);
    NothingExpires(Dropped(db, ExpiredAttempts(db, now)), Keep(order, db.results.authorizations.Keys), now);
  }
}
