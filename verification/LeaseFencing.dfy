/** Lease fencing over whole runs of the store. */
module LeaseFencing {
  import opened Text
  import opened Wrappers
  import opened StoreModel
  import opened StoreInvariants
  import opened StoreRuns

  function ClaimReply(db: Db, call: Call): Reply
    requires call.ClaimCall?
  {
    ClaimLease(db, call.attemptId, call.owner, call.token, call.expiresAt, call.now).reply
  }

  /** Step `i` is a successful claim of attempt `a`. */
  ghost predicate Claims(dbs: seq<Db>, calls: seq<Call>, i: nat, a: Str)
    requires IsRun(dbs, calls) && i < |calls|
  {
    calls[i].ClaimCall? && calls[i].attemptId == a && ClaimReply(dbs[i], calls[i]).Claimed?
  }

  ghost function ClaimedGeneration(dbs: seq<Db>, calls: seq<Call>, i: nat, a: Str): nat
    requires IsRun(dbs, calls) && i < |calls| && Claims(dbs, calls, i, a)
  {
    ClaimReply(dbs[i], calls[i]).generation
  }

  /** The attempt's generation counter; zero while there is no such attempt. */
  ghost function Counter(db: Db, a: Str): nat {
    if a in db.runs.attempts then db.runs.attempts[a].leaseGeneration else 0
  }

  lemma InsertedLeavesAttempts(db: Db, call: Call, db': Db)
    requires IsImport(call) && Inserted(db, call, db')
    ensures db'.runs.attempts == db.runs.attempts && db'.runs.leases == db.runs.leases
  {
  }

  lemma ImportLeavesAttempts(db: Db, call: Call)
    requires IsImport(call)
    ensures ApplyImport(db, call).db.runs.attempts == db.runs.attempts
      && ApplyImport(db, call).db.runs.leases == db.runs.leases
  {
    ImportChanges(db, call);
    var db' := ApplyImport(db, call).db;
    if db' != db {
      InsertedLeavesAttempts(db, call, db');
    }
  }

  ghost predicate CounterStep(db: Db, call: Call, db': Db, a: Str) {
    if call.ClaimCall? && call.attemptId == a && ClaimReply(db, call).Claimed?
    then Counter(db', a) == ClaimReply(db, call).generation == Counter(db, a) + 1
    else Counter(db', a) == Counter(db, a)
  }

  lemma LeaseCallCounter(db: Db, call: Call, a: Str)
    requires IsLeaseCall(call)
    ensures CounterStep(db, call, ApplyLeaseCall(db, call).db, a)
  {
  }

  lemma OtherCallCounter(db: Db, call: Call, a: Str)
    requires !IsImport(call) && !IsLeaseCall(call)
    ensures CounterStep(db, call, ApplyOtherCall(db, call).db, a)
    ensures ApplyOtherCall(db, call).db.runs.leases == db.runs.leases
  {
    match call
    case TransitionCall(_, _, _) =>
    case CreateAttemptCall(_, _, _, _, _) =>
    case SetJobIdCall(_, _) =>
    case AcceptCall(result, now) => AcceptLeavesLeases(db, result, now, a);
    case CompleteCall(_, _) =>
    case ProofCall(_, _) =>
  }

  lemma AcceptLeavesLeases(db: Db, r: WorkerResult, now: int, a: Str)
    ensures Counter(AcceptResult(db, r, now).db, a) == Counter(db, a)
    ensures AcceptResult(db, r, now).db.runs.leases == db.runs.leases
  {
  }

  /** Only a successful claim moves the counter, and it moves it by one to the generation it returns. */
  lemma StepCounter(db: Db, call: Call, a: Str)
    ensures CounterStep(db, call, Apply(db, call).db, a)
  {
    if IsImport(call) {
      ImportLeavesAttempts(db, call);
    } else if IsLeaseCall(call) {
      LeaseCallCounter(db, call, a);
    } else {
      OtherCallCounter(db, call, a);
    }
  }

  lemma {:induction false} CounterAcrossQuietSteps(dbs: seq<Db>, calls: seq<Call>, i: nat, j: nat, a: Str)
    requires IsRun(dbs, calls) && i <= j < |dbs|
    requires forall m :: i <= m < j ==> !Claims(dbs, calls, m, a)
    ensures Counter(dbs[j], a) == Counter(dbs[i], a)
    decreases j - i
  {
    if i < j {
      CounterAcrossQuietSteps(dbs, calls, i, j - 1, a);
      StepCounter(dbs[j - 1], calls[j - 1], a);
      assert !Claims(dbs, calls, j - 1, a);
    }
  }

  lemma {:induction false} CounterGrows(dbs: seq<Db>, calls: seq<Call>, i: nat, j: nat, a: Str)
    requires IsRun(dbs, calls) && i <= j < |dbs|
    ensures Counter(dbs[i], a) <= Counter(dbs[j], a)
    decreases j - i
  {
    if i < j {
      CounterGrows(dbs, calls, i, j - 1, a);
      StepCounter(dbs[j - 1], calls[j - 1], a);
    }
  }

  /** No generation is handed out twice: later claims get strictly larger ones. */
  lemma GenerationsNeverReused(dbs: seq<Db>, calls: seq<Call>, i: nat, j: nat, a: Str)
    requires IsRun(dbs, calls) && i < j < |calls|
    requires Claims(dbs, calls, i, a) && Claims(dbs, calls, j, a)
    ensures ClaimedGeneration(dbs, calls, i, a) < ClaimedGeneration(dbs, calls, j, a)
  {
    StepCounter(dbs[i], calls[i], a);
    CounterGrows(dbs, calls, i + 1, j, a);
    StepCounter(dbs[j], calls[j], a);
  }

  /** The generation a reclaim announces is the one the next claim gets. */
  lemma ReclaimAnnouncesNextGeneration(dbs: seq<Db>, calls: seq<Call>, i: nat, j: nat, a: Str, owner: Str, now: int)
    requires IsRun(dbs, calls) && i < j < |calls|
    requires calls[i] == ReclaimCall(a, owner, now) && ReclaimLease(dbs[i], a, owner, now).reply.Generation?
    requires Claims(dbs, calls, j, a)
    requires forall m :: i < m < j ==> !Claims(dbs, calls, m, a)
    ensures ClaimedGeneration(dbs, calls, j, a) == ReclaimLease(dbs[i], a, owner, now).reply.generation
  {
    StepCounter(dbs[i], calls[i], a);
    CounterAcrossQuietSteps(dbs, calls, i + 1, j, a);
    StepCounter(dbs[j], calls[j], a);
  }

  // ---- where a stored lease comes from

  /** The lease row of `a` was written by claim step `i` and has only been renewed since. */
  ghost predicate LeaseFrom(dbs: seq<Db>, calls: seq<Call>, i: nat, k: nat, a: Str)
    requires IsRun(dbs, calls) && i < k < |dbs|
  {
    && Claims(dbs, calls, i, a)
    && (forall m :: i < m <= k ==> a in dbs[m].runs.leases)
    && a in dbs[k].runs.leases
    && dbs[k].runs.leases[a].generation == ClaimedGeneration(dbs, calls, i, a)
    && dbs[k].runs.leases[a].tokenDigest == Sha256(calls[i].token)
  }

  ghost predicate LeaseStep(db: Db, call: Call, db': Db, a: Str) {
    a in db'.runs.leases ==>
    var lease := db'.runs.leases[a];
    if a in db.runs.leases
    then lease.generation == db.runs.leases[a].generation && lease.tokenDigest == db.runs.leases[a].tokenDigest
    else
      && call.ClaimCall? && call.attemptId == a
      && ClaimReply(db, call) == Claimed(lease.generation, call.token) && lease.tokenDigest == Sha256(call.token)
  }

  lemma LeaseCallLease(db: Db, call: Call, a: Str)
    requires IsLeaseCall(call)
    ensures LeaseStep(db, call, ApplyLeaseCall(db, call).db, a)
  {
    match call
    case ClaimCall(_, _, _, _, _) =>
    case RenewCall(b, owner, token, expiresAt, now) => RenewLeaseOnly(db, b, owner, token, expiresAt, now, a);
    case ReleaseCall(_, _, _) =>
    case ReclaimCall(_, _, _) =>
  }

  lemma RenewLeaseOnly(db: Db, b: Str, owner: Str, token: Str, expiresAt: int, now: int, a: Str)
    ensures var db' := RenewLease(db, b, owner, token, expiresAt, now).db;
      && db'.runs.leases.Keys == db.runs.leases.Keys
      && (a in db.runs.leases ==>
          && db'.runs.leases[a].generation == db.runs.leases[a].generation
          && db'.runs.leases[a].tokenDigest == db.runs.leases[a].tokenDigest)
  {
  }

  /** A lease row is written by a claim and keeps its generation and token digest. */
  lemma StepLease(db: Db, call: Call, a: Str)
    ensures LeaseStep(db, call, Apply(db, call).db, a)
  {
    if IsImport(call) {
      ImportLeavesAttempts(db, call);
    } else if IsLeaseCall(call) {
      LeaseCallLease(db, call, a);
    } else {
      OtherCallCounter(db, call, a);
    }
  }

  lemma {:induction false} LeaseOrigin(dbs: seq<Db>, calls: seq<Call>, k: nat, a: Str) returns (i: nat)
    requires IsRun(dbs, calls) && k < |dbs| && a in dbs[k].runs.leases && a !in dbs[0].runs.leases
    ensures i < k && LeaseFrom(dbs, calls, i, k, a)
  {
    StepLease(dbs[k - 1], calls[k - 1], a);
    if a in dbs[k - 1].runs.leases {
      i := LeaseOrigin(dbs, calls, k - 1, a);
    } else {
      i := k - 1;
    }
  }

  /** Step `k` stores a result that was not there. */
  ghost predicate NewlyAccepts(dbs: seq<Db>, calls: seq<Call>, k: nat)
    requires IsRun(dbs, calls) && k < |calls|
  {
    && calls[k].AcceptCall?
    && calls[k].result.row.attemptId !in dbs[k].results.accepted
    && calls[k].result.row.attemptId in dbs[k + 1].results.accepted
  }

  lemma NewAcceptanceIsAuthorized(dbs: seq<Db>, calls: seq<Call>, k: nat)
    requires IsRun(dbs, calls) && k < |calls| && NewlyAccepts(dbs, calls, k)
    ensures LeaseAuthorizes(dbs[k], calls[k].result, calls[k].now)
  {
    assert dbs[k + 1] == Apply(dbs[k], calls[k]).db;
  }

  /**
   A result is newly accepted only under the latest claim of its attempt, with that claim's
   generation and token, while the lease it wrote is stored and live.
   */
  lemma AcceptedUnderLatestClaim(dbs: seq<Db>, calls: seq<Call>, k: nat) returns (i: nat)
    requires IsRun(dbs, calls) && k < |calls| && NewlyAccepts(dbs, calls, k)
    requires calls[k].result.row.attemptId !in dbs[0].runs.leases
    ensures i < k && LeaseFrom(dbs, calls, i, k, calls[k].result.row.attemptId)
    ensures var r := calls[k].result; ClaimReply(dbs[i], calls[i]) == Claimed(r.row.generation, r.token)
    ensures dbs[k].runs.leases[calls[k].result.row.attemptId].expiresAt > calls[k].now
    ensures forall m :: i < m < |calls| && m <= k ==> !Claims(dbs, calls, m, calls[k].result.row.attemptId)
  {
    var r := calls[k].result;
    var a := r.row.attemptId;
    NewAcceptanceIsAuthorized(dbs, calls, k);
    i := LeaseOrigin(dbs, calls, k, a);
    StepLease(dbs[i], calls[i], a);
    forall m | i < m <= k
      ensures !Claims(dbs, calls, m, a)
    {
      assert a in dbs[m].runs.leases;
    }
  }

  // ---- expiry

  ghost predicate NotBefore(call: Call, t: int) {
    match call
    case ClaimCall(_, _, _, _, now) => t <= now
    case RenewCall(_, _, _, _, now) => t <= now
    case ReclaimCall(_, _, now) => t <= now
    case AcceptCall(_, now) => t <= now
    case _ => true
  }

  /** Generation `g` of attempt `a` has been handed out and is not live at `t`. */
  ghost predicate ExpiredBy(db: Db, a: Str, g: nat, t: int) {
    && a in db.runs.attempts && g <= db.runs.attempts[a].leaseGeneration
    && (a in db.runs.leases && db.runs.leases[a].generation == g ==> db.runs.leases[a].expiresAt <= t)
  }

  lemma LeaseCallStaysExpired(db: Db, call: Call, a: Str, g: nat, t: int)
    requires LeasesCurrent(db.runs.leases, db.runs.attempts) && IsLeaseCall(call)
    requires ExpiredBy(db, a, g, t) && NotBefore(call, t)
    ensures ExpiredBy(ApplyLeaseCall(db, call).db, a, g, t)
  {
  }

  lemma StepStaysExpired(db: Db, call: Call, a: Str, g: nat, t: int)
    requires Valid(db) && ExpiredBy(db, a, g, t) && NotBefore(call, t)
    ensures ExpiredBy(Apply(db, call).db, a, g, t)
  {
    if IsImport(call) {
      ImportLeavesAttempts(db, call);
    } else if IsLeaseCall(call) {
      LeaseCallStaysExpired(db, call, a, g, t);
    } else {
      OtherCallCounter(db, call, a);
      OtherCallAdvances(db, call);
    }
  }

  lemma {:induction false} StaysExpired(dbs: seq<Db>, calls: seq<Call>, i: nat, j: nat, a: Str, g: nat, t: int)
    requires ValidRun(dbs, calls) && i <= j < |dbs| && ExpiredBy(dbs[i], a, g, t)
    requires forall m :: i <= m < j ==> NotBefore(calls[m], t)
    ensures ExpiredBy(dbs[j], a, g, t)
    decreases j - i
  {
    if i < j {
      StaysExpired(dbs, calls, i, j - 1, a, g, t);
      RunKeepsValid(dbs, calls, j - 1);
      StepStaysExpired(dbs[j - 1], calls[j - 1], a, g, t);
    }
  }

  /**
   With a clock that does not run backwards, a lease once seen expired never authorizes
   again: no renewal revives it and no result is newly accepted under its generation.
   */
  lemma ExpiredNeverAuthorizes(dbs: seq<Db>, calls: seq<Call>, i: nat, k: nat, a: Str, t: int)
    requires ValidRun(dbs, calls) && i <= k < |calls|
    requires a in dbs[i].runs.leases && dbs[i].runs.leases[a].expiresAt <= t
    requires forall m :: i <= m < |calls| ==> NotBefore(calls[m], t)
    requires NewlyAccepts(dbs, calls, k) && calls[k].result.row.attemptId == a
    ensures calls[k].result.row.generation > dbs[i].runs.leases[a].generation
  {
    var g := dbs[i].runs.leases[a].generation;
    RunKeepsValid(dbs, calls, i);
    StaysExpired(dbs, calls, i, k, a, g, t);
    RunKeepsValid(dbs, calls, k);
    NewAcceptanceIsAuthorized(dbs, calls, k);
    assert NotBefore(calls[k], t);
  }

  // ---- exclusion

  /** The call presents the token of this digest for this attempt, to renew or release. */
  predicate ByHolder(call: Call, a: Str, lease: LeaseRow) {
    || (call.RenewCall? && call.attemptId == a && call.owner == lease.owner && Sha256(call.token) == lease.tokenDigest)
    || (call.ReleaseCall? && call.attemptId == a && call.owner == lease.owner
      && Sha256(call.token) == lease.tokenDigest)
  }

  predicate ReclaimsAfter(call: Call, a: Str, t: int) {
    call.ReclaimCall? && call.attemptId == a && t <= call.now
  }

  lemma LeaseCallRespectsHolder(db: Db, call: Call, a: Str)
    requires IsLeaseCall(call) && a in db.runs.leases
    ensures var leases' := ApplyLeaseCall(db, call).db.runs.leases;
      || (a in leases' && leases'[a] == db.runs.leases[a])
      || ByHolder(call, a, db.runs.leases[a])
      || ReclaimsAfter(call, a, db.runs.leases[a].expiresAt)
  {
  }

  /** A stored lease is changed or dropped only by its holder, or by a reclaim after it has expired. */
  lemma OnlyHolderOrExpiry(db: Db, call: Call, a: Str)
    requires a in db.runs.leases
    ensures var leases' := Apply(db, call).db.runs.leases;
      || (a in leases' && leases'[a] == db.runs.leases[a])
      || ByHolder(call, a, db.runs.leases[a])
      || ReclaimsAfter(call, a, db.runs.leases[a].expiresAt)
  {
    if IsImport(call) {
      ImportLeavesAttempts(db, call);
    } else if IsLeaseCall(call) {
      LeaseCallRespectsHolder(db, call, a);
    } else {
      OtherCallCounter(db, call, a);
    }
  }

  /**
   Nobody else can take over: until its holder acts or it is reclaimed after expiry, a lease
   stays as it is and no claim of its attempt succeeds.
   */
  lemma {:induction false} LeaseExcludes(dbs: seq<Db>, calls: seq<Call>, i: nat, k: nat, a: Str)
    requires IsRun(dbs, calls) && i <= k < |dbs| && a in dbs[i].runs.leases
    requires forall m {:trigger calls[m]} :: i <= m < k ==>
      !ByHolder(calls[m], a, dbs[i].runs.leases[a]) && !ReclaimsAfter(calls[m], a, dbs[i].runs.leases[a].expiresAt)
    ensures a in dbs[k].runs.leases && dbs[k].runs.leases[a] == dbs[i].runs.leases[a]
    ensures forall m :: i <= m < k ==> !Claims(dbs, calls, m, a)
    decreases k - i
  {
    if i < k {
      LeaseExcludes(dbs, calls, i, k - 1, a);
      OnlyHolderOrExpiry(dbs[k - 1], calls[k - 1], a);
    }
  }
}
