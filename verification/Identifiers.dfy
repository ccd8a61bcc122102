/** Derived identifiers of src/domains/orchestration/attempt-dispatch.ts. */
module Identifiers {
  import opened Text

  /** `att://` */
  const ATTEMPT_SCHEME: Str := [0x61, 0x74, 0x74, 0x3A, 0x2F, 0x2F]
  /** `job://` */
  const JOB_SCHEME: Str := [0x6A, 0x6F, 0x62, 0x3A, 0x2F, 0x2F]

  function DeriveAttemptId(workId: Str, nodeId: Str, attemptNumber: nat): Str {
    ATTEMPT_SCHEME + workId + [SLASH] + nodeId + [SLASH] + Decimal(attemptNumber)
  }

  function DeriveJobId(attemptId: Str): Str {
    JOB_SCHEME + attemptId
  }

  datatype QueueEnvelope = QueueEnvelope(jobId: Str, attemptId: Str, nodeId: Str, workId: Str)

  function MakeQueueEnvelope(workId: Str, nodeId: Str, attemptNumber: nat): QueueEnvelope {
    var attemptId := DeriveAttemptId(workId, nodeId, attemptNumber);
    QueueEnvelope(DeriveJobId(attemptId), attemptId, nodeId, workId)
  }

  lemma DeriveJobIdInjective(a: Str, b: Str)
    requires DeriveJobId(a) == DeriveJobId(b)
    ensures a == b
  {
    assert DeriveJobId(a)[|JOB_SCHEME|..] == a;
    assert DeriveJobId(b)[|JOB_SCHEME|..] == b;
  }

  /** A text is split in one way only at the last occurrence of a delimiter. */
  lemma SplitAtLast(d: CodeUnit, a: Str, r: Str, b: Str, s: Str)
    requires d !in r && d !in s
    requires a + [d] + r == b + [d] + s
    ensures a == b && r == s
  {
    var t, u := a + [d] + r, b + [d] + s;
    assert t[|a|] == d && u[|b|] == d;
    assert forall i :: |a| < i < |t| ==> t[i] == r[i - |a| - 1] != d;
    assert forall i :: |b| < i < |u| ==> u[i] == s[i - |b| - 1] != d;
    assert |a| == |b|;
    assert a == t[..|a|] && b == u[..|b|];
    assert r == t[|a| + 1..] && s == u[|b| + 1..];
  }

  /**
   Two attempts get the same derived id only if they are the same attempt, provided the node
   ids contain no slash; work ids may contain any number of them.
   */
  lemma DeriveAttemptIdInjective(w: Str, n: Str, k: nat, w': Str, n': Str, k': nat)
    requires SLASH !in n && SLASH !in n'
    requires DeriveAttemptId(w, n, k) == DeriveAttemptId(w', n', k')
    ensures w == w' && n == n' && k == k'
  {
    var a, a' := ATTEMPT_SCHEME + w, ATTEMPT_SCHEME + w';
    SplitAtLast(SLASH, a + [SLASH] + n, Decimal(k), a' + [SLASH] + n', Decimal(k'));
    DecimalInjective(k, k');
    SplitAtLast(SLASH, a, n, a', n');
    assert a[|ATTEMPT_SCHEME|..] == w && a'[|ATTEMPT_SCHEME|..] == w';
  }

  /** With a slash in a node id the derived ids of different nodes can collide. */
  lemma DeriveAttemptIdCollision(w: Str, m: Str, n: Str, k: nat)
    ensures DeriveAttemptId(w, m + [SLASH] + n, k) == DeriveAttemptId(w + [SLASH] + m, n, k)
    ensures (w, m + [SLASH] + n) != (w + [SLASH] + m, n)
  {
    assert w + [SLASH] + (m + [SLASH] + n) == w + [SLASH] + m + [SLASH] + n;
    assert DeriveAttemptId(w, m + [SLASH] + n, k)
        == ATTEMPT_SCHEME + (w + [SLASH] + (m + [SLASH] + n)) + [SLASH] + Decimal(k);
    assert DeriveAttemptId(w + [SLASH] + m, n, k)
        == ATTEMPT_SCHEME + (w + [SLASH] + m + [SLASH] + n) + [SLASH] + Decimal(k);
    assert |w| != |w + [SLASH] + m|;
  }

  /** One pair of ids takes over the tail of the other's work id as the head of its node id. */
  ghost predicate Shifted(w: Str, n: Str, w': Str, n': Str) {
    exists m: Str :: n == m + [SLASH] + n' && w' == w + [SLASH] + m
  }

  lemma SameTextShifts(w: Str, n: Str, w': Str, n': Str)
    requires w + [SLASH] + n == w' + [SLASH] + n' && |w| < |w'|
    ensures Shifted(w, n, w', n')
  {
    var t, u := w + [SLASH] + n, w' + [SLASH] + n';
    var m := w'[|w| + 1..];
    assert w == t[..|w|] && w' == u[..|w'|];
    assert t[|w|] == SLASH;
    assert w' == w + [SLASH] + m;
    assert n == t[|w| + 1..] && m + [SLASH] + n' == u[|w| + 1..];
  }

  /**
   Exactly when two different nodes get the same attempt id: the attempt numbers are equal and
   one node id begins, up to a slash, with what the other's work id ends with after one.
   */
  lemma CollisionExact(w: Str, n: Str, k: nat, w': Str, n': Str, k': nat)
    requires (w, n) != (w', n')
    ensures DeriveAttemptId(w, n, k) == DeriveAttemptId(w', n', k') <==>
      k == k' && (Shifted(w, n, w', n') || Shifted(w', n', w, n))
  {
    var a, a' := ATTEMPT_SCHEME + w + [SLASH] + n, ATTEMPT_SCHEME + w' + [SLASH] + n';
    assert a == ATTEMPT_SCHEME + (w + [SLASH] + n) && a' == ATTEMPT_SCHEME + (w' + [SLASH] + n');
    if DeriveAttemptId(w, n, k) == DeriveAttemptId(w', n', k') {
      SplitAtLast(SLASH, a, Decimal(k), a', Decimal(k'));
      DecimalInjective(k, k');
      assert a[|ATTEMPT_SCHEME|..] == w + [SLASH] + n && a'[|ATTEMPT_SCHEME|..] == w' + [SLASH] + n';
      SameTextCases(w, n, w', n');
    }
    if Shifted(w, n, w', n') {
      var m :| n == m + [SLASH] + n' && w' == w + [SLASH] + m;
      DeriveAttemptIdCollision(w, m, n', k);
    }
    if Shifted(w', n', w, n) {
      var m :| n' == m + [SLASH] + n && w == w' + [SLASH] + m;
      DeriveAttemptIdCollision(w', m, n, k);
    }
  }

  lemma SameTextCases(w: Str, n: Str, w': Str, n': Str)
    requires w + [SLASH] + n == w' + [SLASH] + n' && (w, n) != (w', n')
    ensures Shifted(w, n, w', n') || Shifted(w', n', w, n)
  {
    if |w| < |w'| {
      SameTextShifts(w, n, w', n');
    } else if |w'| < |w| {
      SameTextShifts(w', n', w, n);
    } else {
      EqualSplit(w, n, w', n');
    }
  }

  lemma EqualSplit(w: Str, n: Str, w': Str, n': Str)
    requires w + [SLASH] + n == w' + [SLASH] + n' && |w| == |w'|
    ensures w == w' && n == n'
  {
    var t, u := w + [SLASH] + n, w' + [SLASH] + n';
    assert w == t[..|w|] && w' == u[..|w'|] && n == t[|w| + 1..] && n' == u[|w'| + 1..];
  }
}
