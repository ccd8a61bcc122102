/**
 One job's passage through its slot: `runOne` of
 src/domains/agent-execution/minimal-pool-runtime.ts, with the behaviour of its collaborators
 as a parameter.
 */
module PoolJob {
  import opened Text

  datatype Status = Passed | Failed

  datatype Code = RESOURCE_ALLOCATION_FAILED | RUNTIME_EXCEPTION | Launcher(code: Str)

  datatype Launch = Launched | LaunchFailure(code: Str) | LaunchThrows

  datatype Check = Verified(status: Status) | VerifyThrows

  /** How the collaborators behave; `persistsFailure` is the second try to write, in the exception handler. */
  datatype Environment = Environment(
    allocates: bool, attemptPersists: bool, launch: Launch, check: Check, persists: bool, persistsFailure: bool,
    releases: bool)

  datatype Outcome = Verdict(status: Status) | Failure(code: Code)

  datatype Effect =
    | Allocate(ok: bool)
    | PersistAttempt(ok: bool)
    | PersistResult(outcome: Outcome, ok: bool)
    | Release(ok: bool)

  datatype JobResult = Finished(status: Status) | Broken(code: Code)

  predicate Wrote(e: Effect) {
    e.PersistResult? && e.ok
  }

  /** The outcome the caller is told. */
  function Told(result: JobResult): Outcome {
    match result
    case Finished(status) => Verdict(status)
    case Broken(code) => Failure(code)
  }

  /** Resources that were allocated are released once, as the last thing. */
  ghost predicate ReleasedLast(effects: seq<Effect>) {
    && |effects| > 0 && effects[0] == Allocate(true)
    && effects[|effects| - 1].Release?
    && forall i :: 0 <= i < |effects| - 1 ==> !effects[i].Release?
  }

  /** At most one result is written, and it is the one the caller is told. */
  ghost predicate WrittenAsTold(effects: seq<Effect>, result: JobResult) {
    && (forall i, j :: 0 <= i < j < |effects| ==> !(Wrote(effects[i]) && Wrote(effects[j])))
    && (forall i :: 0 <= i < |effects| && Wrote(effects[i]) ==> effects[i].outcome == Told(result))
  }

  ghost predicate SomeWritten(effects: seq<Effect>) {
    exists i :: 0 <= i < |effects| && Wrote(effects[i])
  }

  /** The attempt is recorded first; what happens after a failure of that is the record of the failure. */
  ghost predicate AttemptFirst(effects: seq<Effect>) {
    |effects| > 1 && effects[1].PersistAttempt? && forall i :: 2 <= i < |effects| ==> !effects[i].PersistAttempt?
  }

  /** The discipline so far, before the release. */
  ghost predicate Orderly(effects: seq<Effect>, result: JobResult) {
    && |effects| > 1 && effects[0] == Allocate(true) && AttemptFirst(effects) && WrittenAsTold(effects, result)
    && forall i :: 0 <= i < |effects| ==> !effects[i].Release?
  }

  lemma Released(effects: seq<Effect>, result: JobResult, ok: bool)
    requires Orderly(effects, result)
    ensures var all := effects + [Release(ok)]; ReleasedLast(all) && AttemptFirst(all) && WrittenAsTold(all, result)
    ensures SomeWritten(effects) ==> SomeWritten(effects + [Release(ok)])
  {
    var all := effects + [Release(ok)];
    assert forall i :: 0 <= i < |effects| ==> all[i] == effects[i];
    if SomeWritten(effects) {
      var i :| 0 <= i < |effects| && Wrote(effects[i]);
      assert Wrote(all[i]);
    }
  }

  /** A try to write this outcome, after which the caller is told `result` if it succeeded. */
  lemma OneTry(ok: bool, outcome: Outcome, written: bool, result: JobResult)
    requires written ==> Told(result) == outcome
    ensures var effects := [Allocate(true), PersistAttempt(ok), PersistResult(outcome, written)];
      Orderly(effects, result) && (written ==> SomeWritten(effects))
  {
    var effects := [Allocate(true), PersistAttempt(ok), PersistResult(outcome, written)];
    assert effects[2] == PersistResult(outcome, written);
  }

  /** A failed try, and then the record of the failure. */
  lemma SecondTry(ok: bool, outcome: Outcome, written: bool)
    ensures var effects := [Allocate(true), PersistAttempt(ok), PersistResult(outcome, false)];
      var all := effects + [PersistResult(Failure(RUNTIME_EXCEPTION), written)];
      Orderly(all, Broken(RUNTIME_EXCEPTION)) && (written ==> SomeWritten(all))
  {
    var effects := [Allocate(true), PersistAttempt(ok), PersistResult(outcome, false)];
    var all := effects + [PersistResult(Failure(RUNTIME_EXCEPTION), written)];
    assert all[3] == PersistResult(Failure(RUNTIME_EXCEPTION), written);
  }

  method RunOne(env: Environment) returns (result: JobResult, effects: seq<Effect>)
    ensures !env.allocates ==> effects == [Allocate(false)] && result == Broken(RESOURCE_ALLOCATION_FAILED)
    ensures env.allocates ==> ReleasedLast(effects) && AttemptFirst(effects) && WrittenAsTold(effects, result)
    // a verdict is told only once it is written
    ensures env.allocates ==> (result.Finished? <==>
      env.attemptPersists && env.launch.Launched? && env.check.Verified? && env.persists)
    ensures result.Finished? ==> SomeWritten(effects) && result.status == env.check.status
    // nothing is written only if writing failed to the last
    ensures env.allocates && env.persistsFailure ==> SomeWritten(effects)
  {
    effects := [Allocate(env.allocates)];
    if !env.allocates {
      return Broken(RESOURCE_ALLOCATION_FAILED), effects;
    }
    var resultPersisted, threw := false, false;
    result := Broken(RUNTIME_EXCEPTION);
    effects := effects + [PersistAttempt(env.attemptPersists)];
    if !env.attemptPersists || env.launch.LaunchThrows? {
      threw := true;
    } else if env.launch.LaunchFailure? {
      effects := effects + [PersistResult(Failure(Launcher(env.launch.code)), env.persists)];
      resultPersisted := env.persists;
      threw := !env.persists;
      result := Broken(Launcher(env.launch.code));
    } else if env.check.VerifyThrows? {
      threw := true;
    } else {
      effects := effects + [PersistResult(Verdict(env.check.status), env.persists)];
      resultPersisted := env.persists;
      threw := !env.persists;
      result := Finished(env.check.status);
    }
    if threw {
      if !resultPersisted {
        effects := effects + [PersistResult(Failure(RUNTIME_EXCEPTION), env.persistsFailure)];
      }
      result := Broken(RUNTIME_EXCEPTION);
    }
    if |effects| == 3 {
      assert effects == [Allocate(true), PersistAttempt(env.attemptPersists), effects[2]];
      OneTry(env.attemptPersists, effects[2].outcome, effects[2].ok, result);
    } else {
      assert effects == [Allocate(true), PersistAttempt(env.attemptPersists), effects[2]] + [effects[3]];
      SecondTry(env.attemptPersists, effects[2].outcome, env.persistsFailure);
    }
    Released(effects, result, env.releases);
    effects := effects + [Release(env.releases)];
  }
}
