/**
 The bounded pool of src/domains/agent-execution/minimal-pool-runtime.ts as a transition system:
 a submit, the end of a running job and a shutdown are its steps.
 */
module Pool {
  import opened Text
  import opened Wrappers

  /** A slot holds the attempt it is running. */
  type Slots = seq<Option<Str>>

  /**
   The runtime's variables, and what has been observable so far: the attempts admitted and
   started, those whose promise was resolved, and the shutdown calls released, each in order.
   */
  datatype State = State(
    queue: seq<Str>, slots: Slots, shuttingDown: bool, waiters: seq<nat>,
    order: seq<Str>, started: seq<Str>, settled: seq<Str>, released: seq<nat>)

  datatype Submitted = Queued | ShuttingDown | FakeAdapterRejected | RequiresFakeAdapter | DuplicateAttemptId

  /** Whether an adapter is declared fake, and whether this is the test-only runtime. */
  datatype Policy = Policy(fake: bool, allowFake: bool)

  function Init(slotCount: nat): State {
    State([], seq(slotCount, _ => None), false, [], [], [], [], [])
  }

  predicate AllIdle(slots: Slots) {
    forall i :: 0 <= i < |slots| ==> slots[i].None?
  }

  predicate AllBusy(slots: Slots) {
    forall i :: 0 <= i < |slots| ==> slots[i].Some?
  }

  predicate Idle(s: State) {
    |s.queue| == 0 && AllIdle(s.slots)
  }

  // ---- scheduling

  datatype Scheduled = Scheduled(queue: seq<Str>, slots: Slots, started: seq<Str>)

  /** The loop of `schedule` from slot `i` on. */
  function Schedule(queue: seq<Str>, slots: Slots, started: seq<Str>, i: nat): Scheduled
    decreases |slots| - i
  {
    if i >= |slots| then Scheduled(queue, slots, started)
    else if slots[i].Some? then Schedule(queue, slots, started, i + 1)
    else if |queue| == 0 then Scheduled(queue, slots, started)
    else Schedule(queue[1..], slots[i := Some(queue[0])], started + [queue[0]], i + 1)
  }

  /** The attempts in the slots. */
  function Running(slots: Slots): multiset<Str> {
    if |slots| == 0 then multiset{}
    else
      var last := slots[|slots| - 1];
      Running(slots[..|slots| - 1]) + if last.Some? then multiset{last.value} else multiset{}
  }

  lemma RunningSnoc(slots: Slots, last: Option<Str>)
    ensures Running(slots + [last]) == Running(slots) + if last.Some? then multiset{last.value} else multiset{}
  {
    assert (slots + [last])[..|slots|] == slots;
  }

  lemma SetBelow(slots: Slots, i: nat, x: Option<Str>)
    requires i < |slots| - 1
    ensures slots[i := x] == slots[..|slots| - 1][i := x] + [slots[|slots| - 1]]
  {
  }

  lemma SetLast(slots: Slots, x: Option<Str>)
    requires |slots| > 0
    ensures slots[|slots| - 1 := x] == slots[..|slots| - 1] + [x]
  {
  }

  lemma {:induction false} RunningSet(slots: Slots, i: nat, id: Str)
    requires i < |slots| && slots[i].None?
    ensures Running(slots[i := Some(id)]) == Running(slots) + multiset{id}
    decreases |slots|
  {
    var n := |slots| - 1;
    if i < n {
      RunningSet(slots[..n], i, id);
      SetBelow(slots, i, Some(id));
      RunningSnoc(slots[..n][i := Some(id)], slots[n]);
    } else {
      SetLast(slots, Some(id));
      RunningSnoc(slots[..n], Some(id));
    }
  }

  predicate AllAre(slots: Slots, busy: bool) {
    if busy then AllBusy(slots) else AllIdle(slots)
  }

  lemma AllAreSnoc(slots: Slots, last: Option<Str>, busy: bool)
    ensures AllAre(slots + [last], busy) <==> AllAre(slots, busy) && last.Some? == busy
  {
    var all := slots + [last];
    assert all[|slots|] == last;
    assert forall k :: 0 <= k < |slots| ==> all[k] == slots[k];
  }

  lemma {:induction false} RunningEmpty(slots: Slots)
    ensures |Running(slots)| <= |slots|
    ensures AllIdle(slots) <==> |Running(slots)| == 0
    ensures AllBusy(slots) <==> |Running(slots)| == |slots|
  {
    if |slots| > 0 {
      var n := |slots| - 1;
      RunningEmpty(slots[..n]);
      AllButLast(slots);
      AllAreSnoc(slots[..n], slots[n], false);
      AllAreSnoc(slots[..n], slots[n], true);
    }
  }

  lemma Shifted(started: seq<Str>, queue: seq<Str>)
    requires |queue| > 0
    ensures started + [queue[0]] + queue[1..] == started + queue
  {
  }

  /** Scheduling hands the head of the queue to the idle slots; then the queue is empty or no slot is idle. */
  lemma {:induction false} ScheduleFills(queue: seq<Str>, slots: Slots, started: seq<Str>, i: nat)
    requires i <= |slots| && forall j :: 0 <= j < i ==> slots[j].Some?
    ensures var r := Schedule(queue, slots, started, i);
      started + queue == r.started + r.queue && |r.slots| == |slots| && (|r.queue| > 0 ==> AllBusy(r.slots))
    decreases |slots| - i
  {
    if i < |slots| {
      if slots[i].Some? {
        ScheduleFills(queue, slots, started, i + 1);
      } else if |queue| > 0 {
        ScheduleFills(queue[1..], slots[i := Some(queue[0])], started + [queue[0]], i + 1);
        Shifted(started, queue);
      }
    }
  }

  /** What scheduling starts is what the slots gain. */
  lemma {:induction false} ScheduleRuns(queue: seq<Str>, slots: Slots, started: seq<Str>, i: nat)
    ensures var r := Schedule(queue, slots, started, i);
      Running(r.slots) + multiset(started) == Running(slots) + multiset(r.started)
    decreases |slots| - i
  {
    if i < |slots| {
      if slots[i].Some? {
        ScheduleRuns(queue, slots, started, i + 1);
      } else if |queue| > 0 {
        ScheduleRuns(queue[1..], slots[i := Some(queue[0])], started + [queue[0]], i + 1);
        RunningSet(slots, i, queue[0]);
        var r := Schedule(queue[1..], slots[i := Some(queue[0])], started + [queue[0]], i + 1);
        assert multiset(started + [queue[0]]) == multiset(started) + multiset{queue[0]};
        CancelBoth(Running(r.slots), multiset(started), Running(slots), multiset(r.started), multiset{queue[0]});
      }
    }
  }

  lemma CancelBoth(a: multiset<Str>, b: multiset<Str>, c: multiset<Str>, d: multiset<Str>, x: multiset<Str>)
    requires a + (b + x) == (c + x) + d
    ensures a + b == c + d
  {
    forall y
      ensures (a + b)[y] == (c + d)[y]
    {
      assert (a + (b + x))[y] == ((c + x) + d)[y];
    }
  }

  function Rescheduled(s: State): State {
    var r := Schedule(s.queue, s.slots, s.started, 0);
    s.(queue := r.queue, slots := r.slots, started := r.started)
  }

  // ---- steps

  function Notified(s: State): State {
    if Idle(s) then s.(waiters := [], released := s.released + s.waiters) else s
  }

  function Verdict(s: State, policy: Policy, id: Str): Submitted {
    if s.shuttingDown then ShuttingDown
    else if policy.fake && !policy.allowFake then FakeAdapterRejected
    else if !policy.fake && policy.allowFake then RequiresFakeAdapter
    else if id in s.order then DuplicateAttemptId
    else Queued
  }

  function Submit(s: State, policy: Policy, id: Str): State {
    if Verdict(s, policy, id).Queued? then Rescheduled(s.(order := s.order + [id], queue := s.queue + [id])) else s
  }

  /** The job in slot `i` ends: its promise is resolved and the slot freed. */
  function Finish(s: State, i: nat): State
    requires i < |s.slots| && s.slots[i].Some?
  {
    Rescheduled(Notified(s.(slots := s.slots[i := None], settled := s.settled + [s.slots[i].value])))
  }

  function Shutdown(s: State, waiter: nat): State {
    var s' := s.(shuttingDown := true);
    if Idle(s') then s'.(released := s'.released + [waiter]) else s'.(waiters := s'.waiters + [waiter])
  }

  datatype Event = Submits(id: Str) | Finishes(slot: nat) | ShutsDown(waiter: nat)

  /** Only a running job can end. */
  predicate Possible(s: State, e: Event) {
    e.Finishes? ==> e.slot < |s.slots| && s.slots[e.slot].Some?
  }

  function Next(s: State, policy: Policy, e: Event): State
    requires Possible(s, e)
  {
    match e
    case Submits(id) => Submit(s, policy, id)
    case Finishes(i) => Finish(s, i)
    case ShutsDown(w) => Shutdown(s, w)
  }

  // ---- the invariant

  ghost predicate Inv(s: State) {
    // no attempt is admitted twice
    && NoDuplicates(s.order)
    // attempts start in the order they were admitted; the queue is the rest
    && s.order == s.started + s.queue
    // what was started is either settled or in a slot
    && multiset(s.started) == multiset(s.settled) + Running(s.slots)
    // no slot is idle while an attempt is queued
    && (|s.queue| > 0 ==> AllBusy(s.slots))
    && Calm(s)
  }

  /** No shutdown call is left waiting in an idle pool. */
  ghost predicate Calm(s: State) {
    |s.waiters| > 0 ==> s.shuttingDown && !Idle(s)
  }

  lemma InitInv(slotCount: nat)
    requires slotCount > 0
    ensures Inv(Init(slotCount))
  {
    RunningEmpty(Init(slotCount).slots);
  }

  /** Everything the invariant says but the rule on idle slots, which scheduling restores. */
  ghost predicate Counted(s: State) {
    NoDuplicates(s.order) && s.order == s.started + s.queue
      && multiset(s.started) == multiset(s.settled) + Running(s.slots)
  }

  lemma SizesAdd(s: State, r: Scheduled)
    requires s.started + s.queue == r.started + r.queue
    requires Running(r.slots) + multiset(s.started) == Running(s.slots) + multiset(r.started)
    ensures |r.queue| + |Running(r.slots)| == |s.queue| + |Running(s.slots)|
  {
    assert |s.started + s.queue| == |r.started + r.queue|;
    assert |Running(r.slots) + multiset(s.started)| == |Running(r.slots)| + |s.started|;
    assert |Running(s.slots) + multiset(r.started)| == |Running(s.slots)| + |r.started|;
  }

  lemma StartedSplits(
    slots': multiset<Str>, started: multiset<Str>, slots: multiset<Str>, started': multiset<Str>,
    settled: multiset<Str>)
    requires slots' + started == slots + started' && started == settled + slots
    ensures started' == settled + slots'
  {
    forall y
      ensures started'[y] == (settled + slots')[y]
    {
      assert (slots' + started)[y] == (slots + started')[y];
    }
  }

  lemma RescheduleKeeps(s: State)
    requires Counted(s)
    ensures var s' := Rescheduled(s);
      && Counted(s') && (|s'.queue| > 0 ==> AllBusy(s'.slots))
      && |s'.slots| == |s.slots| && (Idle(s') <==> Idle(s))
      && |s'.queue| + |Running(s'.slots)| == |s.queue| + |Running(s.slots)|
  {
    var r := Schedule(s.queue, s.slots, s.started, 0);
    ScheduleFills(s.queue, s.slots, s.started, 0);
    ScheduleRuns(s.queue, s.slots, s.started, 0);
    RunningEmpty(s.slots);
    RunningEmpty(r.slots);
    SizesAdd(s, r);
    StartedSplits(Running(r.slots), multiset(s.started), Running(s.slots), multiset(r.started), multiset(s.settled));
  }

  lemma Reassociate(a: seq<Str>, b: seq<Str>, c: seq<Str>)
    ensures a + b + c == a + (b + c)
  {
  }

  lemma SubmitKeeps(s: State, policy: Policy, id: Str)
    requires Inv(s)
    ensures Inv(Submit(s, policy, id)) && |Submit(s, policy, id).slots| == |s.slots|
  {
    if Verdict(s, policy, id).Queued? {
      var t := s.(order := s.order + [id], queue := s.queue + [id]);
      Reassociate(s.started, s.queue, [id]);
      RescheduleKeeps(t);
    }
  }

  lemma FreeSlot(slots: Slots, i: nat)
    requires i < |slots| && slots[i].Some?
    ensures Running(slots) == Running(slots[i := None]) + multiset{slots[i].value}
  {
    RunningSet(slots[i := None], i, slots[i].value);
    assert slots[i := None][i := Some(slots[i].value)] == slots;
  }

  lemma FinishKeeps(s: State, i: nat)
    requires Inv(s) && i < |s.slots| && s.slots[i].Some?
    ensures Inv(Finish(s, i)) && |Finish(s, i).slots| == |s.slots|
    ensures Outstanding(Finish(s, i)) == Outstanding(s) - 1
    ensures Finish(s, i).settled == s.settled + [s.slots[i].value]
    ensures if Idle(Finish(s, i)) then Finish(s, i).released == s.released + s.waiters && Finish(s, i).waiters == []
      else Finish(s, i).released == s.released && Finish(s, i).waiters == s.waiters
  {
    var t := s.(slots := s.slots[i := None], settled := s.settled + [s.slots[i].value]);
    FreeSlot(s.slots, i);
    assert Counted(t);
    var u := Notified(t);
    assert Counted(u);
    RescheduleKeeps(u);
  }

  /** Every step keeps the invariant. */
  lemma NextKeeps(s: State, policy: Policy, e: Event)
    requires Inv(s) && Possible(s, e)
    ensures Inv(Next(s, policy, e)) && |Next(s, policy, e).slots| == |s.slots|
  {
    match e
    case Submits(id) => SubmitKeeps(s, policy, id);
    case Finishes(i) => FinishKeeps(s, i);
    case ShutsDown(_) =>
  }

  // ---- runs

  ghost predicate IsRun(states: seq<State>, policy: Policy, events: seq<Event>, slotCount: nat) {
    && slotCount > 0
    && |states| == |events| + 1 && states[0] == Init(slotCount)
    && forall i {:trigger events[i]} :: 0 <= i < |events| ==>
         Possible(states[i], events[i]) && states[i + 1] == Next(states[i], policy, events[i])
  }

  lemma {:induction false} RunKeepsInv(states: seq<State>, policy: Policy, events: seq<Event>, slotCount: nat, i: nat)
    requires IsRun(states, policy, events, slotCount) && i <= |events|
    ensures Inv(states[i]) && |states[i].slots| == slotCount
  {
    if i == 0 {
      InitInv(slotCount);
    } else {
      RunKeepsInv(states, policy, events, slotCount, i - 1);
      var e := events[i - 1];
      NextKeeps(states[i - 1], policy, e);
    }
  }

  /** The ids of the slots that are in use. */
  function Occupants(slots: Slots): set<Str> {
    set i | 0 <= i < |slots| && slots[i].Some? :: slots[i].value
  }

  lemma {:induction false} RunningOccupants(slots: Slots, id: Str)
    ensures id in Running(slots) <==> id in Occupants(slots)
  {
    if |slots| > 0 {
      var n := |slots| - 1;
      RunningOccupants(slots[..n], id);
      assert forall i :: 0 <= i < n ==> slots[..n][i] == slots[i];
      if id in Occupants(slots) {
        var i :| 0 <= i < |slots| && slots[i].Some? && slots[i].value == id;
        assert i < n ==> slots[..n][i] == slots[i];
      }
    }
  }

  /** The id was admitted and is in exactly one of the three places, once. */
  ghost predicate InOnePlace(s: State, id: Str) {
    && (id in s.order <==> id in s.queue || id in Occupants(s.slots) || id in s.settled)
    && !(id in s.queue && id in Occupants(s.slots))
    && !(id in s.queue && id in s.settled)
    && !(id in Occupants(s.slots) && id in s.settled)
    && multiset(s.queue)[id] <= 1 && Running(s.slots)[id] <= 1 && multiset(s.settled)[id] <= 1
  }

  lemma OnePlace(s: State, id: Str)
    requires Inv(s)
    ensures InOnePlace(s, id)
  {
    RunningOccupants(s.slots, id);
    CountByNoDuplicates(s.order);
    assert multiset(s.order) == multiset(s.started) + multiset(s.queue);
    assert multiset(s.order)[id] == multiset(s.settled)[id] + Running(s.slots)[id] + multiset(s.queue)[id];
    assert multiset(s.order)[id] <= 1;
    assert id in s.order <==> id in multiset(s.order);
    assert id in s.settled <==> id in multiset(s.settled);
    assert id in s.queue <==> id in multiset(s.queue);
  }

  /**
   In every run and at every moment: at most `slotCount` jobs execute, jobs have started in
   the order of admission, no slot is idle while a job is queued, every admitted id is in
   exactly one of queue, slots and settled, and no shutdown call waits in an idle pool.
   */
  lemma PoolSafety(states: seq<State>, policy: Policy, events: seq<Event>, slotCount: nat, i: nat)
    requires IsRun(states, policy, events, slotCount) && i <= |events|
    ensures |Running(states[i].slots)| <= slotCount
    ensures states[i].started <= states[i].order
    ensures |states[i].queue| > 0 ==> AllBusy(states[i].slots)
    ensures forall id :: InOnePlace(states[i], id)
    ensures Idle(states[i]) ==> states[i].waiters == []
  {
    RunKeepsInv(states, policy, events, slotCount, i);
    RunningEmpty(states[i].slots);
    forall id
      ensures InOnePlace(states[i], id)
    {
      OnePlace(states[i], id);
    }
  }

  // ---- who is admitted

  predicate ShutBefore(events: seq<Event>, n: nat) {
    exists i :: 0 <= i < n && i < |events| && events[i].ShutsDown?
  }

  predicate SubmittedBefore(events: seq<Event>, id: Str, n: nat) {
    exists i :: 0 <= i < n && i < |events| && events[i] == Submits(id)
  }

  /** The ids submitted before the first shutdown, each once, in the order of their first submission. */
  function FirstSubmissions(events: seq<Event>, n: nat): seq<Str>
    requires n <= |events|
  {
    if n == 0 then []
    else
      var before := FirstSubmissions(events, n - 1);
      match events[n - 1]
      case Submits(id) =>
        if ShutBefore(events, n - 1) || SubmittedBefore(events, id, n - 1) then before else before + [id]
      case _ => before
  }

  lemma {:induction false} FirstSubmissionsAre(events: seq<Event>, n: nat, id: Str)
    requires n <= |events| && !ShutBefore(events, n)
    ensures id in FirstSubmissions(events, n) <==> SubmittedBefore(events, id, n)
  {
    if n > 0 {
      assert !ShutBefore(events, n - 1);
      FirstSubmissionsAre(events, n - 1, id);
      assert SubmittedBefore(events, id, n) <==> SubmittedBefore(events, id, n - 1) || events[n - 1] == Submits(id);
    }
  }

  lemma {:induction false} ShuttingDownSince(
    states: seq<State>, policy: Policy, events: seq<Event>, slotCount: nat, i: nat)
    requires IsRun(states, policy, events, slotCount) && i <= |events|
    ensures states[i].shuttingDown <==> ShutBefore(events, i)
  {
    if i > 0 {
      ShuttingDownSince(states, policy, events, slotCount, i - 1);
      assert ShutBefore(events, i) <==> ShutBefore(events, i - 1) || events[i - 1].ShutsDown?;
      StepFlags(states[i - 1], policy, events[i - 1]);
    }
  }

  /** What one step does to the flag and to the list of the admitted. */
  lemma StepFlags(s: State, policy: Policy, e: Event)
    requires Possible(s, e)
    ensures var s' := Next(s, policy, e);
      && s'.shuttingDown == (s.shuttingDown || e.ShutsDown?)
      && s'.order ==
         if e.Submits? && !s.shuttingDown && policy.fake == policy.allowFake && e.id !in s.order
         then s.order + [e.id] else s.order
  {
  }

  /**
   Everything that is submitted in time is admitted. Under a fitting policy the admitted jobs are,
   at any time, exactly the ids submitted before the first shutdown, in the order of their first
   submission; under any other policy there are none.
   */
  lemma {:induction false} AdmittedExactly(
    states: seq<State>, policy: Policy, events: seq<Event>, slotCount: nat, i: nat)
    requires IsRun(states, policy, events, slotCount) && i <= |events|
    ensures states[i].order == if policy.fake == policy.allowFake then FirstSubmissions(events, i) else []
  {
    if i > 0 {
      AdmittedExactly(states, policy, events, slotCount, i - 1);
      ShuttingDownSince(states, policy, events, slotCount, i - 1);
      StepFlags(states[i - 1], policy, events[i - 1]);
      if events[i - 1].Submits? && !ShutBefore(events, i - 1) {
        FirstSubmissionsAre(events, i - 1, events[i - 1].id);
      }
    }
  }

  /** Which of the five answers a submission gets, told from the events before it. */
  lemma SubmissionAnswered(
    states: seq<State>, policy: Policy, events: seq<Event>, slotCount: nat, i: nat)
    requires IsRun(states, policy, events, slotCount) && i < |events| && events[i].Submits?
    ensures Verdict(states[i], policy, events[i].id) ==
      if exists k :: 0 <= k < i && events[k].ShutsDown? then ShuttingDown
      else if policy.fake && !policy.allowFake then FakeAdapterRejected
      else if !policy.fake && policy.allowFake then RequiresFakeAdapter
      else if exists k :: 0 <= k < i && events[k] == events[i] then DuplicateAttemptId
      else Queued
  {
    ShuttingDownSince(states, policy, events, slotCount, i);
    AdmittedExactly(states, policy, events, slotCount, i);
    if !ShutBefore(events, i) {
      FirstSubmissionsAre(events, i, events[i].id);
    }
    assert ShutBefore(events, i) <==> exists k :: 0 <= k < i && events[k].ShutsDown?;
    assert SubmittedBefore(events, events[i].id, i) <==> exists k :: 0 <= k < i && events[k] == events[i];
  }

  /** Jobs that are admitted but not settled. */
  function Outstanding(s: State): nat {
    |s.queue| + |Running(s.slots)|
  }

  lemma OutstandingIdle(s: State)
    ensures Outstanding(s) == 0 <==> Idle(s)
  {
    RunningEmpty(s.slots);
  }

  /** A waiter is released only by a step that leaves the pool idle, and then all waiters are. */
  lemma ReleasedOnlyAtIdle(states: seq<State>, policy: Policy, events: seq<Event>, slotCount: nat, i: nat)
    requires IsRun(states, policy, events, slotCount) && i < |events|
    requires states[i + 1].released != states[i].released
    ensures Idle(states[i + 1]) && states[i + 1].waiters == []
    ensures states[i].released <= states[i + 1].released
    ensures events[i].Finishes? ==> states[i + 1].released == states[i].released + states[i].waiters
  {
    RunKeepsInv(states, policy, events, slotCount, i);
    var e := events[i];
    StepReleases(states[i], policy, e);
  }

  lemma StepReleases(s: State, policy: Policy, e: Event)
    requires Inv(s) && Possible(s, e) && Next(s, policy, e).released != s.released
    ensures var s' := Next(s, policy, e);
      && Idle(s') && s'.waiters == [] && s.released <= s'.released
      && (e.Finishes? ==> s'.released == s.released + s.waiters)
  {
    NextKeeps(s, policy, e);
    match e
    case Finishes(slot) => FinishKeeps(s, slot);
    case _ =>
  }

  /** A shutdown call is never lost: it waits or has been released. */
  lemma {:induction false} ShutdownWaitsOrReturned(
    states: seq<State>, policy: Policy, events: seq<Event>, slotCount: nat, i: nat, j: nat)
    requires IsRun(states, policy, events, slotCount) && i < j <= |events| && events[i].ShutsDown?
    ensures states[j].shuttingDown
    ensures events[i].waiter in states[j].waiters || events[i].waiter in states[j].released
    decreases j - i
  {
    RunKeepsInv(states, policy, events, slotCount, j - 1);
    if i < j - 1 {
      ShutdownWaitsOrReturned(states, policy, events, slotCount, i, j - 1);
    }
    var e := events[j - 1];
    match e
    case Finishes(slot) => FinishKeeps(states[j - 1], slot);
    case _ =>
  }

  function EndsIn(events: seq<Event>): nat {
    if |events| == 0 then 0
    else EndsIn(events[..|events| - 1]) + if events[|events| - 1].Finishes? then 1 else 0
  }

  lemma EndsInSnoc(events: seq<Event>, i: nat, j: nat)
    requires i < j <= |events|
    ensures EndsIn(events[i..j]) == EndsIn(events[i..j - 1]) + if events[j - 1].Finishes? then 1 else 0
  {
    assert events[i..j][..j - 1 - i] == events[i..j - 1] && events[i..j][j - 1 - i] == events[j - 1];
  }

  lemma StepDrains(s: State, policy: Policy, e: Event)
    requires Inv(s) && Possible(s, e) && s.shuttingDown
    ensures var s' := Next(s, policy, e);
      && s'.shuttingDown && s'.order == s.order
      && Outstanding(s') == Outstanding(s) - if e.Finishes? then 1 else 0
  {
    match e
    case Finishes(slot) => FinishKeeps(s, slot);
    case _ =>
  }

  /** After a shutdown nothing is admitted any more, and every job that ends brings the pool closer to idle. */
  lemma {:induction false} ShutdownDrains(
    states: seq<State>, policy: Policy, events: seq<Event>, slotCount: nat, i: nat, j: nat)
    requires IsRun(states, policy, events, slotCount) && i <= j <= |events| && states[i].shuttingDown
    ensures states[j].shuttingDown && states[j].order == states[i].order
    ensures Outstanding(states[j]) == Outstanding(states[i]) - EndsIn(events[i..j])
    decreases j - i
  {
    if i < j {
      ShutdownDrains(states, policy, events, slotCount, i, j - 1);
      RunKeepsInv(states, policy, events, slotCount, j - 1);
      EndsInSnoc(events, i, j);
      var e := events[j - 1];
      StepDrains(states[j - 1], policy, e);
    }
  }

  /**
   Shutdown is graceful: once as many jobs have ended as were outstanding when it was called,
   every admitted job is settled and every shutdown call is released.
   */
  lemma ShutdownCompletes(
    states: seq<State>, policy: Policy, events: seq<Event>, slotCount: nat, i: nat, j: nat)
    requires IsRun(states, policy, events, slotCount) && i < j <= |events| && events[i].ShutsDown?
    requires EndsIn(events[i + 1..j]) >= Outstanding(states[i])
    ensures Idle(states[j]) && multiset(states[j].settled) == multiset(states[j].order)
    ensures events[i].waiter in states[j].released
  {
    assert states[i + 1].shuttingDown && Outstanding(states[i + 1]) == Outstanding(states[i]);
    ShutdownDrains(states, policy, events, slotCount, i + 1, j);
    ShutdownWaitsOrReturned(states, policy, events, slotCount, i, j);
    RunKeepsInv(states, policy, events, slotCount, j);
    OutstandingIdle(states[j]);
    RunningEmpty(states[j].slots);
    assert states[j].order == states[j].started;
  }

  /** While a job is outstanding some job is running, so the pool can always go on to the idle state. */
  lemma SomethingRuns(states: seq<State>, policy: Policy, events: seq<Event>, slotCount: nat, i: nat)
    requires IsRun(states, policy, events, slotCount) && i <= |events| && Outstanding(states[i]) > 0
    ensures exists slot :: Possible(states[i], Finishes(slot))
  {
    RunKeepsInv(states, policy, events, slotCount, i);
    OutstandingIdle(states[i]);
    var s := states[i];
    if |s.queue| > 0 {
      assert Possible(s, Finishes(0));
    } else {
      var slot :| 0 <= slot < |s.slots| && s.slots[slot].Some?;
      assert Possible(s, Finishes(slot));
    }
  }
}
