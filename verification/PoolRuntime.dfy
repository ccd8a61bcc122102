/** The pool as the object its callers hold (src/domains/agent-execution/minimal-pool-runtime.ts). */
module PoolRuntime {
  import opened Text
  import opened Wrappers
  import opened Pool

  class MinimalPoolRuntime {
    const policy: Policy
    var queue: seq<Str>
    const slots: array<Option<Str>>
    var admitted: set<Str>
    var shuttingDown: bool
    var idleWaiters: seq<nat>

    /** The history that the rest of the program has seen. */
    ghost var order: seq<Str>
    ghost var started: seq<Str>
    ghost var settled: seq<Str>
    ghost var released: seq<nat>

    ghost function View(): State
      reads this, slots
    {
      State(queue, slots[..], shuttingDown, idleWaiters, order, started, settled, released)
    }

    ghost predicate Valid()
      reads this, slots
    {
      Inv(View()) && admitted == ToSet(order)
    }

    constructor (slotCount: nat, policy: Policy)
      requires slotCount > 0
      ensures Valid() && View() == Init(slotCount) && this.policy == policy && fresh(slots)
    {
      this.policy := policy;
      queue, admitted, shuttingDown, idleWaiters := [], {}, false, [];
      slots := new Option<Str>[slotCount](_ => None);
      order, started, settled, released := [], [], [], [];
      new;
      assert slots[..] == Init(slotCount).slots;
      InitInv(slotCount);
    }

    method AllSlotsIdle() returns (r: bool)
      ensures r <==> AllIdle(slots[..])
    {
      for i := 0 to slots.Length
        invariant forall j :: 0 <= j < i ==> slots[j].None?
      {
        if slots[i].Some? {
          assert slots[..][i].Some?;
          return false;
        }
      }
      return true;
    }

    method NotifyWaiters()
      modifies this`idleWaiters, this`released
      ensures View() == Notified(old(View()))
    {
      var allIdle := AllSlotsIdle();
      if |queue| == 0 && allIdle {
        released := released + idleWaiters;
        idleWaiters := [];
      }
    }

    /** Starts queued jobs in the idle slots, lowest slot first. */
    method Schedule()
      modifies this`queue, this`started, slots
      ensures View() == Rescheduled(old(View()))
    {
      ghost var whole := Pool.Schedule(queue, slots[..], started, 0);
      var i := 0;
      while i < slots.Length
        invariant 0 <= i <= slots.Length
        invariant Pool.Schedule(queue, slots[..], started, i) == whole
      {
        if slots[i].None? {
          if |queue| == 0 {
            break;
          }
          ghost var slots' := slots[..][i := Some(queue[0])];
          slots[i] := Some(queue[0]);
          assert slots[..] == slots';
          started := started + [queue[0]];
          queue := queue[1..];
        }
        i := i + 1;
      }
    }

    method Submit(id: Str) returns (r: Submitted)
      requires Valid()
      modifies this`queue, this`admitted, this`order, this`started, slots
      ensures Valid() && View() == Pool.Submit(old(View()), policy, id)
      ensures r == Verdict(old(View()), policy, id)
    {
      SubmitKeeps(View(), policy, id);
      if shuttingDown {
        return ShuttingDown;
      }
      if policy.fake && !policy.allowFake {
        return FakeAdapterRejected;
      }
      if !policy.fake && policy.allowFake {
        return RequiresFakeAdapter;
      }
      if id in admitted {
        return DuplicateAttemptId;
      }
      admitted := admitted + {id};
      order := order + [id];
      queue := queue + [id];
      Schedule();
      return Queued;
    }

    /** The tail of `runSlot`, when the job of slot `i` has its result. */
    method Finish(i: nat)
      requires Valid() && i < slots.Length && slots[i].Some?
      modifies this`queue, this`started, this`settled, this`idleWaiters, this`released, slots
      ensures Valid() && View() == Pool.Finish(old(View()), i)
    {
      ghost var s := View();
      FinishKeeps(s, i);
      ghost var freed := s.(slots := s.slots[i := None], settled := s.settled + [s.slots[i].value]);
      settled := settled + [slots[i].value];
      slots[i] := None;
      assert View() == freed;
      NotifyWaiters();
      Schedule();
      assert View() == Rescheduled(Notified(freed));
    }

    /** Returns at once in an idle pool; otherwise the call waits. */
    method Shutdown(waiter: nat) returns (waits: bool)
      requires Valid()
      modifies this`shuttingDown, this`idleWaiters, this`released
      ensures Valid() && View() == Pool.Shutdown(old(View()), waiter)
      ensures waits <==> !Idle(old(View()))
    {
      NextKeeps(View(), policy, ShutsDown(waiter));
      shuttingDown := true;
      var allIdle := AllSlotsIdle();
      waits := |queue| > 0 || !allIdle;
      if waits {
        idleWaiters := idleWaiters + [waiter];
      } else {
        released := released + [waiter];
      }
    }
  }
}
