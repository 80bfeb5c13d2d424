/** Two client runs, checked against the contracts alone: filling a pool of
    two slots, and one 25 ms delay serviced by a 10 ms alarm. */
module Scenarios {
  import opened Wrappers
  import opened Platform
  import opened Sharedstate
  import opened Future
  import opened Scheduler
  import opened Alarm

  /** Two futures fill a two-slot pool, a third cannot be scheduled, and after
      the first is dropped its slot is handed out again. */
  method CapacityTwo() {
    var g := new Globals(2);
    var created := New(g, 0, 7, Duration(0, 10_000_000), true);
    assert created == Done(DelayScheduler(7));
    var sched := created.value;
    assert g.pool.slots[..] == [Empty, Empty];

    var first := Schedule(sched, g, Duration(1, 0), 0);
    assert first == Done(DelayFuture(1_000_000, 7, 0));
    assert g.pool.slots[..] == [Reserved, Empty];

    var second := Schedule(sched, g, Duration(1, 0), 0);
    assert second == Done(DelayFuture(1_000_000, 7, 1));
    assert g.pool.slots[..] == [Reserved, Reserved];

    var third := Schedule(sched, g, Duration(1, 0), 0);
    assert third == Panic("failed to allocate waker slot");

    var dropped := Drop(first.value, g);
    assert g.pool.slots[..] == [Empty, Reserved];

    var fourth := Schedule(sched, g, Duration(1, 0), 0);
    assert fourth.Done? && fourth.value.slot == 0;
  }

  /** A 25 ms delay scheduled at time 0 with a 10 ms resolution is not ready
      at 0, 10 ms and 20 ms, its waker is woken once, by the sweep at 30 ms,
      and it is ready at 30 ms. */
  method DelayOfTwentyFiveMillis(waker: Waker) {
    var g := new Globals(1);
    var created := New(g, 0, 7, Duration(0, 10_000_000), true);
    assert g.shared == Some(SharedState(10_000, 7, 0));
    var sched := created.value;
    assert g.pool.slots[..] == [Empty];

    var scheduled := Schedule(sched, g, Duration(0, 25_000_000), 0);
    assert scheduled == Done(DelayFuture(25_000, 7, 0));
    var fut := scheduled.value;

    var polled := Poll(fut, g, 0, waker);
    assert polled == Done(PollStatus.Pending);
    var swept := SweepOnce(g, waker, 10_000);
    assert swept == Done([]);

    polled := Poll(fut, g, 10_000, waker);
    assert polled == Done(PollStatus.Pending);
    swept := SweepOnce(g, waker, 20_000);
    assert swept == Done([]);

    polled := Poll(fut, g, 20_000, waker);
    assert polled == Done(PollStatus.Pending);
    swept := SweepOnce(g, waker, 30_000);
    assert swept == Done([waker]);

    polled := Poll(fut, g, 30_000, waker);
    assert polled == Done(Ready);
    var dropped := Drop(fut, g);
    assert g.pool.slots[..] == [Empty];
  }

  /** One alarm tick over a one-slot pool whose slot waits for 25 ms. */
  method SweepOnce(g: Globals, waker: Waker, now: U64) returns (swept: Outcome<seq<Waker>>)
    requires g.Valid() && g.shared.Some?
    requires g.pool.slots[..] == [WakerSlot.Pending(waker, 25_000)]
    modifies g
    ensures g.Valid() && g.shared == old(g.shared)
    ensures g.pool.slots[..] == old(g.pool.slots[..])
    ensures swept == Done(if now >= 25_000 then [waker] else [])
  {
    assert g.pool.slots[..][..0] == [];
    assert ExpiredIn(g.pool.slots[..], now) == if now >= 25_000 then [0] else [];
    swept := IrqHandler(g, now, true);
    assert swept.value == if now >= 25_000 then [waker] else [];
  }
}
