/** The delay future: it owns one waker slot from creation until it is
    dropped, is ready once its deadline has passed, and otherwise publishes
    its waker into its slot. */
module Future {
  import opened Wrappers
  import opened Platform
  import opened Sharedstate

  /** `DelayFuture`: the absolute deadline in microseconds since the timer's
      epoch, the timer handle and the index of the owned slot. The fields are
      never changed after creation. */
  datatype DelayFuture = DelayFuture(deadline: U64, timer: TimerId, slot: nat)

  /** `core::task::Poll<()>`. */
  datatype PollStatus = Ready | Pending

  /** `Future::poll`. Ready once `now` has reached the deadline, leaving the
      pool alone; otherwise registers `waker` in the future's own slot,
      replacing whatever the slot held. */
  method Poll(fut: DelayFuture, g: Globals, now: U64, waker: Waker) returns (r: Outcome<PollStatus>)
    requires g.Valid()
    modifies g.pool, g.pool.slots
    ensures g.Valid()
    ensures r == Done(Ready) <==> now >= fut.deadline
    ensures now >= fut.deadline ==> g.pool.slots[..] == old(g.pool.slots[..]) && g.pool.Live == old(g.pool.Live)
    ensures now < fut.deadline && g.shared.None? ==>
      r == Panic("failed to access shared state") && g.pool.slots[..] == old(g.pool.slots[..])
    ensures now < fut.deadline && g.shared.Some? && fut.slot >= g.pool.slots.Length ==>
      r == Panic("invalid waker slot index") && g.pool.slots[..] == old(g.pool.slots[..])
    ensures now < fut.deadline && g.shared.Some? && fut.slot < g.pool.slots.Length ==>
      && r == Done(PollStatus.Pending)
      && g.pool.slots[..] == old(g.pool.slots[..])[fut.slot := WakerSlot.Pending(waker, fut.deadline)]
      && g.pool.Live == old(g.pool.Live) + {fut.slot}
  {
    if now >= fut.deadline {
      return Done(Ready);
    }
    if g.shared.None? {
      return Panic("failed to access shared state");
    }
    var register: WakerSlot -> (WakerSlot, ()) := _ => (WakerSlot.Pending(waker, fut.deadline), ());
    var res := g.pool.Slot(fut.slot, register);
    if res.Err? {
      return Panic("invalid waker slot index");
    }
    LiveSetUpdate(old(g.pool.slots[..]), fut.slot, WakerSlot.Pending(waker, fut.deadline));
    return Done(PollStatus.Pending);
  }

  /** `Drop::drop`: release the owned slot, whatever it held. */
  method Drop(fut: DelayFuture, g: Globals) returns (r: Outcome<()>)
    requires g.Valid()
    modifies g.pool, g.pool.slots
    ensures g.Valid()
    ensures g.shared.None? ==>
      r == Panic("failed to access shared state") && g.pool.slots[..] == old(g.pool.slots[..])
    ensures g.shared.Some? && fut.slot >= g.pool.slots.Length ==>
      r == Panic("invalid waker slot index") && g.pool.slots[..] == old(g.pool.slots[..])
    ensures g.shared.Some? && fut.slot < g.pool.slots.Length ==>
      && r == Done(())
      && g.pool.slots[..] == old(g.pool.slots[..])[fut.slot := Empty]
      && g.pool.Live == old(g.pool.Live) - {fut.slot}
  {
    if g.shared.None? {
      return Panic("failed to access shared state");
    }
    var release: WakerSlot -> (WakerSlot, ()) := _ => (Empty, ());
    var res := g.pool.Slot(fut.slot, release);
    if res.Err? {
      return Panic("invalid waker slot index");
    }
    LiveSetUpdate(old(g.pool.slots[..]), fut.slot, Empty);
    return Done(());
  }

  /** The pool after a run of polls that each took the not-ready path, with
      the wakers `wakers` in order, on a future owning `slot`. */
  function Register(s: seq<WakerSlot>, slot: nat, deadline: U64, wakers: seq<Waker>): (r: seq<WakerSlot>)
    requires slot < |s|
    ensures |r| == |s|
    ensures forall j :: 0 <= j < |s| && j != slot ==> r[j] == s[j]
    decreases |wakers|
  {
    if wakers == [] then s
    else Register(s[slot := WakerSlot.Pending(wakers[0], deadline)], slot, deadline, wakers[1..])
  }

  /** Last write wins: after several registrations only the latest waker is
      stored, and no other slot is touched. */
  lemma {:induction false} LastWriteWins(s: seq<WakerSlot>, slot: nat, deadline: U64, wakers: seq<Waker>)
    requires slot < |s| && wakers != []
    decreases |wakers|
    ensures Register(s, slot, deadline, wakers) == s[slot := WakerSlot.Pending(wakers[|wakers| - 1], deadline)]
  {
    var t := s[slot := WakerSlot.Pending(wakers[0], deadline)];
    if |wakers| > 1 {
      LastWriteWins(t, slot, deadline, wakers[1..]);
      assert t[slot := WakerSlot.Pending(wakers[|wakers| - 1], deadline)]
          == s[slot := WakerSlot.Pending(wakers[|wakers| - 1], deadline)];
    }
  }

  /** Scheduling a future and dropping it gives the pool back exactly as it
      was, whatever polls happened in between. */
  lemma ScheduleThenDropRestores(s: seq<WakerSlot>, deadline: U64, wakers: seq<Waker>)
    requires FirstEmpty(s).Some?
    ensures var i := FirstEmpty(s).value;
            Register(s[i := Reserved], i, deadline, wakers)[i := Empty] == s
  {
    var i := FirstEmpty(s).value;
    if wakers != [] {
      LastWriteWins(s[i := Reserved], i, deadline, wakers);
    }
    assert s[i := Empty] == s;
  }
}
