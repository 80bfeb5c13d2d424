/** The periodic alarm interrupt handler: it rearms the alarm, then wakes
    every suspended future whose deadline has passed. */
module Alarm {
  import opened Wrappers
  import opened Platform
  import opened Sharedstate
  import opened Future

  /** The slots a sweep at time `now` wakes, in the order it visits them:
      those holding a `Pending` entry whose deadline is at most `now`. */
  function ExpiredIn(s: seq<WakerSlot>, now: U64): (r: seq<nat>)
    ensures forall k :: 0 <= k < |r| ==> r[k] < |s| && s[r[k]].Pending? && s[r[k]].deadline <= now
    decreases |s|
  {
    if s == [] then []
    else
      var last := |s| - 1;
      ExpiredIn(s[..last], now) + if s[last].Pending? && s[last].deadline <= now then [last] else []
  }

  /** Every expired `Pending` slot is woken; `Empty` and `Reserved` slots
      never are (the converse is in the contract of ExpiredIn). */
  lemma {:induction false} ExpiredInComplete(s: seq<WakerSlot>, now: U64)
    ensures forall i :: 0 <= i < |s| ==> (i in ExpiredIn(s, now) <==> s[i].Pending? && s[i].deadline <= now)
    decreases |s|
  {
    if s != [] {
      var last := |s| - 1;
      ExpiredInComplete(s[..last], now);
      assert forall i :: 0 <= i < last ==> s[..last][i] == s[i];
    }
  }

  /** Slots are woken in ascending index order, so each at most once. */
  lemma {:induction false} ExpiredInAscending(s: seq<WakerSlot>, now: U64)
    ensures forall k, l :: 0 <= k < l < |ExpiredIn(s, now)| ==> ExpiredIn(s, now)[k] < ExpiredIn(s, now)[l]
    decreases |s|
  {
    if s != [] {
      var last := |s| - 1;
      ExpiredInAscending(s[..last], now);
    }
  }

  /** The wake sweep: visit every slot in index order and wake the waker of
      each `Pending` slot whose deadline is at most `now`, without changing
      any slot. Returns the wakers woken, in order. */
  method WakeExpired(slots: array<WakerSlot>, now: U64) returns (woken: seq<Waker>)
    ensures |woken| == |ExpiredIn(slots[..], now)|
    ensures forall k :: 0 <= k < |woken| ==> woken[k] == slots[ExpiredIn(slots[..], now)[k]].waker
  {
    woken := [];
    var i := 0;
    while i < slots.Length
      invariant 0 <= i <= slots.Length
      invariant |woken| == |ExpiredIn(slots[..i], now)|
      invariant forall k :: 0 <= k < |woken| ==> woken[k] == slots[ExpiredIn(slots[..i], now)[k]].waker
    {
      assert slots[..i + 1][..i] == slots[..i];
      match slots[i] {
        case Pending(waker, deadline) =>
          if now >= deadline {
            woken := woken + [waker];
          }
        case _ =>
      }
      i := i + 1;
    }
    assert slots[..i] == slots[..];
  }

  /** `irq_handler`: clear and rearm the alarm with the stored interval, then
      sweep the pool at the single time snapshot `now`. `rearmAccepted` is the
      alarm's answer to being rearmed; a refusal is fatal before any slot is
      looked at. The pool is never changed. */
  method IrqHandler(g: Globals, now: U64, rearmAccepted: bool) returns (r: Outcome<seq<Waker>>)
    requires g.Valid()
    modifies g
    ensures g.Valid() && g.shared == old(g.shared)
    ensures g.pool.slots[..] == old(g.pool.slots[..]) && g.pool.Live == old(g.pool.Live)
    ensures g.shared.None? ==> r == Panic("failed to access shared state") && g.events == old(g.events)
    ensures g.shared.Some? ==>
      && g.events == old(g.events) + [ClearInterrupt(g.shared.value.alarm), Arm(g.shared.value.alarm, g.shared.value.interval)]
      && (!rearmAccepted ==> r == Panic("failed to reschedule alarm"))
      && (rearmAccepted ==> r.Done?)
      && (rearmAccepted ==> |r.value| == |ExpiredIn(g.pool.slots[..], now)|)
      && (rearmAccepted ==>
            forall k :: 0 <= k < |r.value| ==> r.value[k] == g.pool.slots[ExpiredIn(g.pool.slots[..], now)[k]].waker)
  {
    if g.shared.None? {
      return Panic("failed to access shared state");
    }
    var shared := g.shared.value;
    g.events := g.events + [ClearInterrupt(shared.alarm)];
    g.events := g.events + [Arm(shared.alarm, shared.interval)];
    if !rearmAccepted {
      return Panic("failed to reschedule alarm");
    }
    var woken := WakeExpired(g.pool.slots, now);
    return Done(woken);
  }

  /** A future polled several times while not ready, then swept at `now`, is
      woken exactly when its deadline has passed, and then through the waker
      of its latest poll. */
  lemma ReRegisteredWakesLatest(s: seq<WakerSlot>, slot: nat, deadline: U64, wakers: seq<Waker>, now: U64)
    requires slot < |s| && wakers != []
    ensures var t := Register(s, slot, deadline, wakers);
            && (slot in ExpiredIn(t, now) <==> deadline <= now)
            && t[slot] == WakerSlot.Pending(wakers[|wakers| - 1], deadline)
  {
    LastWriteWins(s, slot, deadline, wakers);
    ExpiredInComplete(Register(s, slot, deadline, wakers), now);
  }
}
