/** The scheduler handle: it installs the shared state and arms the periodic
    alarm, and creates delay futures bound to a requested timeout. */
module Scheduler {
  import opened Wrappers
  import opened Platform
  import opened Sharedstate
  import opened Future

  /** `DelayScheduler`: a copyable handle holding only the timer. */
  datatype DelayScheduler = DelayScheduler(timer: TimerId)

  /** The alarm period for a requested resolution, in microseconds: the
      resolution rounded down to a whole millisecond. Fatal when the
      millisecond count does not fit in a `u32` (the source's message says
      "too low" although the failing resolutions are the large ones). */
  function IntervalOf(resolution: Duration): (r: Outcome<nat>)
    ensures r.Done? <==> TotalNanos(resolution) < (U32_MAX + 1) * NANOS_PER_MILLI
    ensures r.Panic? ==> r.message == "resolution is too low"
    ensures r.Done? ==> r.value % MICROS_PER_MILLI == 0
    ensures r.Done? ==> r.value * 1_000 <= TotalNanos(resolution) < (r.value + MICROS_PER_MILLI) * 1_000
  {
    var millis := AsMillis(resolution);
    if millis <= U32_MAX then Done(millis * MICROS_PER_MILLI) else Panic("resolution is too low")
  }

  /** The deadline of a future created at `now` for `timeout`, in microseconds:
      `now` plus the timeout rounded down to a whole millisecond. Fatal when
      the millisecond count does not fit in a `u64` or the sum overflows a
      `u64`. */
  function DeadlineOf(now: U64, timeout: Duration): (r: Outcome<U64>)
    ensures r.Done? <==> now + MICROS_PER_MILLI * AsMillis(timeout) <= U64_MAX
    ensures r.Panic? ==> r.message == "timeout is too large"
    ensures r.Done? ==> r.value >= now && (r.value - now) % MICROS_PER_MILLI == 0
    ensures r.Done? ==> (r.value - now) * 1_000 <= TotalNanos(timeout) < (r.value - now + MICROS_PER_MILLI) * 1_000
  {
    var millis := AsMillis(timeout);
    if millis > U64_MAX then Panic("timeout is too large")
    else
      var micros := millis * MICROS_PER_MILLI;
      if now + micros > U64_MAX then Panic("timeout is too large") else Done(now + micros)
  }

  /** A future scheduled at `now` is ready at time `t` exactly when `t` is at
      least the whole milliseconds of the timeout past `now`. */
  lemma ReadyExactlyAfterTimeout(now: U64, timeout: Duration, t: U64)
    requires DeadlineOf(now, timeout).Done?
    ensures t >= DeadlineOf(now, timeout).value <==> t >= now && (t - now) * 1_000 >= AsMillis(timeout) * 1_000_000
  {
  }

  /** `DelayScheduler::new`: install the shared state, replacing any earlier
      one, then unmask the alarm's interrupt, enable it and arm it with the
      interval. `armAccepted` is the alarm's answer to being armed. */
  method New(g: Globals, alarm: AlarmId, timer: TimerId, resolution: Duration, armAccepted: bool)
    returns (r: Outcome<DelayScheduler>)
    modifies g
    ensures IntervalOf(resolution).Panic? ==>
      r == Panic("resolution is too low") && g.shared == old(g.shared) && g.events == old(g.events)
    ensures IntervalOf(resolution).Done? ==>
      var interval := IntervalOf(resolution).value;
      && g.shared == Some(SharedState(interval, timer, alarm))
      && g.events == old(g.events) + [UnmaskIrq(alarm), EnableInterrupt(alarm), Arm(alarm, interval)]
      && r == if armAccepted then Done(DelayScheduler(timer)) else Panic("failed to schedule alarm")
  {
    var converted := IntervalOf(resolution);
    if converted.Panic? {
      return Panic(converted.message);
    }
    var interval := converted.value;
    g.shared := Some(SharedState(interval, timer, alarm));
    var shared := g.shared.value;
    g.events := g.events + [UnmaskIrq(shared.alarm)];
    g.events := g.events + [EnableInterrupt(shared.alarm)];
    g.events := g.events + [Arm(shared.alarm, interval)];
    if !armAccepted {
      return Panic("failed to schedule alarm");
    }
    return Done(DelayScheduler(timer));
  }

  /** `DelayScheduler::schedule`: reserve the first empty slot, then compute
      the deadline from `now`. A deadline failure comes after the slot was
      reserved, and no future is made. */
  method Schedule(sched: DelayScheduler, g: Globals, timeout: Duration, now: U64)
    returns (r: Outcome<DelayFuture>)
    requires g.Valid()
    modifies g.pool, g.pool.slots
    ensures g.Valid()
    ensures g.shared.None? ==>
      r == Panic("failed to access shared state")
      && g.pool.slots[..] == old(g.pool.slots[..]) && g.pool.Live == old(g.pool.Live)
    ensures g.shared.Some? && FirstEmpty(old(g.pool.slots[..])).None? ==>
      r == Panic("failed to allocate waker slot")
      && g.pool.slots[..] == old(g.pool.slots[..]) && g.pool.Live == old(g.pool.Live)
    ensures g.shared.Some? && FirstEmpty(old(g.pool.slots[..])).Some? ==>
      var i := FirstEmpty(old(g.pool.slots[..])).value;
      && i !in old(g.pool.Live)
      && g.pool.slots[..] == old(g.pool.slots[..])[i := Reserved]
      && g.pool.Live == old(g.pool.Live) + {i}
      && (DeadlineOf(now, timeout).Done? ==> r == Done(DelayFuture(DeadlineOf(now, timeout).value, sched.timer, i)))
      && (DeadlineOf(now, timeout).Panic? ==> r == Panic("timeout is too large"))
  {
    if g.shared.None? {
      return Panic("failed to access shared state");
    }
    var slotIndex := g.pool.Alloc();
    if slotIndex.Err? {
      return Panic("failed to allocate waker slot");
    }
    var deadline := DeadlineOf(now, timeout);
    if deadline.Panic? {
      return Panic(deadline.message);
    }
    return Done(DelayFuture(deadline.value, sched.timer, slotIndex.value));
  }
}
