# Async delay scheduler: waker-slot bookkeeping

This project models the core of an async delay scheduler for the RP2040 (`embedded-asyncdelay`).
One periodic hardware alarm serves any number of pending timeouts. The model keeps the scheduler's
bookkeeping, stated in Dafny and proved:

- **The waker-slot pool** (`src/sharedstate.rs`). A fixed-length array of slots. Each slot is
  `Empty`, `Reserved` or `Pending(waker, deadline)`. `Alloc` reserves the first empty slot.
  `Slot` gives scoped access to one slot, `Wakers` to the whole array. The class `WakerSlots`
  keeps a ghost set `Live` of owned slot indices, always equal to the set of non-`Empty` slots.
- **The delay future** (`src/future.rs`). `Poll` is ready once `now` has reached the deadline.
  Otherwise it writes `Pending(waker, deadline)` into the future's own slot. `Drop` resets that
  slot to `Empty`.
- **The scheduler handle** (`src/scheduler.rs`). `New` converts the resolution to an alarm
  interval, installs the shared state and arms the alarm. `Schedule` reserves a slot and computes
  the deadline with a checked `u64` add.
- **The interrupt handler** (`src/alarm.rs`). `IrqHandler` clears and rearms the alarm. Then
  `WakeExpired` sweeps the pool once, at a single time snapshot, and wakes every expired
  `Pending` slot in index order. It never changes a slot.

Each operation runs as one atomic step, as it does inside the program's critical section.
Every `expect` that can fire is an `Outcome.Panic` carrying the source's own message. The
hardware becomes parameters and a log:

- The current time is a `now` parameter in microseconds since the timer's epoch.
- Whether the alarm accepts being armed is a boolean parameter.
- Every call into the alarm peripheral and the interrupt controller is appended to
  `Globals.events`.

`Globals` stands for the program's statics: the `SharedState::global()` cell and the injected
slot array. The pool's capacity is a constructor parameter. Wakers are opaque ids, and waking
one means it appears in the returned sequence of woken wakers.

Where the code and its design description differ, the model follows the code:

- The deadline is `now` plus the timeout rounded down to whole milliseconds, not `now` plus the
  exact timeout (`src/scheduler.rs:67-68`).
- The sweep leaves a woken slot `Pending`. The comment at `src/alarm.rs:26` says it is marked
  reserved again, but the code does not do so.
- Pool exhaustion is the string error "No empty waker slot available", which `schedule` turns
  into a panic.
- The resolution check fails for resolutions of 2^32 ms or more, although its message says
  "resolution is too low".

`scenarios.dfy` replays two runs against the contracts alone. In the first, a pool of two slots
fills up, a third `Schedule` fails, and the slot freed by `Drop` is handed out again. In the
second, a 25 ms delay with a 10 ms alarm is not ready at 0, 10 and 20 ms. It is woken once, by
the sweep at 30 ms, and is ready at 30 ms.

## Model

| member | source | states |
|---|---|---|
| `Sharedstate.FirstEmpty` | src/sharedstate.rs:50-52 | the result is the lowest index whose slot is `Empty`; it is `None` exactly when no slot is `Empty` |
| `Sharedstate.CapacityBound` | src/sharedstate.rs:50-52 | allocation fails exactly when the number of live slots equals the pool's capacity |
| `Sharedstate.LiveCount` | src/sharedstate.rs:14-21 | there are never more live slots than slots, and all slots are live exactly when none is `Empty` |
| `Sharedstate.WakerSlots.constructor` | src/sharedstate.rs:123-127 | a new pool has the requested length, every slot `Empty` and no live slot |
| `Sharedstate.WakerSlots.Alloc` | src/sharedstate.rs:47-58 | on success: the first `Empty` index, below the length and not live before; that slot becomes `Reserved` and joins `Live`; nothing else changes. Fails with "No empty waker slot available" exactly when no slot is `Empty`, leaving the pool unchanged |
| `Sharedstate.WakerSlots.Slot` | src/sharedstate.rs:61-71 | fails with "Invalid slot index" exactly when the index is out of range, changing nothing; otherwise only that slot takes the scope's new value, and the scope's result is returned |
| `Sharedstate.WakerSlots.Wakers` | src/sharedstate.rs:74-97 | the scope is applied once to the whole array; the array becomes its output, of unchanged length, and its result is returned |
| `Sharedstate.Globals.constructor` | src/sharedstate.rs:101-103 | before the scheduler is created the shared-state cell is empty and every slot is `Empty` |
| `Future.Poll` | src/future.rs:23-45 | `Ready` exactly when `now >= deadline`, and then the pool is unchanged; otherwise it panics without the shared state or with an out-of-range slot, else returns `Pending` with its own slot set to `Pending(waker, deadline)` whatever it held, every other slot unchanged, and the slot live |
| `Future.Drop` | src/future.rs:47-57 | panics without the shared state or with an out-of-range slot; otherwise its slot becomes `Empty` whatever it held, leaves `Live`, and no other slot changes |
| `Future.Register` | src/future.rs:32-39 | a run of not-ready polls keeps the pool's length and changes no slot but the future's own |
| `Future.LastWriteWins` | src/future.rs:32-39 | after several not-ready polls only the latest waker is stored in the future's slot |
| `Future.ScheduleThenDropRestores` | src/future.rs:39-55 | reserving the first empty slot, polling any number of times and then dropping gives back exactly the original pool |
| `Platform.AsMillis` | src/scheduler.rs:67 | the whole number of milliseconds in a duration: its length rounded down to a millisecond |
| `Scheduler.IntervalOf` | src/scheduler.rs:31-32 | the interval is the resolution rounded down to whole milliseconds, in microseconds; it fails with "resolution is too low" exactly when the resolution is 2^32 ms or more |
| `Scheduler.DeadlineOf` | src/scheduler.rs:67-72 | the deadline is `now` plus the timeout rounded down to whole milliseconds, in microseconds; it fails with "timeout is too large" exactly when that sum exceeds the `u64` range |
| `Scheduler.ReadyExactlyAfterTimeout` | src/future.rs:25-28 | a scheduled future is ready at time `t` exactly when at least the timeout's whole milliseconds have passed since it was scheduled |
| `Scheduler.New` | src/scheduler.rs:29-49 | a bad resolution panics before anything changes; otherwise the shared state is replaced by `{interval, timer, alarm}`, the interrupt is unmasked, enabled and the alarm armed with the interval, in that order; a refused arm panics |
| `Scheduler.Schedule` | src/scheduler.rs:55-74 | panics without the shared state, or with "failed to allocate waker slot" when no slot is `Empty`, leaving the pool unchanged; otherwise the first `Empty` slot, not live before, becomes `Reserved`, and the future holds that slot and the computed deadline, or the call panics with "timeout is too large" after the reservation |
| `Alarm.ExpiredIn` | src/alarm.rs:22-28 | every slot a sweep wakes is `Pending` with a deadline at most `now` |
| `Alarm.ExpiredInComplete` | src/alarm.rs:23-25 | a slot is woken exactly when it is `Pending` with a deadline at most `now`, so `Empty` and `Reserved` slots never are |
| `Alarm.ExpiredInAscending` | src/alarm.rs:22 | slots are woken in strictly ascending index order, each at most once |
| `Alarm.WakeExpired` | src/alarm.rs:20-31 | the sweep changes no slot and wakes exactly the wakers of the expired slots, in index order |
| `Alarm.IrqHandler` | src/alarm.rs:8-33 | panics without the shared state; otherwise it clears and rearms the alarm with the stored interval before looking at any slot, panics if the rearm is refused, and else returns the sweep's wakers at the single snapshot `now`; the pool and the shared state never change |
| `Alarm.ReRegisteredWakesLatest` | src/alarm.rs:22-28 | after several not-ready polls, a sweep wakes the future's slot exactly when its deadline has passed, and then through the latest poll's waker |

## Left out

- Critical sections, `Mutex`/`RefCell` borrowing and interrupt preemption are left out. Each operation is one atomic step, because the exclusion domain only serialises the operations.
- The linker-injected slot storage is left out: `_asyncdelay_wakerslots_pN7uDuTu`, the `GlobalWakerSlots` trait object and the `setup_waker_slots!` macro. The pool is an array whose length is a constructor parameter.
- The feature-selected `alarm_cfg` modules, the `#[interrupt]` entry points and the build-time choice of `TIMER_IRQ` are left out. They are static hardware binding.
- Hardware reads and writes are left out. The model records calls as `HwEvent`s, takes the time as `now` and takes the alarm's answer to `Alarm::schedule` as a boolean.
- `Waker` cloning and `wake_by_ref` are left out, as are `Pin`, `Context`, the `Future` trait and the executor. Wakers are opaque ids, and a wake is an entry in the returned sequence.
- The drop of an overwritten `Waker` when a slot is re-registered or released is not modelled.
- The `Option` letterboxes and their `expect`s in `SharedState::wakers` are not modelled. The scope is a pure function applied exactly once, so those panics cannot happen.
- `Sharedstate.WakerSlots.Wakers`: a Rust slice cannot change length, so the model requires the scope to return an array of the same length instead of the type system enforcing it.
- `Scheduler.IntervalOf`: does not model fugit's `u32` microsecond product overflowing for millisecond counts between 4294968 and 2^32 - 1. Whether that wraps or panics depends on fugit's internals and the build profile.
- `Scheduler.DeadlineOf`: treats fugit's millisecond-to-microsecond product as exact. A product beyond `u64` then fails the checked add with "timeout is too large", where fugit itself would wrap or panic.
- A future's fields are a Dafny datatype value, so no operation can change its deadline or slot. The timer handle is kept only as an id.
- `src/lib.rs` is left out: it holds only module declarations and re-exports.
