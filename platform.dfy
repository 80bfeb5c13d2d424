/** The collaborators the scheduler relies on, reduced to what it observes:
    fixed-width integer bounds, `core::time::Duration`, the opaque handles of
    the rp2040 timer and alarm peripherals, and the calls made into the alarm
    peripheral and the interrupt controller, recorded as an event log. */
module Platform {

  const U32_MAX: nat := 0xFFFF_FFFF
  const U64_MAX: nat := 0xFFFF_FFFF_FFFF_FFFF

  /** A value that fits in a Rust `u64`. */
  type U64 = x: nat | x <= U64_MAX

  const NANOS_PER_MILLI: nat := 1_000_000
  const NANOS_PER_SEC: nat := 1_000_000_000
  const MICROS_PER_MILLI: nat := 1_000

  /** The sub-second part of a `core::time::Duration`. */
  type SubsecNanos = n: nat | n < NANOS_PER_SEC

  /** `core::time::Duration`: whole seconds plus nanoseconds below one second. */
  datatype Duration = Duration(secs: U64, nanos: SubsecNanos)

  /** The length of a duration in nanoseconds. */
  function TotalNanos(d: Duration): nat {
    d.secs * NANOS_PER_SEC + d.nanos
  }

  /** `Duration::as_millis`: the whole number of milliseconds in `d`, that is,
      its length rounded down to a millisecond. */
  function AsMillis(d: Duration): (r: nat)
    ensures r * NANOS_PER_MILLI <= TotalNanos(d) < (r + 1) * NANOS_PER_MILLI
  {
    d.secs * 1_000 + d.nanos / NANOS_PER_MILLI
  }

  /** Opaque identity of the `rp2040_hal::Timer` handle. */
  type TimerId = nat

  /** Opaque identity of the hardware alarm (`Alarm0` .. `Alarm3`). */
  type AlarmId = nat

  /** A call into the hardware, in the order the program makes it. */
  datatype HwEvent =
    | UnmaskIrq(alarm: AlarmId)                    // NVIC::unmask of the alarm's interrupt line
    | EnableInterrupt(alarm: AlarmId)              // Alarm::enable_interrupt
    | ClearInterrupt(alarm: AlarmId)               // Alarm::clear_interrupt
    | Arm(alarm: AlarmId, intervalMicros: nat)     // Alarm::schedule
}
