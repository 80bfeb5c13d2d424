/** The pool of waker slots shared between the delay futures and the alarm
    interrupt handler, and the global cell holding the scheduler's state. */
module Sharedstate {
  import opened Wrappers
  import opened Platform

  /** Opaque identity of a task's `Waker`. */
  type Waker = nat

  /** One entry of the pool. */
  datatype WakerSlot =
    | Empty                                     // free for allocation
    | Reserved                                  // owned by a future that has not suspended yet
    | Pending(waker: Waker, deadline: U64)      // owned by a suspended future

  /** Indices of the slots that some future owns, i.e. the non-`Empty` ones. */
  ghost function LiveSet(s: seq<WakerSlot>): set<nat> {
    set i: nat | i < |s| && s[i] != Empty
  }

  /** First-fit search: the lowest index whose slot is `Empty`, if any. */
  function FirstEmpty(s: seq<WakerSlot>): (r: Option<nat>)
    ensures r.Some? ==> r.value < |s| && s[r.value] == Empty
    ensures r.Some? ==> forall j :: 0 <= j < r.value ==> s[j] != Empty
    ensures r.None? <==> forall j :: 0 <= j < |s| ==> s[j] != Empty
  {
    if |s| == 0 then None
    else if s[0] == Empty then Some(0)
    else match FirstEmpty(s[1..]) {
      case None => None
      case Some(j) => Some(j + 1)
    }
  }

  /** Writing one slot adds it to, or removes it from, the live set. */
  lemma LiveSetUpdate(s: seq<WakerSlot>, k: nat, v: WakerSlot)
    requires k < |s|
    ensures LiveSet(s[k := v]) == if v == Empty then LiveSet(s) - {k} else LiveSet(s) + {k}
  {
    var t := s[k := v];
    if v == Empty {
      assert forall i :: i in LiveSet(t) <==> i in LiveSet(s) - {k};
    } else {
      assert forall i :: i in LiveSet(t) <==> i in LiveSet(s) + {k};
    }
  }

  /** No more futures can be live than there are slots, and the pool is full
      exactly when every slot is live. */
  lemma {:induction false} LiveCount(s: seq<WakerSlot>)
    ensures |LiveSet(s)| <= |s|
    ensures |LiveSet(s)| == |s| <==> forall j :: 0 <= j < |s| ==> s[j] != Empty
  {
    if |s| > 0 {
      var k := |s| - 1;
      var p := s[..k];
      LiveCount(p);
      if s[k] == Empty {
        assert LiveSet(s) == LiveSet(p);
      } else {
        assert LiveSet(s) == LiveSet(p) + {k};
        assert k !in LiveSet(p);
      }
      assert forall j :: 0 <= j < k ==> p[j] == s[j];
    } else {
      assert LiveSet(s) == {};
    }
  }

  /** Capacity bound: allocation fails exactly when as many futures are live
      as the pool has slots. */
  lemma CapacityBound(s: seq<WakerSlot>)
    ensures FirstEmpty(s).None? <==> |LiveSet(s)| == |s|
  {
    LiveCount(s);
  }

  /** The slot array `[WakerSlot; SLOTS]` behind its mutex. Its length is the
      capacity fixed when the program is built; `Live` is the set of slot
      indices owned by live futures. */
  class WakerSlots {
    const slots: array<WakerSlot>
    ghost var Live: set<nat>

    ghost predicate Valid()
      reads this, slots
    {
      Live == LiveSet(slots[..])
    }

    /** Every slot starts out `Empty`. */
    constructor (capacity: nat)
      ensures Valid() && fresh(slots)
      ensures slots.Length == capacity && Live == {}
      ensures forall i :: 0 <= i < capacity ==> slots[i] == Empty
    {
      slots := new WakerSlot[capacity](_ => Empty);
      Live := {};
      new;
      assert LiveSet(slots[..]) == {};
    }

    /** `SharedState::alloc`: reserve the first `Empty` slot in index order. */
    method Alloc() returns (r: Result<nat, string>)
      requires Valid()
      modifies this, slots
      ensures Valid()
      ensures r.Ok? <==> FirstEmpty(old(slots[..])).Some?
      ensures r.Ok? ==> r.value == FirstEmpty(old(slots[..])).value
      ensures r.Ok? ==> r.value < slots.Length && r.value !in old(Live)
      ensures r.Ok? ==> slots[..] == old(slots[..])[r.value := Reserved] && Live == old(Live) + {r.value}
      ensures r.Err? ==> r.error == "No empty waker slot available"
      ensures r.Err? ==> slots[..] == old(slots[..]) && Live == old(Live)
    {
      var i := 0;
      while i < slots.Length
        invariant 0 <= i <= slots.Length
        invariant forall j :: 0 <= j < i ==> slots[j] != Empty
        invariant slots[..] == old(slots[..]) && Live == old(Live)
      {
        if slots[i] == Empty {
          slots[i] := Reserved;
          Live := Live + {i};
          LiveSetUpdate(old(slots[..]), i, Reserved);
          return Ok(i);
        }
        i := i + 1;
      }
      return Err("No empty waker slot available");
    }

    /** `SharedState::slot`: apply `scope` to the one slot at `index`. The
        scope gives the slot's new value and its own result. */
    method Slot<R>(index: nat, scope: WakerSlot -> (WakerSlot, R)) returns (r: Result<R, string>)
      requires Valid()
      modifies this, slots
      ensures Valid()
      ensures r.Err? <==> index >= slots.Length
      ensures r.Err? ==> r.error == "Invalid slot index" && slots[..] == old(slots[..])
      ensures r.Ok? ==> r.value == scope(old(slots[index])).1
      ensures r.Ok? ==> slots[..] == old(slots[..])[index := scope(old(slots[index])).0]
    {
      var access: seq<WakerSlot> -> (seq<WakerSlot>, Result<R, string>) :=
        s =>
          if index < |s| then (s[index := scope(s[index]).0], Ok(scope(s[index]).1))
          else (s, Err("Invalid slot index"));
      r := Wakers(access);
    }

    /** `SharedState::wakers`: run `scope` once over the whole slot array and
        return its result. A Rust slice cannot change length, so the scope
        keeps the length. */
    method Wakers<R>(scope: seq<WakerSlot> -> (seq<WakerSlot>, R)) returns (r: R)
      requires Valid()
      requires |scope(slots[..]).0| == slots.Length
      modifies this, slots
      ensures Valid()
      ensures slots[..] == scope(old(slots[..])).0
      ensures r == scope(old(slots[..])).1
    {
      var (updated, result) := scope(slots[..]);
      forall i | 0 <= i < slots.Length {
        slots[i] := updated[i];
      }
      assert slots[..] == updated;
      Live := LiveSet(slots[..]);
      r := result;
    }
  }

  /** The state the scheduler installs: the alarm period in microseconds, the
      timer handle and the alarm peripheral. */
  datatype SharedState = SharedState(interval: nat, timer: TimerId, alarm: AlarmId)

  /** The program's statics: the `SharedState::global()` cell, which is `None`
      until the scheduler is created, and the waker-slot array; plus the log of
      calls made into the hardware. */
  class Globals {
    var shared: Option<SharedState>
    var events: seq<HwEvent>
    const pool: WakerSlots

    ghost predicate Valid()
      reads pool, pool.slots
    {
      pool.Valid()
    }

    constructor (capacity: nat)
      ensures Valid() && fresh(pool) && fresh(pool.slots)
      ensures shared == None && events == []
      ensures pool.slots.Length == capacity && pool.Live == {}
      ensures forall i :: 0 <= i < capacity ==> pool.slots[i] == Empty
    {
      shared := None;
      events := [];
      pool := new WakerSlots(capacity);
    }
  }
}
