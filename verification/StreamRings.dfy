/** The rings of kstm_push and kstm_pop, and the lock sections of the stream thread, StmK_Read
    and StmK_Write over them. */
module StreamRings {
  import opened Bytes
  import opened Bits
  import opened StreamSlots

  /** Where entry `i` of a ring is. */
  function At(head: nat, i: nat, cap: nat): nat {
    if head + i < cap then head + i else head + i - cap
  }

  lemma AtIsMod(head: nat, i: nat, cap: nat)
    requires head < cap && i <= cap
    ensures (head + i) % cap == At(head, i, cap)
  {
    if head + i < cap {
      ModUnique(head + i, cap, 0, head + i);
    } else {
      ModUnique(head + i, cap, 1, head + i - cap);
    }
  }

  class Ring {
    const ring: array<nat>
    var head: nat
    var count: nat

    ghost predicate Valid()
      reads this
    {
      ring.Length > 0 && head < ring.Length && count <= ring.Length
    }

    /** The entries, oldest first. */
    ghost function Contents(): (q: seq<Slot>)
      requires Valid()
      reads this, ring
      ensures |q| == count
    {
      seq(count, i requires 0 <= i < count reads this, ring requires Valid() => ring[At(head, i, ring.Length)])
    }

    constructor (n: nat, filled: bool)
      requires n > 0
      ensures Valid() && fresh(ring) && ring.Length == n && Contents() == if filled then Range(n) else []
    {
      ring := new nat[n](i => i);
      head, count := 0, if filled then n else 0;
    }

    method Push(value: Slot)
      requires Valid() && count < ring.Length
      modifies this`count, ring
      ensures Valid() && Contents() == old(Contents()) + [value]
    {
      AtIsMod(head, count, ring.Length);
      ring[(head + count) % ring.Length] := value;
      count := count + 1;
    }

    method Pop() returns (value: Slot)
      requires Valid() && count > 0
      modifies this`head, this`count
      ensures Valid() && value == old(Contents())[0] && Contents() == old(Contents())[1..]
    {
      value := ring[head];
      AtIsMod(head, 1, ring.Length);
      head := (head + 1) % ring.Length;
      count := count - 1;
    }
  }

  class Stream {
    const dirIn: bool
    const n: nat
    const freeQ: Ring
    const readyQ: Ring
    const slots: array<seq<byte>>
    var running: bool
    var stop: bool
    ghost var thread: seq<Slot>
    ghost var callers: seq<Slot>
    ghost var done: seq<seq<byte>>
    ghost var taken: seq<seq<byte>>

    ghost predicate Laid()
      reads this, freeQ, readyQ
    {
      && freeQ.Valid() && readyQ.Valid() && freeQ != readyQ && freeQ.ring != readyQ.ring
      && freeQ.ring.Length == readyQ.ring.Length == slots.Length == n
    }

    ghost function View(): State
      requires Laid()
      reads this, freeQ, readyQ, freeQ.ring, readyQ.ring, slots
    {
      State(dirIn, n, freeQ.Contents(), readyQ.Contents(), thread, callers, running, stop, slots[..], done, taken)
    }

    ghost predicate Valid()
      reads this, freeQ, readyQ, freeQ.ring, readyQ.ring, slots
    {
      Laid() && OnePlaceEach(View())
    }

    constructor (dirIn: bool, n: nat)
      requires n > 0
      ensures Valid() && fresh(freeQ) && fresh(readyQ) && fresh(freeQ.ring) && fresh(readyQ.ring) && fresh(slots)
      ensures View() == Init(dirIn, n)
    {
      this.dirIn, this.n := dirIn, n;
      freeQ := new Ring(n, true);
      readyQ := new Ring(n, false);
      slots := new seq<byte>[n](_ => []);
      running, stop, thread, callers, done, taken := false, false, [], [], [], [];
      new;
      assert slots[..] == seq(n, _ => []);
      InitPlaces(dirIn, n);
      assert View() == Init(dirIn, n);
    }

    /** The thread takes a slot. */
    method TakeSlot() returns (slot: Slot)
      requires Valid() && Enabled(View(), ThreadTake)
      modifies this`thread, freeQ`head, freeQ`count, readyQ`head, readyQ`count
      ensures Valid() && View() == Next(old(View()), ThreadTake) && thread == [slot]
    {
      StepKeepsPlaces(View(), ThreadTake);
      if dirIn {
        slot := freeQ.Pop();
      } else {
        slot := readyQ.Pop();
      }
      thread := [slot];
    }

    /** The thread gives its slot back after a transfer; a failed one always goes to the free ring. */
    method ReturnSlot(slot: Slot, ok: bool, payload: seq<byte>)
      requires Valid() && thread == [slot]
      requires Enabled(View(), ThreadDone(ok, payload))
      modifies this`thread, this`done, freeQ`count, readyQ`count, freeQ.ring, readyQ.ring, slots
      ensures Valid() && View() == Next(old(View()), ThreadDone(ok, payload))
    {
      StepKeepsPlaces(View(), ThreadDone(ok, payload));
      if dirIn && ok {
        slots[slot] := payload;
        done := done + [payload];
        readyQ.Push(slot);
      } else {
        if !dirIn {
          done := done + [slots[slot]];
        }
        freeQ.Push(slot);
      }
      thread := [];
    }

    /** The first section of StmK_Read. */
    method ReadSlot() returns (slot: Slot)
      requires Valid() && Enabled(View(), ReadTake)
      modifies this`callers, this`taken, readyQ`head, readyQ`count
      ensures Valid() && View() == Next(old(View()), ReadTake) && slot == old(View()).ready[0]
    {
      StepKeepsPlaces(View(), ReadTake);
      slot := readyQ.Pop();
      callers := callers + [slot];
      taken := taken + [slots[slot]];
    }

    /** The last section of StmK_Read. */
    method ReadDone(slot: Slot, ghost i: nat)
      requires Valid() && i < |callers| && callers[i] == slot
      modifies this`callers, freeQ`count, freeQ.ring
      ensures Valid() && View() == Next(old(View()), ReadReturn(i))
    {
      StepKeepsPlaces(View(), ReadReturn(i));
      freeQ.Push(slot);
      callers := Without(callers, i);
    }

    /** StmK_Write, when a slot is free. */
    method WriteSlot(payload: seq<byte>)
      requires Valid() && Enabled(View(), Write(payload))
      modifies this`taken, freeQ`head, freeQ`count, readyQ`count, readyQ.ring, slots
      ensures Valid() && View() == Next(old(View()), Write(payload))
    {
      StepKeepsPlaces(View(), Write(payload));
      var slot := freeQ.Pop();
      slots[slot] := payload;
      readyQ.Push(slot);
      taken := taken + [payload];
    }
  }
}
