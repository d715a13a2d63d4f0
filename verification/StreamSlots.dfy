/** Pipe streams of the libusbK wrapper: transfer slots that move between a free ring, a ready
    ring and the hands of one stream thread and any number of callers. */
module StreamSlots {
  import opened Bytes

  type Slot = nat

  /** The stream between lock releases. `data` is what each slot's buffer holds; `done` the
      payloads completed (IN) or attempted (OUT) by the thread, `taken` those popped by readers
      (IN) or put by writers (OUT), each in order. */
  datatype State = State(
    dirIn: bool, n: nat,
    free: seq<Slot>, ready: seq<Slot>,
    thread: seq<Slot>,               // the slot in the thread's hand, if any
    callers: seq<Slot>,              // slots in readers' hands
    running: bool, stop: bool,
    data: seq<seq<byte>>,
    done: seq<seq<byte>>, taken: seq<seq<byte>>)

  datatype Step =
    | ThreadTake
    | ThreadDone(ok: bool, payload: seq<byte>)
    | ReadTake
    | ReadReturn(i: nat)
    | Write(payload: seq<byte>)
    | Stop
    | Joined
    | Start

  function Range(n: nat): (r: seq<Slot>)
    ensures |r| == n && forall i :: 0 <= i < n ==> r[i] == i
  {
    seq(n, i requires 0 <= i < n => i)
  }

  function Init(dirIn: bool, n: nat): State {
    State(dirIn, n, Range(n), [], [], [], false, false, seq(n, _ => []), [], [])
  }

  predicate Enabled(s: State, step: Step) {
    match step
    case ThreadTake => s.running && !s.stop && s.thread == [] && (if s.dirIn then s.free != [] else s.ready != [])
    case ThreadDone(_, _) => |s.thread| == 1 && s.thread[0] < |s.data|
    case ReadTake => s.dirIn && s.ready != [] && s.ready[0] < |s.data|
    case ReadReturn(i) => i < |s.callers|
    case Write(_) => !s.dirIn && s.free != [] && s.free[0] < |s.data|
    case Stop => s.running
    case Joined => s.running && s.stop && s.thread == []
    case Start => !s.running
  }

  function Without(q: seq<Slot>, i: nat): seq<Slot>
    requires i < |q|
  {
    q[..i] + q[i + 1..]
  }

  function Next(s: State, step: Step): State
    requires Enabled(s, step)
  {
    match step
    case ThreadTake =>
      if s.dirIn then s.(thread := [s.free[0]], free := s.free[1..])
      else s.(thread := [s.ready[0]], ready := s.ready[1..])
    case ThreadDone(ok, payload) =>
      var slot := s.thread[0];
      if !s.dirIn then s.(thread := [], free := s.free + [slot], done := s.done + [s.data[slot]])
      else if ok then s.(thread := [], ready := s.ready + [slot], data := s.data[slot := payload], done := s.done + [payload])
      else s.(thread := [], free := s.free + [slot])
    case ReadTake =>
      s.(ready := s.ready[1..], callers := s.callers + [s.ready[0]], taken := s.taken + [s.data[s.ready[0]]])
    case ReadReturn(i) =>
      s.(callers := Without(s.callers, i), free := s.free + [s.callers[i]])
    case Write(payload) =>
      s.(free := s.free[1..], ready := s.ready + [s.free[0]], data := s.data[s.free[0] := payload], taken := s.taken + [payload])
    case Stop => s.(stop := true)
    case Joined => s.(running := false)
    case Start => s.(running := true, stop := false)
  }

  // ---- one place each ----------------------------------------------------------------

  lemma CountOne(x: Slot, k: Slot)
    ensures CountOf([x], k) == if x == k then 1 else 0
  {
    assert [x][1..] == [];
  }

  /** How often slot `k` is somewhere. */
  function Places(s: State, k: Slot): nat {
    CountOf(s.free, k) + CountOf(s.ready, k) + CountOf(s.thread, k) + CountOf(s.callers, k)
  }

  ghost predicate OnePlaceEach(s: State) {
    && |s.free| + |s.ready| + |s.thread| + |s.callers| == s.n == |s.data| && |s.thread| <= 1
    && (forall k: Slot :: Places(s, k) == if k < s.n then 1 else 0)
  }

  lemma {:induction false} CountMember(q: seq<Slot>, i: nat)
    requires i < |q|
    ensures CountOf(q, q[i]) >= 1
  {
    if i > 0 {
      assert q[1..][i - 1] == q[i];
      CountMember(q[1..], i - 1);
    }
  }

  /** Every slot anywhere is a real one, so its buffer exists. */
  lemma InRange(s: State)
    requires OnePlaceEach(s)
    ensures forall i :: 0 <= i < |s.free| ==> s.free[i] < s.n
    ensures forall i :: 0 <= i < |s.ready| ==> s.ready[i] < s.n
    ensures forall i :: 0 <= i < |s.thread| ==> s.thread[i] < s.n
  {
    forall i | 0 <= i < |s.free| ensures s.free[i] < s.n {
      CountMember(s.free, i);
      assert Places(s, s.free[i]) >= 1;
    }
    forall i | 0 <= i < |s.ready| ensures s.ready[i] < s.n {
      CountMember(s.ready, i);
      assert Places(s, s.ready[i]) >= 1;
    }
    forall i | 0 <= i < |s.thread| ensures s.thread[i] < s.n {
      CountMember(s.thread, i);
      assert Places(s, s.thread[i]) >= 1;
    }
  }

  lemma PlacesKept(s: State, step: Step, k: Slot)
    requires Enabled(s, step) && |s.thread| <= 1
    ensures Places(Next(s, step), k) == Places(s, k)
  {
    match step
    case ThreadTake =>
      CountOne(if s.dirIn then s.free[0] else s.ready[0], k);
    case ThreadDone(_, _) =>
      assert s.thread == [s.thread[0]];
      CountOfAppend(s.ready, s.thread, k);
      CountOfAppend(s.free, s.thread, k);
    case ReadTake =>
      CountOne(s.ready[0], k);
      CountOfAppend(s.callers, [s.ready[0]], k);
    case ReadReturn(i) =>
      CountOfRemove(s.callers, i, k);
      CountOfAppend(s.free, [s.callers[i]], k);
    case Write(_) =>
      CountOne(s.free[0], k);
      CountOfAppend(s.ready, [s.free[0]], k);
    case Stop =>
    case Joined =>
    case Start =>
  }

  lemma StepKeepsPlaces(s: State, step: Step)
    requires OnePlaceEach(s) && Enabled(s, step)
    ensures OnePlaceEach(Next(s, step))
  {
    forall k: Slot ensures Places(Next(s, step), k) == if k < s.n then 1 else 0 {
      PlacesKept(s, step, k);
    }
  }

  lemma {:induction false} RangeCount(n: nat, k: Slot)
    ensures CountOf(Range(n), k) == if k < n then 1 else 0
  {
    if n > 0 {
      assert Range(n) == Range(n - 1) + [n - 1];
      CountOfAppend<Slot>(Range(n - 1), [n - 1], k);
      CountOne(n - 1, k);
      RangeCount(n - 1, k);
    }
  }

  lemma InitPlaces(dirIn: bool, n: nat)
    ensures OnePlaceEach(Init(dirIn, n))
  {
    forall k: Slot ensures Places(Init(dirIn, n), k) == if k < n then 1 else 0 {
      RangeCount(n, k);
    }
  }

  /** No ring is full when a slot is pushed: its pusher holds one. */
  lemma RoomToPush(s: State, step: Step)
    requires OnePlaceEach(s) && Enabled(s, step)
    ensures step.ThreadDone? || step.ReadReturn? ==> |s.free| < s.n && |s.ready| < s.n
    ensures step.Write? ==> |s.ready| < s.n
  {}

  // ---- order -------------------------------------------------------------------------

  function Payloads(q: seq<Slot>, data: seq<seq<byte>>): seq<seq<byte>> {
    if q == [] then [] else [if q[0] < |data| then data[q[0]] else []] + Payloads(q[1..], data)
  }

  lemma {:induction false} PayloadsAppend(a: seq<Slot>, b: seq<Slot>, data: seq<seq<byte>>)
    ensures Payloads(a + b, data) == Payloads(a, data) + Payloads(b, data)
  {
    if a == [] {
      assert a + b == b;
    } else {
      assert (a + b)[1..] == a[1..] + b;
      PayloadsAppend(a[1..], b, data);
    }
  }

  /** Writing the buffer of a slot that is not in a ring changes no payload in it. */
  lemma {:induction false} PayloadsElsewhere(q: seq<Slot>, data: seq<seq<byte>>, slot: Slot, payload: seq<byte>)
    requires slot < |data| && CountOf(q, slot) == 0
    ensures Payloads(q, data[slot := payload]) == Payloads(q, data)
  {
    if q != [] {
      PayloadsElsewhere(q[1..], data, slot, payload);
    }
  }

  /** IN: what readers have popped, then the ready ring, is what was completed, in order. OUT:
      what the thread has attempted, then the one in hand, then the ready ring, is what was
      written, in order. */
  ghost predicate InOrder(s: State) {
    if s.dirIn then s.done == s.taken + Payloads(s.ready, s.data)
    else s.taken == s.done + Payloads(s.thread, s.data) + Payloads(s.ready, s.data)
  }

  lemma DoneInOrder(s: State, step: Step)
    requires OnePlaceEach(s) && InOrder(s) && Enabled(s, step) && step.ThreadDone?
    ensures InOrder(Next(s, step))
  {
    var slot := s.thread[0];
    assert s.thread == [slot];
    CountOne(slot, slot);
    assert Places(s, slot) <= 1;
    InRange(s);
    if s.dirIn && step.ok {
      PayloadsElsewhere(s.ready, s.data, slot, step.payload);
      PayloadsAppend(s.ready, [slot], s.data[slot := step.payload]);
      assert s.taken + (Payloads(s.ready, s.data) + [step.payload]) == s.taken + Payloads(s.ready, s.data) + [step.payload];
      assert [slot][1..] == [];
    } else if !s.dirIn {
      assert [slot][1..] == [];
      assert Payloads(s.thread, s.data) == [s.data[slot]];
      assert Payloads([], s.data) == [];
      assert s.done + [s.data[slot]] + [] == s.done + [s.data[slot]];
    }
  }

  lemma WriteInOrder(s: State, step: Step)
    requires OnePlaceEach(s) && InOrder(s) && Enabled(s, step) && step.Write?
    ensures InOrder(Next(s, step))
  {
    var slot := s.free[0];
    CountMember(s.free, 0);
    assert Places(s, slot) <= 1;
    InRange(s);
    var d := s.data[slot := step.payload];
    PayloadsElsewhere(s.ready, s.data, slot, step.payload);
    PayloadsElsewhere(s.thread, s.data, slot, step.payload);
    PayloadsAppend(s.ready, [slot], d);
    assert [slot][1..] == [];
    var before := s.done + Payloads(s.thread, s.data);
    assert before + (Payloads(s.ready, s.data) + [step.payload]) == before + Payloads(s.ready, s.data) + [step.payload];
  }

  lemma TakeInOrder(s: State, step: Step)
    requires OnePlaceEach(s) && InOrder(s) && Enabled(s, step) && (step.ThreadTake? || step.ReadTake?)
    ensures InOrder(Next(s, step))
  {
    InRange(s);
    if step.ReadTake? {
      var first := [s.data[s.ready[0]]];
      assert s.taken + (first + Payloads(s.ready[1..], s.data)) == s.taken + first + Payloads(s.ready[1..], s.data);
    } else if !s.dirIn {
      var slot := s.ready[0];
      assert [slot][1..] == [];
      assert Payloads([], s.data) == [];
      assert s.done + [] == s.done;
      assert s.done + ([s.data[slot]] + Payloads(s.ready[1..], s.data)) == s.done + [s.data[slot]] + Payloads(s.ready[1..], s.data);
    }
  }

  lemma StepInOrder(s: State, step: Step)
    requires OnePlaceEach(s) && InOrder(s) && Enabled(s, step)
    ensures InOrder(Next(s, step))
  {
    if step.ThreadDone? {
      DoneInOrder(s, step);
    } else if step.Write? {
      WriteInOrder(s, step);
    } else if step.ThreadTake? || step.ReadTake? {
      TakeInOrder(s, step);
    }
  }

  // ---- runs --------------------------------------------------------------------------

  ghost predicate Runs(s: State, steps: seq<Step>)
    decreases |steps|
  {
    steps == [] || (Enabled(s, steps[0]) && Runs(Next(s, steps[0]), steps[1..]))
  }

  ghost function Run(s: State, steps: seq<Step>): State
    requires Runs(s, steps)
    decreases |steps|
  {
    if steps == [] then s else Run(Next(s, steps[0]), steps[1..])
  }

  lemma {:induction false} RunKeeps(s: State, steps: seq<Step>)
    requires OnePlaceEach(s) && InOrder(s) && Runs(s, steps)
    ensures OnePlaceEach(Run(s, steps)) && InOrder(Run(s, steps)) && Run(s, steps).n == s.n
    decreases |steps|
  {
    if steps != [] {
      StepKeepsPlaces(s, steps[0]);
      StepInOrder(s, steps[0]);
      RunKeeps(Next(s, steps[0]), steps[1..]);
    }
  }

  /** Over every interleaving of thread, readers or writers, stops and restarts: each slot is in
      exactly one place, no push finds a full ring, and data keeps its order. */
  lemma EveryRun(dirIn: bool, n: nat, steps: seq<Step>)
    requires Runs(Init(dirIn, n), steps)
    ensures var s := Run(Init(dirIn, n), steps);
      && OnePlaceEach(s) && InOrder(s)
      && (s.thread != [] || s.callers != [] ==> |s.free| < n && |s.ready| < n)
  {
    InitPlaces(dirIn, n);
    assert [] + [] == Payloads([], seq(n, _ => []));
    RunKeeps(Init(dirIn, n), steps);
  }

  // ---- a reader's copy ---------------------------------------------------------------------

  /** The step puts back a slot some caller holds. */
  predicate Returns(s: State, step: Step, slot: Slot)
    requires Enabled(s, step)
  {
    step.ReadReturn? && s.callers[step.i] == slot
  }

  /** One step leaves the buffer of a slot in a caller's hand alone, unless it puts it back. */
  lemma StepSparesHand(s: State, step: Step, slot: Slot)
    requires OnePlaceEach(s) && Enabled(s, step) && slot in s.callers && !Returns(s, step, slot)
    ensures slot < |s.data| == |Next(s, step).data|
    ensures slot in Next(s, step).callers && Next(s, step).data[slot] == s.data[slot]
  {
    InHandOnly(s, slot);
    if step.ReadReturn? {
      var i :| 0 <= i < |s.callers| && s.callers[i] == slot;
      var j := if i < step.i then i else i - 1;
      assert Without(s.callers, step.i)[j] == slot;
    } else if step.ThreadDone? {
      CountMember(s.thread, 0);
    } else if step.Write? {
      CountMember(s.free, 0);
    }
  }

  lemma InHandOnly(s: State, slot: Slot)
    requires OnePlaceEach(s) && slot in s.callers
    ensures slot < s.n && CountOf(s.free, slot) == CountOf(s.thread, slot) == 0
  {
    var i :| 0 <= i < |s.callers| && s.callers[i] == slot;
    CountMember(s.callers, i);
    assert Places(s, slot) >= 1;
  }

  ghost predicate Holds(s: State, steps: seq<Step>, slot: Slot)
    requires Runs(s, steps)
    decreases |steps|
  {
    steps == [] || (!Returns(s, steps[0], slot) && Holds(Next(s, steps[0]), steps[1..], slot))
  }

  lemma {:induction false} RunSparesHand(s: State, steps: seq<Step>, slot: Slot)
    requires OnePlaceEach(s) && Runs(s, steps) && slot in s.callers && Holds(s, steps, slot)
    ensures slot < |s.data| == |Run(s, steps).data| && Run(s, steps).data[slot] == s.data[slot]
    decreases |steps|
  {
    InHandOnly(s, slot);
    if steps != [] {
      StepSparesHand(s, steps[0], slot);
      StepKeepsPlaces(s, steps[0]);
      RunSparesHand(Next(s, steps[0]), steps[1..], slot);
    }
  }

  /** StmK_Read copies after it has left the lock: whatever others do meanwhile, until it puts
      the slot back the buffer holds what was popped. */
  lemma ReadCopiesWhatItPopped(s: State, steps: seq<Step>)
    requires OnePlaceEach(s) && Enabled(s, ReadTake) && Runs(Next(s, ReadTake), steps)
    requires Holds(Next(s, ReadTake), steps, s.ready[0])
    ensures var t, slot := Next(s, ReadTake), s.ready[0];
      slot < |Run(t, steps).data| && t.taken == s.taken + [Run(t, steps).data[slot]]
  {
    StepKeepsPlaces(s, ReadTake);
    RunSparesHand(Next(s, ReadTake), steps, s.ready[0]);
  }
}
