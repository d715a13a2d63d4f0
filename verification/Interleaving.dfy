/** The IN half of one endpoint under concurrency: any number of writer threads inside
    usbip_device_write, one serve thread inside usbip_device_dispatch or
    usbip_device_handle_unlink, and usbip_ep_stall calls, interleaved at every lock release.
    A thread that has left the lock with something still to send holds it "in hand". */
module Interleaving {
  import opened Bytes
  import opened Endpoint

  datatype Writer =
    | Idle
    | AtLock(rem: seq<byte>)
    | InHand(urb: Urb, chunk: seq<byte>, rem: seq<byte>)

  datatype Server =
    | Waiting
    | Checking(urb: Urb)
    | Rejecting(urb: Urb)
    | Admitted(urb: Urb)
    | Sending(urb: Urb, slice: seq<byte>)

  /** `wire` is what left the socket. The last four fields are history: the writes in the
      order they began, the URBs submitted, the URBs unlinked, and the URBs dropped. */
  datatype State = State(
    ep: Ep, writers: seq<Writer>, server: Server, stalling: seq<Urb>, wire: seq<Completion>,
    written: seq<seq<byte>>, submitted: seq<Urb>, unlinked: seq<Urb>, dropped: seq<Urb>)

  datatype Step =
    | BeginWrite(i: nat, data: seq<byte>)
    | PopForWrite(i: nat)
    | SendParked(i: nat)
    | EndWrite(i: nat)
    | Submit(urb: Urb)
    | CheckHalt
    | Reject
    | Serve
    | SendSlice
    | Stalling
    | SendStall(k: nat)
    | Clearing
    | Unlinking(seqnum: nat)

  ghost predicate Init(s: State) {
    && s.ep == FRESH && s.server == Waiting && s.stalling == [] && s.wire == []
    && s.written == [] && s.submitted == [] && s.unlinked == [] && s.dropped == []
    && forall i :: 0 <= i < |s.writers| ==> s.writers[i] == Idle
  }

  predicate Enabled(s: State, t: Step) {
    match t
    case BeginWrite(i, data) => i < |s.writers| && s.writers[i].Idle?
    case PopForWrite(i) =>
      i < |s.writers| && s.writers[i].AtLock? && s.writers[i].rem != [] && s.ep.pend != []
    case SendParked(i) => i < |s.writers| && s.writers[i].InHand?
    case EndWrite(i) =>
      i < |s.writers| && s.writers[i].AtLock? && (s.writers[i].rem == [] || s.ep.pend == [])
    case Submit(u) => s.server.Waiting? && forall v :: v in s.submitted ==> v.seqnum != u.seqnum
    case CheckHalt => s.server.Checking?
    case Reject => s.server.Rejecting?
    case Serve => s.server.Admitted?
    case SendSlice => s.server.Sending?
    case Stalling => true
    case SendStall(k) => k < |s.stalling|
    case Clearing => true
    case Unlinking(seqnum) => s.server.Waiting?
  }

  function Next(s: State, t: Step): State
    requires s.ep.Valid() && Enabled(s, t)
  {
    match t
    case BeginWrite(i, data) =>
      s.(writers := s.writers[i := AtLock(data)], written := s.written + [data])
    case PopForWrite(i) =>
      var rem := s.writers[i].rem;
      var u := s.ep.pend[0];
      var n := Limit(u.length, |rem|);
      s.(ep := PopParked(s.ep), writers := s.writers[i := InHand(u, rem[..n], rem[n..])])
    case SendParked(i) =>
      var w := s.writers[i];
      s.(writers := s.writers[i := AtLock(w.rem)], wire := s.wire + [Completion(w.urb, Ok, w.chunk)])
    case EndWrite(i) =>
      var rem := s.writers[i].rem;
      s.(writers := s.writers[i := Idle], ep := if rem == [] then s.ep else Enqueue(s.ep, rem))
    case Submit(u) => s.(server := Checking(u), submitted := s.submitted + [u])
    case CheckHalt => s.(server := if s.ep.halted then Rejecting(s.server.urb) else Admitted(s.server.urb))
    case Reject => s.(server := Waiting, wire := s.wire + [Completion(s.server.urb, Stall, [])])
    case Serve =>
      if s.ep.inq != [] then
        var (slice, ep) := TakeSlice(s.ep, s.server.urb.length);
        s.(server := Sending(s.server.urb, slice), ep := ep)
      else
        s.(server := Waiting, ep := Park(s.ep, s.server.urb), dropped := s.dropped + DroppedByPark(s.ep))
    case SendSlice =>
      s.(server := Waiting, wire := s.wire + [Completion(s.server.urb, Ok, s.server.slice)])
    case Stalling => s.(ep := StallTake(s.ep), stalling := s.stalling + s.ep.pend)
    case SendStall(k) =>
      s.(stalling := s.stalling[..k] + s.stalling[k + 1..],
         wire := s.wire + [Completion(s.stalling[k], Stall, [])])
    case Clearing => s.(ep := ClearHalt(s.ep))
    case Unlinking(seqnum) =>
      s.(ep := Unlink(s.ep, seqnum), unlinked := s.unlinked + Named(s.ep.pend, seqnum))
  }

  /** A finite run: each step enabled where it is taken. */
  ghost predicate Run(ss: seq<State>, ts: seq<Step>) {
    && |ss| == |ts| + 1
    && Init(ss[0])
    && forall i {:trigger ts[i]} :: 0 <= i < |ts| ==>
      ss[i].ep.Valid() && Enabled(ss[i], ts[i]) && ss[i + 1] == Next(ss[i], ts[i])
  }

  // ---- parked list and data queue are never both non-empty ---------------------------

  ghost predicate QueueInv(s: State) {
    s.ep.Valid() && s.ep.NeverBoth()
  }

  lemma QueueInvStep(s: State, t: Step)
    requires QueueInv(s) && Enabled(s, t)
    ensures QueueInv(Next(s, t))
  {
    if t.Unlinking? {
      WithoutNoLonger(s.ep.pend, t.seqnum);
      if s.ep.pend != [] && Without(s.ep.pend, t.seqnum) == [] {
        LastRemoved(s.ep.pend, t.seqnum);
      }
    }
  }

  lemma WithoutNoLonger(pend: seq<Urb>, seqnum: nat)
    ensures |Without(pend, seqnum)| <= |pend|
  {}

  lemma LastRemoved(pend: seq<Urb>, seqnum: nat)
    requires pend != [] && Without(pend, seqnum) == []
    ensures pend[|pend| - 1].seqnum == seqnum
  {}

  // ---- exactly-once completion -------------------------------------------------------

  function WriterHand(w: Writer): seq<Urb> {
    if w.InHand? then [w.urb] else []
  }

  function WriterHands(ws: seq<Writer>): seq<Urb> {
    if ws == [] then [] else WriterHand(ws[0]) + WriterHands(ws[1..])
  }

  function ServerHand(v: Server): seq<Urb> {
    if v.Waiting? then [] else [v.urb]
  }

  function Urbs(wire: seq<Completion>): seq<Urb> {
    if wire == [] then [] else [wire[0].urb] + Urbs(wire[1..])
  }

  /** In how many places URB `u` is: parked, in a thread's hand, completed, unlinked or dropped. */
  function Places(s: State, u: Urb): nat {
    CountOf(s.ep.pend, u) + CountOf(WriterHands(s.writers), u) + CountOf(ServerHand(s.server), u)
    + CountOf(s.stalling, u) + CountOf(Urbs(s.wire), u) + CountOf(s.unlinked, u) + CountOf(s.dropped, u)
  }

  lemma WriterHandsUpdate(ws: seq<Writer>, i: nat, w: Writer, u: Urb)
    requires i < |ws|
    ensures CountOf(WriterHands(ws[i := w]), u) + CountOf(WriterHand(ws[i]), u)
         == CountOf(WriterHands(ws), u) + CountOf(WriterHand(w), u)
  {
    CountOfAppend(WriterHand(ws[0]), WriterHands(ws[1..]), u);
    if i == 0 {
      assert ws[i := w][1..] == ws[1..];
      CountOfAppend(WriterHand(w), WriterHands(ws[1..]), u);
    } else {
      assert ws[i := w][1..] == ws[1..][i - 1 := w];
      CountOfAppend(WriterHand(ws[0]), WriterHands(ws[1..][i - 1 := w]), u);
      WriterHandsUpdate(ws[1..], i - 1, w, u);
    }
  }

  lemma UnlinkPartitions(pend: seq<Urb>, seqnum: nat, u: Urb)
    ensures CountOf(pend, u) == CountOf(Without(pend, seqnum), u) + CountOf(Named(pend, seqnum), u)
  {
    if pend != [] {
      var hit := pend[0].seqnum == seqnum;
      CountOfAppend(if hit then [] else [pend[0]], Without(pend[1..], seqnum), u);
      CountOfAppend(if hit then [pend[0]] else [], Named(pend[1..], seqnum), u);
      UnlinkPartitions(pend[1..], seqnum, u);
    }
  }

  lemma UrbsAppend(wire: seq<Completion>, c: Completion, u: Urb)
    ensures CountOf(Urbs(wire + [c]), u) == CountOf(Urbs(wire), u) + CountOf([c.urb], u)
  {
    if wire == [] {
      assert wire + [c] == [c];
    } else {
      assert (wire + [c])[1..] == wire[1..] + [c];
      UrbsAppend(wire[1..], c, u);
    }
  }

  /** One step moves URBs between places and never makes, copies or loses one. */
  lemma PlacesStep(s: State, t: Step, u: Urb)
    requires s.ep.Valid() && Enabled(s, t)
    ensures var s' := Next(s, t);
            Places(s', u) - Places(s, u) == CountOf(s'.submitted, u) - CountOf(s.submitted, u)
  {
    if t.BeginWrite? || t.PopForWrite? || t.SendParked? || t.EndWrite? {
      PlacesWriterStep(s, t, u);
    } else if t.Stalling? || t.SendStall? || t.Clearing? || t.Unlinking? {
      PlacesOtherStep(s, t, u);
    } else {
      PlacesServerStep(s, t, u);
    }
  }

  lemma PlacesWriterStep(s: State, t: Step, u: Urb)
    requires s.ep.Valid() && Enabled(s, t)
    requires t.BeginWrite? || t.PopForWrite? || t.SendParked? || t.EndWrite?
    ensures var s' := Next(s, t); Places(s', u) == Places(s, u) && s'.submitted == s.submitted
  {
    var s' := Next(s, t);
    WriterHandsUpdate(s.writers, t.i, s'.writers[t.i], u);
    if t.PopForWrite? {
      assert WriterHand(s'.writers[t.i]) == [s.ep.pend[0]];
    } else if t.SendParked? {
      UrbsAppend(s.wire, s'.wire[|s.wire|], u);
    }
  }

  lemma PlacesServerStep(s: State, t: Step, u: Urb)
    requires s.ep.Valid() && Enabled(s, t)
    requires t.Submit? || t.CheckHalt? || t.Reject? || t.Serve? || t.SendSlice?
    ensures var s' := Next(s, t);
            Places(s', u) - Places(s, u) == CountOf(s'.submitted, u) - CountOf(s.submitted, u)
  {
    var s' := Next(s, t);
    if t.Submit? {
      CountOfAppend(s.submitted, [t.urb], u);
    } else if t.Serve? && s.ep.inq == [] {
      CountOfAppend(s.ep.pend, [s.server.urb], u);
      CountOfAppend(s.dropped, DroppedByPark(s.ep), u);
    } else if t.Reject? || t.SendSlice? {
      UrbsAppend(s.wire, s'.wire[|s.wire|], u);
    }
  }

  lemma PlacesOtherStep(s: State, t: Step, u: Urb)
    requires s.ep.Valid() && Enabled(s, t)
    requires t.Stalling? || t.SendStall? || t.Clearing? || t.Unlinking?
    ensures var s' := Next(s, t); Places(s', u) == Places(s, u) && s'.submitted == s.submitted
  {
    var s' := Next(s, t);
    match t
    case Stalling => CountOfAppend(s.stalling, s.ep.pend, u);
    case SendStall(k) =>
      UrbsAppend(s.wire, s'.wire[|s.wire|], u);
      CountOfRemove(s.stalling, k, u);
    case Clearing =>
    case Unlinking(seqnum) =>
      UnlinkPartitions(s.ep.pend, seqnum, u);
      CountOfAppend(s.unlinked, Named(s.ep.pend, seqnum), u);
  }

  // ---- whole runs --------------------------------------------------------------------

  ghost predicate DistinctSeqnums(us: seq<Urb>) {
    forall i, j :: 0 <= i < j < |us| ==> us[i].seqnum != us[j].seqnum
  }

  ghost predicate Accounted(s: State) {
    forall u :: Places(s, u) == CountOf(s.submitted, u)
  }

  lemma CountIdleHands(ws: seq<Writer>)
    requires forall i :: 0 <= i < |ws| ==> ws[i] == Idle
    ensures WriterHands(ws) == []
  {}

  lemma CountDistinct(us: seq<Urb>, u: Urb)
    requires DistinctSeqnums(us)
    ensures CountOf(us, u) == if u in us then 1 else 0
  {
    if us != [] {
      CountDistinct(us[1..], u);
    }
  }

  lemma CountMember(us: seq<Urb>, u: Urb)
    ensures u in us <==> CountOf(us, u) > 0
  {}

  /** At every state of every run, with any number of writers: the parked list and the data
      queue are never both non-empty, and every submitted URB is in exactly one place. */
  lemma {:induction false} RunInvariant(ss: seq<State>, ts: seq<Step>, k: nat)
    requires Run(ss, ts) && k < |ss|
    ensures QueueInv(ss[k]) && Accounted(ss[k]) && DistinctSeqnums(ss[k].submitted)
    ensures forall u :: Places(ss[k], u) == if u in ss[k].submitted then 1 else 0
  {
    if k == 0 {
      CountIdleHands(ss[0].writers);
    } else {
      RunInvariant(ss, ts, k - 1);
      var t := ts[k - 1];
      QueueInvStep(ss[k - 1], t);
      forall u ensures Places(ss[k], u) == CountOf(ss[k].submitted, u) {
        PlacesStep(ss[k - 1], t, u);
      }
    }
    forall u ensures CountOf(ss[k].submitted, u) == if u in ss[k].submitted then 1 else 0 {
      CountDistinct(ss[k].submitted, u);
    }
  }
}
