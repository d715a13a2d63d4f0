/** The whole calls of Pipe are runs of the lock-section steps of Interleaving in which no other
    thread comes between. */
module PipeRuns {
  import opened Bytes
  import opened Endpoint
  import Pipe
  import opened Interleaving

  /** Steps taken one after the other from `s`. */
  ghost predicate Path(s: State, ts: seq<Step>)
    decreases |ts|
  {
    ts == [] || (s.ep.Valid() && Enabled(s, ts[0]) && Path(Next(s, ts[0]), ts[1..]))
  }

  ghost function After(s: State, ts: seq<Step>): State
    requires Path(s, ts)
    decreases |ts|
  {
    if ts == [] then s else After(Next(s, ts[0]), ts[1..])
  }

  function PortOf(s: State): Pipe.Port {
    Pipe.Port(s.ep, s.wire)
  }

  lemma Cons(s: State, t: Step, ts: seq<Step>)
    requires s.ep.Valid() && Enabled(s, t) && Path(Next(s, t), ts)
    ensures Path(s, [t] + ts) && After(s, [t] + ts) == After(Next(s, t), ts)
  {
    assert ([t] + ts)[1..] == ts;
  }

  // ---- usbip_device_write --------------------------------------------------------------

  /** The lock sections of a write of `data` by writer `i`, from the lock on. */
  function WriteSteps(ep: Ep, i: nat, data: seq<byte>): seq<Step>
    decreases |ep.pend|
  {
    if data == [] || ep.pend == [] then [EndWrite(i)]
    else [PopForWrite(i)] + ([SendParked(i)] + WriteSteps(PopParked(ep), i, data[Limit(ep.pend[0].length, |data|)..]))
  }

  lemma {:induction false} AtLockRuns(s: State, i: nat, data: seq<byte>)
    requires s.ep.Valid() && i < |s.writers| && s.writers[i] == AtLock(data)
    ensures var ts := WriteSteps(s.ep, i, data);
      Path(s, ts) && PortOf(After(s, ts)) == Pipe.Write(PortOf(s), data)
      && After(s, ts) == s.(ep := After(s, ts).ep, wire := After(s, ts).wire, writers := s.writers[i := Idle])
    decreases |s.ep.pend|
  {
    if data == [] || s.ep.pend == [] {
      Cons(s, EndWrite(i), []);
      assert [EndWrite(i)] + [] == [EndWrite(i)];
    } else {
      var n := Limit(s.ep.pend[0].length, |data|);
      var a := Next(s, PopForWrite(i));
      var b := Next(a, SendParked(i));
      var ts := WriteSteps(b.ep, i, data[n..]);
      AtLockRuns(b, i, data[n..]);
      Cons(a, SendParked(i), ts);
      Cons(s, PopForWrite(i), [SendParked(i)] + ts);
      assert b.writers[i := Idle] == s.writers[i := Idle];
    }
  }

  /** A write with nothing between its lock sections is Pipe.Write. */
  lemma WriteIsRun(s: State, i: nat, data: seq<byte>)
    requires s.ep.Valid() && i < |s.writers| && s.writers[i].Idle?
    ensures var ts := [BeginWrite(i, data)] + WriteSteps(s.ep, i, data);
      && Path(s, ts) && PortOf(After(s, ts)) == Pipe.Write(PortOf(s), data)
      && After(s, ts).writers == s.writers && After(s, ts).server == s.server
  {
    var a := Next(s, BeginWrite(i, data));
    AtLockRuns(a, i, data);
    Cons(s, BeginWrite(i, data), WriteSteps(s.ep, i, data));
    assert a.writers[i := Idle] == s.writers;
  }

  // ---- usbip_device_dispatch -------------------------------------------------------------

  function DispatchSteps(ep: Ep, u: Urb): seq<Step> {
    [Submit(u)] + ([CheckHalt] + (if ep.halted then [Reject] else if ep.inq == [] then [Serve] else [Serve] + [SendSlice]))
  }

  lemma Pair(s: State, t: Step, v: Step)
    requires s.ep.Valid() && Enabled(s, t) && Next(s, t).ep.Valid() && Enabled(Next(s, t), v)
    ensures Path(s, [t] + [v]) && After(s, [t] + [v]) == Next(Next(s, t), v)
  {
    Single(Next(s, t), v);
    Cons(s, t, [v]);
  }

  lemma Single(s: State, t: Step)
    requires s.ep.Valid() && Enabled(s, t)
    ensures Path(s, [t]) && After(s, [t]) == Next(s, t)
  {
    Cons(s, t, []);
    assert [t] + [] == [t];
  }

  /** A dispatch with nothing between its lock sections is Pipe.Dispatch. */
  lemma DispatchIsRun(s: State, u: Urb)
    requires s.ep.Valid() && s.server.Waiting? && forall v :: v in s.submitted ==> v.seqnum != u.seqnum
    ensures var ts := DispatchSteps(s.ep, u);
      && Path(s, ts) && PortOf(After(s, ts)) == Pipe.Dispatch(PortOf(s), u)
      && After(s, ts).writers == s.writers && After(s, ts).server.Waiting?
  {
    var a := Next(s, Submit(u));
    var b := Next(a, CheckHalt);
    if s.ep.halted {
      Single(b, Reject);
    } else if s.ep.inq == [] {
      Single(b, Serve);
    } else {
      Pair(b, Serve, SendSlice);
    }
    var rest := if s.ep.halted then [Reject] else if s.ep.inq == [] then [Serve] else [Serve] + [SendSlice];
    Cons(a, CheckHalt, rest);
    Cons(s, Submit(u), [CheckHalt] + rest);
  }

  // ---- usbip_ep_stall --------------------------------------------------------------------

  function StallSends(n: nat): seq<Step> {
    if n == 0 then [] else [SendStall(0)] + StallSends(n - 1)
  }

  lemma {:induction false} StallsSent(s: State)
    requires s.ep.Valid()
    ensures var ts := StallSends(|s.stalling|);
      Path(s, ts) && After(s, ts) == s.(stalling := [], wire := s.wire + Pipe.Stalled(s.stalling))
    decreases |s.stalling|
  {
    if s.stalling == [] {
      assert s.wire + [] == s.wire;
    } else {
      var a := Next(s, SendStall(0));
      assert a.stalling == s.stalling[1..];
      StallsSent(a);
      Cons(s, SendStall(0), StallSends(|a.stalling|));
      Assoc(s.wire, [Completion(s.stalling[0], Stall, [])], Pipe.Stalled(s.stalling[1..]));
    }
  }

  /** A stall with nothing between its steps is Pipe.Halt. */
  lemma HaltIsRun(s: State)
    requires s.ep.Valid() && s.stalling == []
    ensures var ts := [Stalling] + StallSends(|s.ep.pend|);
      && Path(s, ts) && PortOf(After(s, ts)) == Pipe.Halt(PortOf(s))
      && After(s, ts).writers == s.writers && After(s, ts).server == s.server && After(s, ts).stalling == []
  {
    var a := Next(s, Stalling);
    assert [] + s.ep.pend == s.ep.pend;
    StallsSent(a);
    Cons(s, Stalling, StallSends(|s.ep.pend|));
  }
}
