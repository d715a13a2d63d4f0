/** A Bulk-Only host against the device: command, data phase, status, one command after the
    other, with the host clearing a halt wherever a transfer STALLs. */
module BotHost {
  import opened Bytes
  import opened Endpoint
  import opened Pipe
  import opened Scsi
  import opened BulkOnly

  /** What the host does with one command. `early` submits the data-phase read before the
      command itself; `chunks` is how it cuts the data it sends. */
  datatype Exchange = Exchange(
    cbw: Cbw, early: bool, chunks: seq<seq<byte>>, dataId: nat, cswId: nat, io: Backend)

  /** One bulk-OUT URB: STALLed on a halted pipe, handed to the class otherwise. */
  function OutUrb(m: Msc, data: seq<byte>, io: Backend, text: Text): Msc
    requires m.Valid()
  {
    if m.out.ep.halted then m else OnOut(m, data, io, text)
  }

  /** The host's data-out phase: it stops at a STALL and clears the halt. */
  function SendChunks(m: Msc, chunks: seq<seq<byte>>, io: Backend, text: Text): Msc
    requires m.Valid()
    decreases |chunks|
  {
    if chunks == [] then m
    else if m.out.ep.halted then m.(out := Unhalt(m.out))
    else
      OnOutValid(m, chunks[0], io, text);
      SendChunks(OnOut(m, chunks[0], io, text), chunks[1..], io, text)
  }

  function ReadIn(m: Msc, u: Urb): Msc
    requires m.Valid()
  {
    m.(inp := Dispatch(m.inp, u))
  }

  predicate LastStalled(wire: seq<Completion>) {
    wire != [] && wire[|wire| - 1].status == Endpoint.Stall
  }

  function DataPhase(m: Msc, x: Exchange, text: Text): Msc
    requires m.Valid()
  {
    if x.cbw.dlen == 0 then m
    else if x.cbw.isIn then
      var m1 := if x.early then m else ReadIn(m, Urb(x.dataId, x.cbw.dlen));
      if LastStalled(m1.inp.wire) then m1.(inp := Unhalt(m1.inp)) else m1
    else SendChunks(m, x.chunks, x.io, text)
  }

  lemma SendChunksValid(m: Msc, chunks: seq<seq<byte>>, io: Backend, text: Text)
    requires m.Valid()
    ensures SendChunks(m, chunks, io, text).Valid()
    decreases |chunks|
  {
    if chunks != [] && !m.out.ep.halted {
      OnOutValid(m, chunks[0], io, text);
      SendChunksValid(OnOut(m, chunks[0], io, text), chunks[1..], io, text);
    }
  }

  lemma DataPhaseValid(m: Msc, x: Exchange, text: Text)
    requires m.Valid()
    ensures DataPhase(m, x, text).Valid()
  {
    SendChunksValid(m, x.chunks, x.io, text);
  }

  /** The host's read, if it submits it before the command. */
  function ReadAhead(m: Msc, x: Exchange): Msc
    requires m.Valid()
  {
    if x.early && x.cbw.isIn && x.cbw.dlen > 0 then ReadIn(m, Urb(x.dataId, x.cbw.dlen)) else m
  }

  function Run1(m: Msc, x: Exchange, text: Text): Msc
    requires m.Valid() && x.cbw.Valid()
  {
    var m1 := ReadAhead(m, x);
    OnOutValid(m1, x.cbw.Wire(), x.io, text);
    var m2 := OutUrb(m1, x.cbw.Wire(), x.io, text);
    DataPhaseValid(m2, x, text);
    ReadIn(DataPhase(m2, x, text), Urb(x.cswId, CSW_LEN))
  }

  // ---- what an exchange should come to -----------------------------------------------

  /** Between commands: nothing queued, nothing parked, no halt, no write in flight. */
  ghost predicate Quiet(m: Msc) {
    && m.Valid() && m.writing.NoWrite?
    && m.inp.ep == FRESH
    && m.out.ep.pend == [] && m.out.ep.tailNull && !m.out.ep.halted
  }

  function OutcomeOf(m: Msc, x: Exchange, text: Text): Outcome
    requires m.Valid() && x.cbw.Valid()
  {
    if x.cbw.lun >= |m.luns| then Refuse(LUN_NOT_SUPPORTED)
    else Execute(m.luns[x.cbw.lun], x.cbw.lun, x.cbw.cdb, x.io, text)
  }

  /** A valid, meaningful CBW and a host that sends what it announced: commands without data
      announce none, reads are flagged IN, and a write announces exactly its blocks. */
  ghost predicate Meaningful(m: Msc, x: Exchange, text: Text) {
    m.Valid() && x.cbw.Valid() && Suits(x, OutcomeOf(m, x, text))
  }

  ghost predicate Suits(x: Exchange, o: Outcome) {
    && (!x.cbw.isIn && x.cbw.dlen > 0 ==> x.chunks != [])
    && match o
       case Status => x.cbw.dlen == 0
       case Data(bytes) => bytes != [] ==> x.cbw.isIn || x.cbw.dlen == 0
       case Refuse(sense) => true
       case AwaitData(lba, count, need) =>
         !x.cbw.isIn && 0 < x.cbw.dlen == need == |Flatten(x.chunks)|
  }

  /** The bytes the device has for the data phase. */
  function Delivered(o: Outcome, dlen: nat): seq<byte> {
    if o.Data? then o.bytes[..Min(|o.bytes|, dlen)] else []
  }

  function Residue(o: Outcome, dlen: nat): nat {
    if o.AwaitData? then 0 else dlen - |Delivered(o, dlen)|
  }

  function CswStatus(o: Outcome, io: Backend): byte {
    if o.Refuse? || (o.AwaitData? && io.Fails?) then FAILED else PASSED
  }

  function DataReply(x: Exchange, data: seq<byte>): seq<Completion> {
    if x.cbw.isIn && x.cbw.dlen > 0
    then [Completion(Urb(x.dataId, x.cbw.dlen), if data == [] then Endpoint.Stall else Ok, data)]
    else []
  }

  /** The completions a host sees on the bulk-IN pipe for one command. */
  function Replies(o: Outcome, x: Exchange): seq<Completion> {
    var data := Delivered(o, x.cbw.dlen);
    DataReply(x, data)
    + [Completion(Urb(x.cswId, CSW_LEN), Ok, Csw(x.cbw.tag, Residue(o, x.cbw.dlen), CswStatus(o, x.io)))]
  }

  function LunsAfter(m: Msc, x: Exchange, text: Text): seq<Lun>
    requires m.Valid() && x.cbw.Valid()
  {
    var o := OutcomeOf(m, x, text);
    var i := if x.cbw.lun < |m.luns| then x.cbw.lun else 0;
    if o.AwaitData? && |Flatten(x.chunks)| == o.need then
      m.luns[i := Store(m.luns[i], o.lba, o.count, Flatten(x.chunks), x.io)]
    else m.luns[i := Settle(m.luns[i], x.cbw.cdb, o)]
  }

  // ---- the pipe in the few states an exchange meets -----------------------------------

  lemma WriteQueues(p: Port, data: seq<byte>)
    requires p.ep.pend == [] && data != []
    ensures Write(p, data) == p.(ep := Enqueue(p.ep, data))
  {}

  lemma WriteFeeds(p: Port, u: Urb, data: seq<byte>)
    requires p.ep == Ep([], [u], false, false) && data != [] && |data| <= u.length
    ensures Write(p, data) == Port(FRESH, p.wire + [Completion(u, Ok, data)])
  {
    var p1 := Port(PopParked(p.ep), p.wire + [Completion(u, Ok, data[..|data|])]);
    assert data[..|data|] == data && data[|data|..] == [];
    assert Write(p, data) == Write(p1, data[|data|..]);
  }

  lemma HaltFails(p: Port, u: Urb)
    requires p.ep == Ep([], [u], false, false)
    ensures Halt(p) == Port(Ep([], [], true, true), p.wire + [Completion(u, Endpoint.Stall, [])])
  {
    assert Stalled([u][1..]) == [];
  }

  /** An URB with room takes the whole first write and nothing of the next. */
  lemma TakeFirst(p: Port, u: Urb, data: seq<byte>, next: seq<Dbuf>)
    requires p.ep.Valid() && p.ep.inq == [Dbuf(data, 0)] + next && !p.ep.halted
    requires data != [] && |data| <= u.length
    ensures Dispatch(p, u) == Port(p.ep.(inq := next), p.wire + [Completion(u, Ok, data)])
  {
    assert data[0..|data|] == data;
    assert p.ep.inq[1..] == next;
  }

  // ---- one exchange ------------------------------------------------------------------

  /** The reply to any command but an accepted write: data or a stall, then the CSW. */
  function Finish(m: Msc, c: Cbw, data: seq<byte>, status: byte): Msc
    requires |data| <= c.dlen
  {
    var m1 := if data != [] then m.(inp := Write(m.inp, data)) else StallDataPhase(m, c.dlen);
    SendCsw(m1, c.tag, c.dlen - |data|, status)
  }

  lemma ActFinishes(m: Msc, lun: nat, x: Exchange, o: Outcome)
    requires lun < |m.luns| && x.cbw.Valid() && Suits(x, o) && !o.AwaitData?
    ensures var data := Delivered(o, x.cbw.dlen);
            |data| <= x.cbw.dlen
            && Act(m, lun, x.cbw.tag, x.cbw.dlen, x.cbw.cdb, o)
               == Finish(m.(luns := m.luns[lun := Settle(m.luns[lun], x.cbw.cdb, o)]),
                         x.cbw, data, CswStatus(o, x.io))
  {}

  lemma OnOutFinishes(m: Msc, x: Exchange, text: Text)
    requires m.writing.NoWrite? && Meaningful(m, x, text) && !OutcomeOf(m, x, text).AwaitData?
    ensures var o := OutcomeOf(m, x, text);
            |Delivered(o, x.cbw.dlen)| <= x.cbw.dlen
            && OnOut(m, x.cbw.Wire(), x.io, text)
               == Finish(m.(cbwIn := x.cbw.isIn, luns := LunsAfter(m, x, text)),
                         x.cbw, Delivered(o, x.cbw.dlen), CswStatus(o, x.io))
  {
    ParseWire(x.cbw);
    var lun := if x.cbw.lun < |m.luns| then x.cbw.lun else 0;
    ActFinishes(m.(cbwIn := x.cbw.isIn), lun, x, OutcomeOf(m, x, text));
  }

  lemma OnOutAwaits(m: Msc, x: Exchange, text: Text)
    requires m.writing.NoWrite? && Meaningful(m, x, text)
    requires OutcomeOf(m, x, text).AwaitData?
    ensures var o := OutcomeOf(m, x, text);
            x.cbw.lun < |m.luns|
            && OnOut(m, x.cbw.Wire(), x.io, text)
               == m.(cbwIn := false, writing := Writing(x.cbw.tag, x.cbw.lun, o.lba, o.count, o.need, []))
  {
    ParseWire(x.cbw);
    Accepted(m.luns[x.cbw.lun], x.cbw.lun, x.cbw.cdb, x.io, text);
    assert m.luns[x.cbw.lun := m.luns[x.cbw.lun]] == m.luns;
  }

  ghost predicate Completed(m: Msc, x: Exchange, text: Text)
    requires m.Valid() && x.cbw.Valid()
  {
    var m' := Run1(m, x, text);
    && Quiet(m')
    && m'.inp.wire == m.inp.wire + Replies(OutcomeOf(m, x, text), x)
    && m'.luns == LunsAfter(m, x, text)
  }

  /** The status read finds exactly the CSW. */
  lemma StatusRead(m: Msc, x: Exchange, csw: seq<byte>)
    requires m.Valid() && m.writing.NoWrite? && |csw| == CSW_LEN
    requires m.inp.ep == FRESH.(inq := [Dbuf(csw, 0)])
    requires m.out.ep.pend == [] && m.out.ep.tailNull && !m.out.ep.halted
    ensures var m' := ReadIn(m, Urb(x.cswId, CSW_LEN));
            Quiet(m') && m'.luns == m.luns
            && m'.inp.wire == m.inp.wire + [Completion(Urb(x.cswId, CSW_LEN), Ok, csw)]
  {
    TakeFirst(m.inp, Urb(x.cswId, CSW_LEN), csw, []);
  }

  /** Only the CSW is left to read, and nothing else differs from `m` but the wire. */
  ghost predicate CswQueued(m': Msc, m: Msc, csw: seq<byte>, data: seq<Completion>) {
    && m'.Valid() && m'.writing.NoWrite? && m'.luns == m.luns
    && m'.inp == Port(FRESH.(inq := [Dbuf(csw, 0)]), m.inp.wire + data)
    && m'.out.ep.pend == [] && m'.out.ep.tailNull && !m'.out.ep.halted
  }

  lemma NoDataPhase(m: Msc, x: Exchange, status: byte, text: Text)
    requires Quiet(m) && x.cbw.Valid() && x.cbw.dlen == 0
    ensures var m2 := Finish(m, x.cbw, [], status);
            m2.Valid() && CswQueued(DataPhase(m2, x, text), m, Csw(x.cbw.tag, 0, status), [])
  {
    assert m.inp.wire + [] == m.inp.wire;
  }

  lemma OutPhaseStalls(m: Msc, x: Exchange, status: byte, text: Text)
    requires Quiet(m) && x.cbw.Valid() && x.cbw.dlen > 0 && !x.cbw.isIn && !m.cbwIn && x.chunks != []
    ensures var m2 := Finish(m, x.cbw, [], status);
            m2.Valid() && CswQueued(DataPhase(m2, x, text), m, Csw(x.cbw.tag, x.cbw.dlen, status), [])
  {
    assert m.inp.wire + [] == m.inp.wire;
  }

  /** The host's read was already parked when the device answered. */
  lemma EarlyReadServed(m: Msc, x: Exchange, data: seq<byte>, status: byte, text: Text)
    requires Quiet(m) && x.cbw.Valid() && x.cbw.isIn && m.cbwIn && |data| <= x.cbw.dlen && x.cbw.dlen > 0
    requires x.early
    ensures var u := Urb(x.dataId, x.cbw.dlen);
            var m2 := Finish(ReadIn(m, u), x.cbw, data, status);
            m2.Valid() &&
            CswQueued(DataPhase(m2, x, text), m, Csw(x.cbw.tag, x.cbw.dlen - |data|, status),
                      [Completion(u, if data == [] then Endpoint.Stall else Ok, data)])
  {
    var u := Urb(x.dataId, x.cbw.dlen);
    var m1 := ReadIn(m, u);
    if data == [] {
      HaltFails(m1.inp, u);
    } else {
      WriteFeeds(m1.inp, u, data);
    }
  }

  /** The host's read comes after the answer: the queued data is not merged with the CSW. */
  lemma LateReadServed(m: Msc, x: Exchange, data: seq<byte>, status: byte, text: Text)
    requires Quiet(m) && x.cbw.Valid() && x.cbw.isIn && m.cbwIn && |data| <= x.cbw.dlen && x.cbw.dlen > 0
    requires !x.early
    ensures var u := Urb(x.dataId, x.cbw.dlen);
            var m2 := Finish(m, x.cbw, data, status);
            m2.Valid() &&
            CswQueued(DataPhase(m2, x, text), m, Csw(x.cbw.tag, x.cbw.dlen - |data|, status),
                      [Completion(u, if data == [] then Endpoint.Stall else Ok, data)])
  {
    if data != [] {
      DataThenStatus(m.inp, data, Csw(x.cbw.tag, x.cbw.dlen - |data|, status), Urb(x.dataId, x.cbw.dlen));
    }
  }

  /** Data and status queued one after the other: the next URB takes the data and no more. */
  lemma DataThenStatus(p: Port, data: seq<byte>, csw: seq<byte>, u: Urb)
    requires p.ep == FRESH && data != [] && csw != [] && |data| <= u.length
    ensures Write(Write(p, data), csw).ep.Valid()
    ensures Dispatch(Write(Write(p, data), csw), u)
         == Port(FRESH.(inq := [Dbuf(csw, 0)]), p.wire + [Completion(u, Ok, data)])
  {
    WriteQueues(p, data);
    var q := Write(Write(p, data), csw);
    assert q.ep.inq == [Dbuf(data, 0)] + [Dbuf(csw, 0)];
    TakeFirst(q, u, data, [Dbuf(csw, 0)]);
  }

  lemma PhaseServed(m: Msc, x: Exchange, data: seq<byte>, status: byte, text: Text)
    requires Quiet(m) && x.cbw.Valid() && m.cbwIn == x.cbw.isIn && |data| <= x.cbw.dlen
    requires data != [] ==> x.cbw.isIn
    requires !x.cbw.isIn && x.cbw.dlen > 0 ==> x.chunks != []
    ensures var m2 := Finish(ReadAhead(m, x), x.cbw, data, status);
            m2.Valid() &&
            CswQueued(DataPhase(m2, x, text), m, Csw(x.cbw.tag, x.cbw.dlen - |data|, status), DataReply(x, data))
  {
    if x.cbw.dlen == 0 {
      NoDataPhase(m, x, status, text);
    } else if !x.cbw.isIn {
      OutPhaseStalls(m, x, status, text);
    } else if x.early {
      EarlyReadServed(m, x, data, status, text);
    } else {
      LateReadServed(m, x, data, status, text);
    }
  }

  lemma LunsStayValid(m: Msc, x: Exchange, text: Text)
    requires m.Valid() && x.cbw.Valid()
    ensures |LunsAfter(m, x, text)| == |m.luns|
    ensures forall i :: 0 <= i < |m.luns| ==> LunsAfter(m, x, text)[i].Valid()
  {}

  lemma ReadAheadOnly(m: Msc, x: Exchange, text: Text)
    requires Quiet(m) && x.cbw.Valid()
    ensures var m1 := ReadAhead(m, x);
            m1.Valid() && m1 == m.(inp := m1.inp) && !m1.out.ep.halted
            && OutcomeOf(m1, x, text) == OutcomeOf(m, x, text)
            && LunsAfter(m1, x, text) == LunsAfter(m, x, text)
  {}

  /** Where the command leaves the device, its answer already on the pipe. */
  lemma CommandAnswered(m: Msc, x: Exchange, text: Text)
    requires Quiet(m) && Meaningful(m, x, text) && !OutcomeOf(m, x, text).AwaitData?
    ensures var o := OutcomeOf(m, x, text);
            var data := Delivered(o, x.cbw.dlen);
            var base := m.(cbwIn := x.cbw.isIn, luns := LunsAfter(m, x, text));
            && Quiet(base) && |data| <= x.cbw.dlen && ReadAhead(m, x).Valid()
            && OutUrb(ReadAhead(m, x), x.cbw.Wire(), x.io, text)
               == Finish(ReadAhead(base, x), x.cbw, data, CswStatus(o, x.io))
  {
    ReadAheadOnly(m, x, text);
    OnOutFinishes(ReadAhead(m, x), x, text);
    LunsStayValid(m, x, text);
    var base := m.(cbwIn := x.cbw.isIn, luns := LunsAfter(m, x, text));
    assert ReadAhead(base, x) == ReadAhead(m, x).(cbwIn := x.cbw.isIn, luns := LunsAfter(m, x, text));
  }

  /** From the state after the command to the end of the exchange. */
  lemma Conclude(m: Msc, x: Exchange, text: Text, m2: Msc, base: Msc, csw: seq<byte>, data: seq<Completion>)
    requires m.Valid() && x.cbw.Valid() && ReadAhead(m, x).Valid()
    requires m2 == OutUrb(ReadAhead(m, x), x.cbw.Wire(), x.io, text) && m2.Valid()
    requires CswQueued(DataPhase(m2, x, text), base, csw, data) && |csw| == CSW_LEN
    requires base.inp == m.inp
    ensures var m' := Run1(m, x, text);
      && Quiet(m') && m'.luns == base.luns
      && m'.inp.wire == m.inp.wire + (data + [Completion(Urb(x.cswId, CSW_LEN), Ok, csw)])
  {
    StatusRead(DataPhase(m2, x, text), x, csw);
  }

  /** An answered command, from the device's state after it to the end of the exchange. */
  lemma Concluded(m: Msc, x: Exchange, text: Text, base: Msc, data: seq<byte>, status: byte, replies: seq<Completion>)
    requires m.Valid() && Quiet(base) && x.cbw.Valid() && base.cbwIn == x.cbw.isIn && base.inp == m.inp
    requires |data| <= x.cbw.dlen && (data != [] ==> x.cbw.isIn) && (!x.cbw.isIn && x.cbw.dlen > 0 ==> x.chunks != [])
    requires ReadAhead(m, x).Valid()
    requires OutUrb(ReadAhead(m, x), x.cbw.Wire(), x.io, text) == Finish(ReadAhead(base, x), x.cbw, data, status)
    requires replies == DataReply(x, data)
      + [Completion(Urb(x.cswId, CSW_LEN), Ok, Csw(x.cbw.tag, x.cbw.dlen - |data|, status))]
    ensures var m' := Run1(m, x, text);
      Quiet(m') && m'.luns == base.luns && m'.inp.wire == m.inp.wire + replies
  {
    PhaseServed(base, x, data, status, text);
    Conclude(m, x, text, Finish(ReadAhead(base, x), x.cbw, data, status), base,
             Csw(x.cbw.tag, x.cbw.dlen - |data|, status), DataReply(x, data));
  }

  /** Every command but an accepted write. */
  lemma AnsweredExchange(m: Msc, x: Exchange, text: Text)
    requires Quiet(m) && Meaningful(m, x, text) && !OutcomeOf(m, x, text).AwaitData?
    ensures Completed(m, x, text)
  {
    CommandAnswered(m, x, text);
    var o := OutcomeOf(m, x, text);
    AnswerConcluded(m, x, text, o, m.(cbwIn := x.cbw.isIn, luns := LunsAfter(m, x, text)));
  }

  lemma AnswerConcluded(m: Msc, x: Exchange, text: Text, o: Outcome, base: Msc)
    requires m.Valid() && Quiet(base) && x.cbw.Valid() && base.cbwIn == x.cbw.isIn && base.inp == m.inp && !o.AwaitData?
    requires ReadAhead(m, x).Valid() && |Delivered(o, x.cbw.dlen)| <= x.cbw.dlen
    requires (Delivered(o, x.cbw.dlen) != [] ==> x.cbw.isIn) && (!x.cbw.isIn && x.cbw.dlen > 0 ==> x.chunks != [])
    requires OutUrb(ReadAhead(m, x), x.cbw.Wire(), x.io, text)
          == Finish(ReadAhead(base, x), x.cbw, Delivered(o, x.cbw.dlen), CswStatus(o, x.io))
    ensures var m' := Run1(m, x, text);
      Quiet(m') && m'.luns == base.luns && m'.inp.wire == m.inp.wire + Replies(o, x)
  {
    RepliesAre(o, x);
    Concluded(m, x, text, base, Delivered(o, x.cbw.dlen), CswStatus(o, x.io), Replies(o, x));
  }

  lemma RepliesAre(o: Outcome, x: Exchange)
    requires !o.AwaitData? && |Delivered(o, x.cbw.dlen)| <= x.cbw.dlen
    ensures var data := Delivered(o, x.cbw.dlen);
      Replies(o, x) == DataReply(x, data)
        + [Completion(Urb(x.cswId, CSW_LEN), Ok, Csw(x.cbw.tag, x.cbw.dlen - |data|, CswStatus(o, x.io)))]
  {}

  // ---- accepted writes ---------------------------------------------------------------

  lemma {:induction false} SendEmpties(m: Msc, chunks: seq<seq<byte>>, io: Backend, text: Text)
    requires m.Valid() && m.writing.NoWrite? && !m.out.ep.halted && Flatten(chunks) == []
    ensures SendChunks(m, chunks, io, text) == m
    decreases |chunks|
  {
    if chunks != [] {
      assert chunks[0] == [];
      SendEmpties(m, chunks[1..], io, text);
    }
  }

  /** However the host cuts the data, the backend gets all of it, once. */
  lemma {:induction false} WriteCollected(m: Msc, chunks: seq<seq<byte>>, io: Backend, text: Text)
    requires m.Valid() && m.writing.Writing? && !m.out.ep.halted
    requires |m.writing.got| < m.writing.need == |m.writing.got| + |Flatten(chunks)|
    ensures var w := m.writing;
            SendChunks(m, chunks, io, text)
            == SendCsw(m.(luns := m.luns[w.lun := Store(m.luns[w.lun], w.lba, w.count, w.got + Flatten(chunks), io)],
                          writing := NoWrite),
                       w.tag, 0, if io.Works? then PASSED else FAILED)
    decreases |chunks|
  {
    var w, c := m.writing, chunks[0];
    OnOutValid(m, c, io, text);
    var m1 := OnOut(m, c, io, text);
    assert c[..Min(|c|, w.need - |w.got|)] == c;
    assert w.got + c + Flatten(chunks[1..]) == w.got + Flatten(chunks);
    if |w.got + c| < w.need {
      WriteCollected(m1, chunks[1..], io, text);
    } else {
      assert w.got + Flatten(chunks) == w.got + c;
      SendEmpties(m1, chunks[1..], io, text);
    }
  }

  lemma WriteExchange(m: Msc, x: Exchange, text: Text)
    requires Quiet(m) && Meaningful(m, x, text) && OutcomeOf(m, x, text).AwaitData?
    ensures Completed(m, x, text)
  {
    var o := OutcomeOf(m, x, text);
    var i := x.cbw.lun;
    OnOutAwaits(m, x, text);
    var m2 := OnOut(m, x.cbw.Wire(), x.io, text);
    OnOutValid(m, x.cbw.Wire(), x.io, text);
    WriteCollected(m2, x.chunks, x.io, text);
    LunsStayValid(m, x, text);
    var csw := Csw(x.cbw.tag, 0, CswStatus(o, x.io));
    assert [] + Flatten(x.chunks) == Flatten(x.chunks);
    WriteQueues(m.inp, csw);
    var base := m.(cbwIn := false, luns := LunsAfter(m, x, text));
    assert m.inp.wire + [] == m.inp.wire;
    Conclude(m, x, text, m2, base, csw, []);
    assert [] + [Completion(Urb(x.cswId, CSW_LEN), Ok, csw)] == Replies(o, x);
  }

  // ---- whole sessions ----------------------------------------------------------------

  /** One command, any data phase, any split, either order of read and reply: the CSW read
      carries the command's own tag, delivered bytes and residue add up to what was announced,
      and the transport is quiet again. */
  lemma ExchangeCompletes(m: Msc, x: Exchange, text: Text)
    requires Quiet(m) && Meaningful(m, x, text)
    ensures Completed(m, x, text)
    ensures !OutcomeOf(m, x, text).AwaitData? ==>
      |Delivered(OutcomeOf(m, x, text), x.cbw.dlen)| + Residue(OutcomeOf(m, x, text), x.cbw.dlen) == x.cbw.dlen
    ensures OutcomeOf(m, x, text).AwaitData? ==>
      |Flatten(x.chunks)| + Residue(OutcomeOf(m, x, text), x.cbw.dlen) == x.cbw.dlen
  {
    if OutcomeOf(m, x, text).AwaitData? {
      WriteExchange(m, x, text);
    } else {
      AnsweredExchange(m, x, text);
    }
  }

  /** A session: each exchange meaningful where it starts. */
  ghost predicate Session(ms: seq<Msc>, xs: seq<Exchange>, text: Text) {
    && |ms| == |xs| + 1
    && Quiet(ms[0])
    && forall i {:trigger xs[i]} :: 0 <= i < |xs| ==>
      Meaningful(ms[i], xs[i], text) && ms[i + 1] == Run1(ms[i], xs[i], text)
  }

  lemma SessionStep(ms: seq<Msc>, xs: seq<Exchange>, i: nat, text: Text)
    requires Session(ms, xs, text) && i < |xs| && Quiet(ms[i])
    ensures xs[i].cbw.Valid() && Quiet(ms[i + 1])
    ensures ms[i + 1].inp.wire == ms[i].inp.wire + Replies(OutcomeOf(ms[i], xs[i], text), xs[i])
    ensures ms[i + 1].luns == LunsAfter(ms[i], xs[i], text)
  {
    ExchangeCompletes(ms[i], xs[i], text);
  }

  /** Over a whole session the device is quiet between commands, and each command adds to the
      bulk-IN pipe exactly its own replies and to the units exactly its own effect. */
  lemma {:induction false} SessionStaysInStep(ms: seq<Msc>, xs: seq<Exchange>, k: nat, text: Text)
    requires Session(ms, xs, text) && k <= |xs|
    ensures Quiet(ms[k])
    ensures k > 0 ==>
      && ms[k - 1].Valid() && xs[k - 1].cbw.Valid()
      && ms[k].inp.wire == ms[k - 1].inp.wire + Replies(OutcomeOf(ms[k - 1], xs[k - 1], text), xs[k - 1])
      && ms[k].luns == LunsAfter(ms[k - 1], xs[k - 1], text)
  {
    if k > 0 {
      SessionStaysInStep(ms, xs, k - 1, text);
      SessionStep(ms, xs, k - 1, text);
    }
  }
}
