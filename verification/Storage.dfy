/** The units behind the transport: over any session each is one array of blocks holding the
    last write that covered each block, and over any OUT traffic at all a read-only unit
    keeps its medium. */
module Storage {
  import opened Bytes
  import opened Pipe
  import opened Scsi
  import opened BulkOnly
  import opened BotHost

  // ---- any OUT traffic ---------------------------------------------------------------

  datatype Event = Out(data: seq<byte>, io: Backend) | ResetRequest

  function Apply(m: Msc, e: Event, text: Text): Msc
    requires m.Valid()
  {
    match e
    case Out(data, io) => OnOut(m, data, io, text)
    case ResetRequest => Reset(m)
  }

  function ApplyAll(m: Msc, es: seq<Event>, text: Text): Msc
    requires m.Valid()
    decreases |es|
  {
    if es == [] then m
    else
      ApplyValid(m, es[0], text);
      ApplyAll(Apply(m, es[0], text), es[1..], text)
  }

  lemma ApplyValid(m: Msc, e: Event, text: Text)
    requires m.Valid()
    ensures Apply(m, e, text).Valid()
  {
    if e.Out? {
      OnOutValid(m, e.data, e.io, text);
    }
  }

  /** The unit an OUT transfer concerns: the one a write in flight named, or the one its CBW
      addresses, a missing unit being answered for by unit 0. */
  function Concerned(m: Msc, data: seq<byte>): nat {
    if m.writing.Writing? then m.writing.lun
    else if |data| == CBW_LEN && Parse(data).lun < |m.luns| then Parse(data).lun
    else 0
  }

  /** One OUT transfer: shapes never change, only a write in flight changes a medium and only
      the unit its CBW named, only a command changes sense, and other units are untouched. */
  lemma OnOutFrame(m: Msc, data: seq<byte>, io: Backend, text: Text, i: nat)
    requires m.Valid() && i < |m.luns|
    ensures var m' := OnOut(m, data, io, text);
      && |m'.luns| == |m.luns|
      && m'.luns[i].(disk := m.luns[i].disk, sense := m.luns[i].sense) == m.luns[i]
      && |m'.luns[i].disk| == |m.luns[i].disk|
      && (m'.luns[i].disk != m.luns[i].disk ==> m.writing.Writing? && !m.luns[i].readOnly)
      && (m'.luns[i].sense != m.luns[i].sense ==> m.writing.NoWrite?)
      && (i != Concerned(m, data) ==> m'.luns[i] == m.luns[i])
  {
    if m.writing.NoWrite? && |data| == CBW_LEN && data[..4] == CBW_SIG {
      var c := Parse(data);
      if c.lun < |m.luns| {
        ActFrame(m.(cbwIn := c.isIn), c.lun, c.tag, c.dlen, c.cdb,
                 Execute(m.luns[c.lun], c.lun, c.cdb, io, text), i);
      }
    }
  }

  lemma ActFrame(m: Msc, lun: nat, tag: seq<byte>, dlen: nat, cdb: seq<byte>, o: Outcome, i: nat)
    requires lun < |m.luns| && |cdb| == 16 && i < |m.luns|
    ensures var m' := Act(m, lun, tag, dlen, cdb, o);
      |m'.luns| == |m.luns| && m'.luns[i].(sense := m.luns[i].sense) == m.luns[i]
      && (i != lun ==> m'.luns[i] == m.luns[i])
  {}

  /** Whatever the host sends, a read-only unit keeps every byte and every unit its size. */
  lemma {:induction false} ReadOnlyKept(m: Msc, es: seq<Event>, text: Text, i: nat)
    requires m.Valid() && i < |m.luns|
    ensures var m' := ApplyAll(m, es, text);
      m'.Valid() && |m'.luns| == |m.luns| && |m'.luns[i].disk| == |m.luns[i].disk|
      && m'.luns[i].bs == m.luns[i].bs && m'.luns[i].readOnly == m.luns[i].readOnly
      && (m.luns[i].readOnly ==> m'.luns[i].disk == m.luns[i].disk)
    decreases |es|
  {
    if es != [] {
      ApplyValid(m, es[0], text);
      if es[0].Out? {
        OnOutFrame(m, es[0].data, es[0].io, text, i);
      }
      ReadOnlyKept(Apply(m, es[0], text), es[1..], text, i);
    }
  }

  // ---- what any OUT traffic stores -------------------------------------------------------

  lemma {:induction false} ApplySnoc(m: Msc, es: seq<Event>, e: Event, text: Text)
    requires m.Valid()
    ensures ApplyAll(m, es, text).Valid() && ApplyAll(m, es + [e], text) == Apply(ApplyAll(m, es, text), e, text)
    decreases |es|
  {
    if es == [] {
      assert [] + [e] == [e] && [e][1..] == [];
      ApplyValid(m, e, text);
    } else {
      assert (es + [e])[1..] == es[1..] + [e];
      ApplyValid(m, es[0], text);
      ApplySnoc(Apply(m, es[0], text), es[1..], e, text);
    }
  }

  lemma {:induction false} TrafficValid(m: Msc, es: seq<Event>, text: Text)
    requires m.Valid()
    ensures ApplyAll(m, es, text).Valid()
    decreases |es|
  {
    if es != [] {
      ApplyValid(m, es[0], text);
      TrafficValid(Apply(m, es[0], text), es[1..], text);
    }
  }

  ghost predicate AllOut(es: seq<Event>) {
    forall i :: 0 <= i < |es| ==> es[i].Out?
  }

  /** The data of OUT transfers. */
  ghost function Sent(es: seq<Event>): seq<seq<byte>>
    requires AllOut(es)
  {
    seq(|es|, i requires 0 <= i < |es| => es[i].data)
  }

  /** `w` is the write whose CBW, 31 bytes starting USBC, came in state `m` as event `e`: its tag is
      bytes 4 to 7, its unit the low half of byte 13, and its blocks those the WRITE command from
      byte 15 on names. */
  ghost predicate Opened(m: Msc, e: Event, w: Writing) {
    && m.Valid() && w.Writing? && e.Out? && m.writing.NoWrite? && |e.data| == 31 && e.data[..4] == [0x55, 0x53, 0x42, 0x43]
    && var lun, cdb := e.data[13] % 16, e.data[15..31];
       && lun < |m.luns| && w.tag == e.data[4..8] && w.lun == lun
       && cdb[0] in {0x2A, 0xAA} && !m.luns[lun].readOnly && InUnit(m.luns[lun], cdb)
       && w.lba == First(cdb) && w.count == HowMany(cdb) && w.need == HowMany(cdb) * m.luns[lun].bs
  }

  /** After `es` the write `w` is in flight: its CBW was event `j`, and what it has got is the
      data of the transfers since. */
  ghost predicate InFlight(m: Msc, es: seq<Event>, text: Text, w: Writing, j: nat) {
    && m.Valid() && j < |es|
    && Opened(ApplyAll(m, es[..j], text), es[j], w)
    && AllOut(es[j + 1..]) && w.got == Flatten(Sent(es[j + 1..]))
  }

  lemma CommandOpens(m: Msc, e: Event, text: Text)
    requires m.Valid() && m.writing.NoWrite? && Apply(m, e, text).writing.Writing?
    ensures Opened(m, e, Apply(m, e, text).writing) && Apply(m, e, text).writing.got == []
  {
    if e.Out? && |e.data| == CBW_LEN && e.data[..4] == CBW_SIG {
      var c := Parse(e.data);
      if c.lun < |m.luns| {
        ActOpens(m.(cbwIn := c.isIn), c.lun, c.tag, c.dlen, c.cdb, Execute(m.luns[c.lun], c.lun, c.cdb, e.io, text));
        OnlyWritesAwait(m.luns[c.lun], c.lun, c.cdb, e.io, text);
        WriteTarget(m.luns[c.lun], c.lun, c.cdb, e.io, text);
      }
    }
  }

  lemma WriteTarget(l: Lun, i: nat, cdb: seq<byte>, io: Backend, text: Text)
    requires l.Valid() && |cdb| == 16 && cdb[0] in {0x2A, 0xAA} && !l.readOnly && InUnit(l, cdb)
    ensures Execute(l, i, cdb, io, text) == AwaitData(First(cdb), HowMany(cdb), HowMany(cdb) * l.bs)
    ensures First(cdb) + HowMany(cdb) <= l.Blocks() && HowMany(cdb) * l.bs == Mul32(HowMany(cdb), l.bs)
  {
    WriteCommand(l, i, cdb, io, text);
    InRange(l, First(cdb), HowMany(cdb));
  }

  lemma ActOpens(m: Msc, lun: nat, tag: seq<byte>, dlen: nat, cdb: seq<byte>, o: Outcome)
    requires lun < |m.luns| && |cdb| == 16 && m.writing.NoWrite?
    ensures var w := Act(m, lun, tag, dlen, cdb, o).writing;
      w == if o.AwaitData? then Writing(tag, lun, o.lba, o.count, o.need, []) else NoWrite
  {}

  lemma SentSnoc(es: seq<Event>, e: Event)
    requires e.Out? && AllOut(es)
    ensures AllOut(es + [e]) && Flatten(Sent(es + [e])) == Flatten(Sent(es)) + e.data
  {
    assert Sent(es + [e]) == Sent(es) + [e.data];
    FlattenSnoc(Sent(es), e.data);
  }

  lemma StaysInFlight(m: Msc, es: seq<Event>, e: Event, text: Text, w: Writing, j: nat)
    requires InFlight(m, es, text, w, j) && e.Out?
    ensures InFlight(m, es + [e], text, w.(got := w.got + e.data), j)
  {
    assert (es + [e])[..j] == es[..j] && (es + [e])[j] == es[j] && (es + [e])[j + 1..] == es[j + 1..] + [e];
    SentSnoc(es[j + 1..], e);
  }

  /** A transfer that does not complete the write adds all its bytes. */
  lemma CollectGrows(m: Msc, data: seq<byte>, io: Backend)
    requires m.Valid() && m.writing.Writing? && Collect(m, data, io).writing.Writing?
    ensures Collect(m, data, io) == m.(writing := m.writing.(got := m.writing.got + data))
  {
    assert data[..|data|] == data;
  }

  /** Whatever was sent before, a write in flight is one whose CBW was accepted, with exactly
      the bytes sent since. */
  lemma {:induction false} WriteIsItsBytes(m: Msc, es: seq<Event>, text: Text) returns (j: nat)
    requires m.Valid() && m.writing.NoWrite? && ApplyAll(m, es, text).writing.Writing?
    ensures InFlight(m, es, text, ApplyAll(m, es, text).writing, j)
    decreases |es|
  {
    var front, e := es[..|es| - 1], es[|es| - 1];
    assert es == front + [e];
    ApplySnoc(m, front, e, text);
    var s := ApplyAll(m, front, text);
    if s.writing.NoWrite? {
      j := |es| - 1;
      CommandOpens(s, e, text);
      assert es[j + 1..] == [] && Sent([]) == [];
    } else {
      j := WriteIsItsBytes(m, front, text);
      CollectGrows(s, e.data, e.io);
      StaysInFlight(m, front, e, text, s.writing, j);
    }
  }

  /** The transfer completes a write in flight on unit `u`. */
  predicate Completes(m: Msc, e: Event, u: nat) {
    e.Out? && m.writing.Writing? && m.writing.lun == u && |m.writing.got| + |e.data| >= m.writing.need
  }

  /** One event: a block of a unit changes only when a write on that unit completes. */
  lemma OneEvent(m: Msc, e: Event, text: Text, u: nat, i: nat)
    requires m.Valid() && u < |m.luns| && i < m.luns[u].Blocks()
    ensures var m' := Apply(m, e, text);
      && m'.Valid() && |m'.luns| == |m.luns| && m'.luns[u].bs == m.luns[u].bs && |m'.luns[u].disk| == |m.luns[u].disk|
      && BlockAt(m'.luns[u], i) ==
           if Completes(m, e, u) then
             Written(m.luns[u], m.writing.lba, m.writing.count, Gathered(m.writing, e.data), e.io, i, BlockAt(m.luns[u], i))
           else BlockAt(m.luns[u], i)
  {
    ApplyValid(m, e, text);
    if e.Out? {
      OnOutFrame(m, e.data, e.io, text, u);
      if Completes(m, e, u) {
        StoreWrites(m.luns[u], m.writing.lba, m.writing.count, Gathered(m.writing, e.data), e.io, i);
      } else {
        assert Apply(m, e, text).luns[u].disk == m.luns[u].disk;
      }
    }
  }

  lemma GatheredIsPrefix(m: Msc, es: seq<Event>, e: Event, text: Text, w: Writing, j: nat)
    requires InFlight(m, es, text, w, j) && e.Out? && |w.got| <= w.need <= |w.got| + |e.data|
    ensures InFlight(m, es + [e], text, w.(got := w.got + e.data), j)
    ensures Gathered(w, e.data) == (w.got + e.data)[..w.need]
  {
    StaysInFlight(m, es, e, text, w, j);
  }

  /** After any OUT traffic and resets, one more event changes block `i` of unit `u` only if it
      completes a write on that unit; that write's CBW was accepted as event `j`, and the block
      then holds its part of the first `need` bytes sent since, if the write covers it. */
  lemma TrafficStores(m: Msc, es: seq<Event>, e: Event, text: Text, u: nat, i: nat) returns (j: int)
    requires m.Valid() && m.writing.NoWrite? && u < |m.luns| && i < m.luns[u].Blocks()
    ensures var s, s' := ApplyAll(m, es, text), ApplyAll(m, es + [e], text);
      && s.Valid() && s'.Valid() && u < |s.luns| == |s'.luns|
      && s.luns[u].Blocks() == s'.luns[u].Blocks() == m.luns[u].Blocks()
      && (j < 0 ==> BlockAt(s'.luns[u], i) == BlockAt(s.luns[u], i))
      && (j >= 0 ==>
           && Completes(s, e, u)
           && var w := s.writing.(got := s.writing.got + e.data);
           InFlight(m, es + [e], text, w, j) && |w.got| >= w.need
           && BlockAt(s'.luns[u], i) == Written(s.luns[u], w.lba, w.count, w.got[..w.need], e.io, i, BlockAt(s.luns[u], i)))
  {
    var s := ApplyAll(m, es, text);
    TrafficValid(m, es, text);
    ReadOnlyKept(m, es, text, u);
    ApplySnoc(m, es, e, text);
    OneEvent(s, e, text, u, i);
    j := -1;
    if Completes(s, e, u) {
      j := WriteIsItsBytes(m, es, text);
      GatheredIsPrefix(m, es, e, text, s.writing, j);
    }
  }

  // ---- sessions ----------------------------------------------------------------------

  /** Exchange `x`, started in `m`, hands a write to unit `u`: its command is a WRITE of blocks the
      unit has, and the unit may be written. */
  predicate Hands(m: Msc, x: Exchange, u: nat)
    requires m.Valid() && x.cbw.Valid()
  {
    && x.cbw.lun == u < |m.luns| && x.cbw.cdb[0] in {0x2A, 0xAA}
    && !m.luns[u].readOnly && InUnit(m.luns[u], x.cbw.cdb)
  }

  lemma HandsAwaits(m: Msc, x: Exchange, text: Text, u: nat)
    requires m.Valid() && x.cbw.Valid() && u < |m.luns|
    ensures Hands(m, x, u) <==> x.cbw.lun == u && OutcomeOf(m, x, text).AwaitData?
    ensures Hands(m, x, u) ==>
      && OutcomeOf(m, x, text) == AwaitData(First(x.cbw.cdb), HowMany(x.cbw.cdb), HowMany(x.cbw.cdb) * m.luns[u].bs)
      && First(x.cbw.cdb) + HowMany(x.cbw.cdb) <= m.luns[u].Blocks()
      && HowMany(x.cbw.cdb) * m.luns[u].bs == Mul32(HowMany(x.cbw.cdb), m.luns[u].bs)
  {
    OnlyWritesAwait(m.luns[u], u, x.cbw.cdb, x.io, text);
    if Hands(m, x, u) {
      WriteTarget(m.luns[u], u, x.cbw.cdb, x.io, text);
    }
  }

  /** Block `i` of unit `u` after `x`, when it was `was` before: the part of the data sent that is
      for the block the command names. */
  function Brought(m: Msc, x: Exchange, text: Text, u: nat, i: nat, was: seq<byte>): seq<byte>
    requires Meaningful(m, x, text) && u < |m.luns| && i < m.luns[u].Blocks()
  {
    if Hands(m, x, u) then
      HandsAwaits(m, x, text, u);
      Written(m.luns[u], First(x.cbw.cdb), HowMany(x.cbw.cdb), Flatten(x.chunks), x.io, i, was)
    else was
  }

  /** The same units, with the block sizes and capacities they had. */
  ghost predicate SameUnits(a: seq<Lun>, b: seq<Lun>) {
    |a| == |b| && forall u :: 0 <= u < |a| ==> SameShape(a[u], b[u])
  }

  ghost predicate SameShape(a: Lun, b: Lun) {
    a.bs == b.bs && |a.disk| == |b.disk|
  }

  lemma UnitsStay(m: Msc, x: Exchange, text: Text, start: seq<Lun>)
    requires m.Valid() && x.cbw.Valid() && SameUnits(m.luns, start)
    ensures SameUnits(LunsAfter(m, x, text), start)
  {
    forall u | 0 <= u < |m.luns| ensures SameShape(LunsAfter(m, x, text)[u], start[u]) {
      assert SameShape(m.luns[u], start[u]);
    }
  }

  lemma SameUnitsSame(a: seq<Lun>)
    ensures SameUnits(a, a)
  {
    forall u | 0 <= u < |a| ensures SameShape(a[u], a[u]) {}
  }

  /** The first `k` exchanges were meaningful and the device kept its units. */
  ghost predicate Held(ms: seq<Msc>, xs: seq<Exchange>, k: nat, text: Text) {
    && k <= |xs| && k < |ms| && ms[0].Valid()
    && (k > 0 ==>
         && Held(ms, xs, k - 1, text)
         && Meaningful(ms[k - 1], xs[k - 1], text) && SameUnits(ms[k - 1].luns, ms[0].luns))
  }

  lemma {:induction false} SessionHeld(ms: seq<Msc>, xs: seq<Exchange>, k: nat, text: Text)
    requires Session(ms, xs, text) && k <= |xs|
    ensures Held(ms, xs, k, text) && ms[k].Valid() && SameUnits(ms[k].luns, ms[0].luns)
  {
    if k > 0 {
      SessionHeld(ms, xs, k - 1, text);
      UnitsAt(ms, xs, k - 1, text);
      UnitsStay(ms[k - 1], xs[k - 1], text, ms[0].luns);
    } else {
      SessionStaysInStep(ms, xs, k, text);
      SameUnitsSame(ms[0].luns);
    }
  }

  /** What the session says of the units at one step. */
  lemma UnitsAt(ms: seq<Msc>, xs: seq<Exchange>, k: nat, text: Text)
    requires Session(ms, xs, text) && k < |xs|
    ensures ms[k].Valid() && xs[k].cbw.Valid() && Meaningful(ms[k], xs[k], text)
    ensures ms[k + 1].Valid() && ms[k + 1].luns == LunsAfter(ms[k], xs[k], text)
  {
    SessionStaysInStep(ms, xs, k + 1, text);
    MeaningfulAt(ms, xs, k, text);
  }

  lemma MeaningfulAt(ms: seq<Msc>, xs: seq<Exchange>, i: nat, text: Text)
    requires Session(ms, xs, text) && i < |xs|
    ensures Meaningful(ms[i], xs[i], text)
  {}

  /** Block `i` of unit `u` as the history of the first `k` exchanges has it: the bytes of the
      last write that covered it, or what a backend that failed a write left there. */
  ghost function LastWritten(ms: seq<Msc>, xs: seq<Exchange>, k: nat, text: Text, u: nat, i: nat): seq<byte>
    requires Held(ms, xs, k, text) && u < |ms[0].luns| && i < ms[0].luns[u].Blocks()
  {
    if k == 0 then BlockAt(ms[0].luns[u], i)
    else
      assert SameShape(ms[k - 1].luns[u], ms[0].luns[u]);
      Brought(ms[k - 1], xs[k - 1], text, u, i, LastWritten(ms, xs, k - 1, text, u, i))
  }

  /** What one exchange does to one block. */
  lemma BlockAfter(m: Msc, x: Exchange, text: Text, u: nat, i: nat)
    requires Meaningful(m, x, text) && u < |m.luns| && i < m.luns[u].Blocks()
    ensures var l := LunsAfter(m, x, text)[u];
      l.Valid() && l.Blocks() == m.luns[u].Blocks() && BlockAt(l, i) == Brought(m, x, text, u, i, BlockAt(m.luns[u], i))
  {
    HandsAwaits(m, x, text, u);
    if Hands(m, x, u) {
      StoreWrites(m.luns[u], First(x.cbw.cdb), HowMany(x.cbw.cdb), Flatten(x.chunks), x.io, i);
    } else {
      assert LunsAfter(m, x, text)[u].disk == m.luns[u].disk;
    }
  }

  lemma StepBlock(ms: seq<Msc>, xs: seq<Exchange>, k: nat, text: Text, u: nat, i: nat)
    requires Session(ms, xs, text) && k < |xs| && Held(ms, xs, k + 1, text)
    requires u < |ms[0].luns| && i < ms[0].luns[u].Blocks()
    ensures SameShape(ms[k].luns[u], ms[0].luns[u]) && ms[k + 1].Valid() && u < |ms[k + 1].luns|
    ensures SameShape(ms[k + 1].luns[u], ms[0].luns[u])
    ensures BlockAt(ms[k + 1].luns[u], i) == Brought(ms[k], xs[k], text, u, i, BlockAt(ms[k].luns[u], i))
  {
    assert SameShape(ms[k].luns[u], ms[0].luns[u]);
    SessionHeld(ms, xs, k + 1, text);
    assert SameShape(ms[k + 1].luns[u], ms[0].luns[u]);
    UnitsAt(ms, xs, k, text);
    BlockAfter(ms[k], xs[k], text, u, i);
  }

  lemma {:induction false} HeldBlock(
    ms: seq<Msc>, xs: seq<Exchange>, k: nat, text: Text, u: nat, i: nat)
    requires Session(ms, xs, text) && Held(ms, xs, k, text)
    requires u < |ms[0].luns| && i < ms[0].luns[u].Blocks()
    ensures ms[k].Valid() && u < |ms[k].luns| && SameShape(ms[k].luns[u], ms[0].luns[u])
    ensures BlockAt(ms[k].luns[u], i) == LastWritten(ms, xs, k, text, u, i)
  {
    if k > 0 {
      StepBlock(ms, xs, k - 1, text, u, i);
      HeldBlock(ms, xs, k - 1, text, u, i);
    }
  }

  /** Over any session, with backends that fail reads or writes, every block of every unit holds
      what its history says. */
  lemma BlocksAreLastWritten(ms: seq<Msc>, xs: seq<Exchange>, k: nat, text: Text, u: nat, i: nat)
    requires Session(ms, xs, text) && k <= |xs| && u < |ms[0].luns| && ms[0].luns[u].Valid() && i < ms[0].luns[u].Blocks()
    ensures Held(ms, xs, k, text)
    ensures ms[k].Valid() && u < |ms[k].luns| && SameShape(ms[k].luns[u], ms[0].luns[u])
    ensures BlockAt(ms[k].luns[u], i) == LastWritten(ms, xs, k, text, u, i)
  {
    SessionHeld(ms, xs, k, text);
    HeldBlock(ms, xs, k, text, u, i);
  }

  /** A successful READ answers exactly the blocks it names. */
  lemma ReadOutcome(m: Msc, x: Exchange, text: Text)
    requires m.Valid() && x.cbw.Valid() && x.cbw.lun < |m.luns| && x.cbw.cdb[0] in {0x28, 0xA8}
    requires OutcomeOf(m, x, text).Data?
    ensures var l, cdb := m.luns[x.cbw.lun], x.cbw.cdb;
      First(cdb) + HowMany(cdb) <= l.Blocks() && (First(cdb) + HowMany(cdb)) * l.bs <= |l.disk|
      && OutcomeOf(m, x, text).bytes == ReadBlocks(l, First(cdb), HowMany(cdb))
  {
    var l, cdb := m.luns[x.cbw.lun], x.cbw.cdb;
    ReadCommand(l, x.cbw.lun, cdb, x.io, text);
    InRange(l, First(cdb), HowMany(cdb));
  }

  /** Block j of the answer to a READ that succeeds. */
  ghost function Answered(m: Msc, x: Exchange, text: Text, j: nat): seq<byte>
    requires m.Valid() && x.cbw.Valid() && x.cbw.lun < |m.luns| && x.cbw.cdb[0] in {0x28, 0xA8}
    requires OutcomeOf(m, x, text).Data? && j < HowMany(x.cbw.cdb)
  {
    ReadBlock(m, x, text, j);
    OutcomeOf(m, x, text).bytes[j * m.luns[x.cbw.lun].bs..(j + 1) * m.luns[x.cbw.lun].bs]
  }

  /** It is the medium's block. */
  lemma ReadBlock(m: Msc, x: Exchange, text: Text, j: nat)
    requires m.Valid() && x.cbw.Valid() && x.cbw.lun < |m.luns| && x.cbw.cdb[0] in {0x28, 0xA8}
    requires OutcomeOf(m, x, text).Data? && j < HowMany(x.cbw.cdb)
    ensures var l, i, bytes := m.luns[x.cbw.lun], First(x.cbw.cdb) + j, OutcomeOf(m, x, text).bytes;
      i < l.Blocks() && 0 <= j * l.bs <= (j + 1) * l.bs <= |bytes| && bytes[j * l.bs..(j + 1) * l.bs] == BlockAt(l, i)
  {
    ReadOutcome(m, x, text);
    ReadIsBlocks(m.luns[x.cbw.lun], First(x.cbw.cdb), HowMany(x.cbw.cdb), j);
  }

  lemma AnsweredIsBlock(m: Msc, x: Exchange, text: Text, j: nat)
    requires m.Valid() && x.cbw.Valid() && x.cbw.lun < |m.luns| && x.cbw.cdb[0] in {0x28, 0xA8}
    requires OutcomeOf(m, x, text).Data? && j < HowMany(x.cbw.cdb)
    ensures First(x.cbw.cdb) + j < m.luns[x.cbw.lun].Blocks()
    ensures Answered(m, x, text, j) == BlockAt(m.luns[x.cbw.lun], First(x.cbw.cdb) + j)
  {
    ReadBlock(m, x, text, j);
  }

  lemma HeldRead(ms: seq<Msc>, xs: seq<Exchange>, k: nat, text: Text, x: Exchange, j: nat)
    requires Session(ms, xs, text) && Held(ms, xs, k, text) && ms[k].Valid()
    requires x.cbw.Valid() && x.cbw.lun < |ms[0].luns| && SameUnits(ms[k].luns, ms[0].luns)
    requires x.cbw.cdb[0] in {0x28, 0xA8} && j < HowMany(x.cbw.cdb) && OutcomeOf(ms[k], x, text).Data?
    ensures First(x.cbw.cdb) + j < ms[0].luns[x.cbw.lun].Blocks()
    ensures Answered(ms[k], x, text, j) == LastWritten(ms, xs, k, text, x.cbw.lun, First(x.cbw.cdb) + j)
  {
    AnsweredIsBlock(ms[k], x, text, j);
    assert SameShape(ms[k].luns[x.cbw.lun], ms[0].luns[x.cbw.lun]);
    HeldBlock(ms, xs, k, text, x.cbw.lun, First(x.cbw.cdb) + j);
  }

  /** A READ after any session returns, for each block it names, the last data written to it. */
  lemma ReadReturnsLastWritten(ms: seq<Msc>, xs: seq<Exchange>, k: nat, text: Text, x: Exchange, j: nat)
    requires Session(ms, xs, text) && k <= |xs| && ms[k].Valid()
    requires x.cbw.Valid() && x.cbw.lun < |ms[k].luns|
    requires x.cbw.cdb[0] in {0x28, 0xA8} && j < HowMany(x.cbw.cdb) && OutcomeOf(ms[k], x, text).Data?
    ensures Held(ms, xs, k, text) && x.cbw.lun < |ms[0].luns|
    ensures First(x.cbw.cdb) + j < ms[0].luns[x.cbw.lun].Blocks()
    ensures Answered(ms[k], x, text, j) == LastWritten(ms, xs, k, text, x.cbw.lun, First(x.cbw.cdb) + j)
  {
    SessionHeld(ms, xs, k, text);
    HeldRead(ms, xs, k, text, x, j);
  }

  // ---- sense -------------------------------------------------------------------------

  /** The sense unit `u` holds by the history: the last refusal charged to it since its last
      REQUEST SENSE. */
  ghost function Recorded(ms: seq<Msc>, xs: seq<Exchange>, k: nat, text: Text, u: nat): Sense
    requires Held(ms, xs, k, text) && u < |ms[0].luns|
  {
    if k == 0 then ms[0].luns[u].sense
    else
      var m, x := ms[k - 1], xs[k - 1];
      var o := OutcomeOf(m, x, text);
      if Charged(m, x) == u && o.Refuse? then o.sense
      else if Charged(m, x) == u && x.cbw.cdb[0] == 0x03 then SENSE_OK
      else Recorded(ms, xs, k - 1, text, u)
  }

  /** The unit a command's sense goes to. */
  function Charged(m: Msc, x: Exchange): nat {
    if x.cbw.lun < |m.luns| then x.cbw.lun else 0
  }

  lemma {:induction false} HeldSense(ms: seq<Msc>, xs: seq<Exchange>, k: nat, text: Text, u: nat)
    requires Session(ms, xs, text) && Held(ms, xs, k, text) && u < |ms[0].luns| == |ms[k].luns|
    ensures ms[k].luns[u].sense == Recorded(ms, xs, k, text, u)
  {
    if k > 0 {
      HeldSense(ms, xs, k - 1, text, u);
      UnitsAt(ms, xs, k - 1, text);
      SenseAfter(ms[k - 1], xs[k - 1], text, u);
    }
  }

  /** Each unit's sense is its own history's. */
  lemma SenseIsRecorded(ms: seq<Msc>, xs: seq<Exchange>, k: nat, text: Text, u: nat)
    requires Session(ms, xs, text) && k <= |xs| && u < |ms[0].luns|
    ensures Held(ms, xs, k, text) && |ms[k].luns| == |ms[0].luns|
    ensures ms[k].luns[u].sense == Recorded(ms, xs, k, text, u)
  {
    SessionHeld(ms, xs, k, text);
    HeldSense(ms, xs, k, text, u);
  }

  /** REQUEST SENSE reports exactly what its own unit's history recorded. */
  lemma RequestSenseReports(ms: seq<Msc>, xs: seq<Exchange>, k: nat, text: Text)
    requires Session(ms, xs, text) && k < |xs| && xs[k].cbw.Valid()
    requires xs[k].cbw.lun < |ms[0].luns| && xs[k].cbw.cdb[0] == 0x03
    ensures Held(ms, xs, k, text) && ms[k].Valid()
    ensures OutcomeOf(ms[k], xs[k], text) == Data(SenseReply(Recorded(ms, xs, k, text, xs[k].cbw.lun)))
  {
    SessionHeld(ms, xs, k, text);
    HeldSense(ms, xs, k, text, xs[k].cbw.lun);
    ReportsSense(ms[k], xs[k], text);
  }

  lemma ReportsSense(m: Msc, x: Exchange, text: Text)
    requires m.Valid() && x.cbw.Valid() && x.cbw.lun < |m.luns| && x.cbw.cdb[0] == 0x03
    ensures OutcomeOf(m, x, text) == Data(SenseReply(m.luns[x.cbw.lun].sense))
  {}

  lemma SenseAfter(m: Msc, x: Exchange, text: Text, u: nat)
    requires m.Valid() && x.cbw.Valid() && u < |m.luns|
    ensures var o := OutcomeOf(m, x, text);
      LunsAfter(m, x, text)[u].sense ==
        if Charged(m, x) != u then m.luns[u].sense
        else if o.Refuse? then o.sense
        else if x.cbw.cdb[0] == 0x03 then SENSE_OK
        else m.luns[u].sense
  {
    if OutcomeOf(m, x, text).AwaitData? {
      Accepted(m.luns[x.cbw.lun], x.cbw.lun, x.cbw.cdb, x.io, text);
    }
  }

  // ---- a WRITE of no blocks ----------------------------------------------------------

  /** A well-formed WRITE completes if and only if it asks for at least one byte: with none,
      no status is ever sent for it. */
  lemma WriteCompletesIff(m: Msc, x: Exchange, text: Text)
    requires Quiet(m) && x.cbw.Valid() && OutcomeOf(m, x, text).AwaitData? && !x.cbw.isIn
    requires x.cbw.dlen == OutcomeOf(m, x, text).need == |Flatten(x.chunks)|
    requires x.cbw.dlen == 0 ==> x.chunks == []
    ensures Completed(m, x, text) <==> x.cbw.dlen > 0
  {
    if x.cbw.dlen > 0 {
      ExchangeCompletes(m, x, text);
    } else {
      ParseWire(x.cbw);
      Accepted(m.luns[x.cbw.lun], x.cbw.lun, x.cbw.cdb, x.io, text);
    }
  }

  /** The state such a WRITE leaves: waiting for no bytes at all. */
  lemma EmptyWriteOpens(m: Msc, x: Exchange, text: Text)
    requires Quiet(m) && x.cbw.Valid() && OutcomeOf(m, x, text).AwaitData? && OutcomeOf(m, x, text).need == 0
    ensures var o, m1 := OutcomeOf(m, x, text), OnOut(m, x.cbw.Wire(), x.io, text);
      && m1.Valid() && m1.inp == m.inp && m1.luns == m.luns
      && m1.writing == Writing(x.cbw.tag, x.cbw.lun, o.lba, o.count, 0, [])
  {
    OnOutValid(m, x.cbw.Wire(), x.io, text);
    ParseWire(x.cbw);
    Accepted(m.luns[x.cbw.lun], x.cbw.lun, x.cbw.cdb, x.io, text);
    assert m.luns[x.cbw.lun := m.luns[x.cbw.lun]] == m.luns;
  }

  /** Any next transfer completes it, and is spent on that. */
  lemma NothingCollected(m: Msc, data: seq<byte>)
    requires m.Valid() && m.writing.Writing? && m.writing.need == 0
    ensures Collect(m, data, Works).inp == Write(m.inp, Csw(m.writing.tag, 0, PASSED))
    ensures Collect(m, data, Works).luns == m.luns
  {
    var w := m.writing;
    var l := m.luns[w.lun];
    InRange(l, w.lba, w.count);
    assert l.disk[..w.lba * l.bs] + [] + l.disk[(w.lba + w.count) * l.bs..] == l.disk;
    assert m.luns[w.lun := l] == m.luns;
  }

  /** Its status comes only once the next CBW arrives, under the old tag, and that command is
      never run. */
  lemma EmptyWriteSwallowsNext(m: Msc, x: Exchange, next: Cbw, text: Text)
    requires Quiet(m) && x.cbw.Valid() && next.Valid() && OutcomeOf(m, x, text).AwaitData?
    requires OutcomeOf(m, x, text).need == 0
    ensures var m1 := OnOut(m, x.cbw.Wire(), x.io, text);
      m1.Valid() && m1.inp == m.inp &&
      var m2 := OnOut(m1, next.Wire(), Works, text);
      m2.inp == Write(m.inp, Csw(x.cbw.tag, 0, PASSED)) && m2.luns == m.luns
  {
    EmptyWriteOpens(m, x, text);
    NothingCollected(OnOut(m, x.cbw.Wire(), x.io, text), next.Wire());
  }
}
