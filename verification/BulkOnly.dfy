/** The Bulk-Only Transport half of msc.c, on the bulk pipes of Pipe. */
module BulkOnly {
  import opened Bytes
  import opened Endpoint
  import opened Pipe
  import opened Scsi

  const PASSED: byte := 0
  const FAILED: byte := 1
  const CSW_LEN := 13
  const CBW_LEN := 31
  const CBW_SIG: seq<byte> := [0x55, 0x53, 0x42, 0x43]
  const CSW_SIG: seq<byte> := [0x55, 0x53, 0x42, 0x53]

  datatype Writing =
    | NoWrite
    | Writing(tag: seq<byte>, lun: nat, lba: nat, count: nat, need: nat, got: seq<byte>)

  datatype Msc = Msc(luns: seq<Lun>, writing: Writing, cbwIn: bool, inp: Port, out: Port) {
    /** What every call keeps: the units are well-formed and a write in flight names blocks
        inside a unit that may be written. */
    ghost predicate Valid() {
      && 0 < |luns| <= 16
      && (forall i :: 0 <= i < |luns| ==> luns[i].Valid())
      && inp.ep.Valid() && out.ep.Valid()
      && (writing.Writing? ==>
           && writing.lun < |luns|
           && !luns[writing.lun].readOnly
           && writing.lba + writing.count <= luns[writing.lun].Blocks()
           && writing.need == Mul32(writing.count, luns[writing.lun].bs)
           && |writing.got| <= writing.need)
    }
  }

  /** A command block wrapper as a host means it. */
  datatype Cbw = Cbw(tag: seq<byte>, dlen: nat, isIn: bool, lun: nat, cdb: seq<byte>) {
    ghost predicate Valid() {
      |tag| == 4 && dlen < TWO32 && lun < 16 && |cdb| == 16
    }

    function Wire(): seq<byte>
      requires lun < 256
    {
      CBW_SIG + tag + PutLe32(dlen) + [if isIn then 0x80 else 0, lun, 16] + cdb
    }
  }

  /** The wrapper msc_on_out reads out of 31 bytes. */
  function Parse(b: seq<byte>): Cbw
    requires |b| == CBW_LEN
  {
    Cbw(b[4..8], Le32(b[8..12]), b[12] >= 0x80, b[13] % 16, b[15..31])
  }

  lemma ParseWire(c: Cbw)
    requires c.Valid()
    ensures |c.Wire()| == CBW_LEN && c.Wire()[..4] == CBW_SIG && Parse(c.Wire()) == c
  {
    var w := c.Wire();
    assert w[4..8] == c.tag;
    assert w[8..12] == PutLe32(c.dlen);
    assert w[15..31] == c.cdb;
  }

  function Csw(tag: seq<byte>, residue: nat, status: byte): seq<byte> {
    CSW_SIG + tag + PutLe32(residue) + [status]
  }

  lemma CswFields(tag: seq<byte>, residue: nat, status: byte)
    requires |tag| == 4 && residue < TWO32
    ensures var w := Csw(tag, residue, status);
      |w| == CSW_LEN && w[..4] == CSW_SIG && w[4..8] == tag && Le32(w[8..12]) == residue && w[12] == status
  {
    assert Csw(tag, residue, status)[8..12] == PutLe32(residue);
  }

  function SendCsw(m: Msc, tag: seq<byte>, residue: nat, status: byte): Msc {
    m.(inp := Write(m.inp, Csw(tag, residue, status)))
  }

  function StallDataPhase(m: Msc, dlen: nat): Msc {
    if dlen == 0 then m
    else if m.cbwIn then m.(inp := Halt(m.inp))
    else m.(out := Halt(m.out))
  }

  function Min(a: nat, b: nat): nat {
    if a < b then a else b
  }

  function DataIn(m: Msc, tag: seq<byte>, dlen: nat, data: seq<byte>): Msc {
    var send := Min(|data|, dlen);
    var m1 := if send > 0 then m.(inp := Write(m.inp, data[..send])) else StallDataPhase(m, dlen);
    SendCsw(m1, tag, dlen - send, PASSED)
  }

  function Fail(m: Msc, lun: nat, tag: seq<byte>, dlen: nat, sense: Sense): Msc
    requires lun < |m.luns|
  {
    var m1 := m.(luns := m.luns[lun := m.luns[lun].(sense := sense)]);
    SendCsw(StallDataPhase(m1, dlen), tag, dlen, FAILED)
  }

  /** The transport's half of dispatch(): answer the outcome `o` of the command in `cdb`. */
  function Act(m: Msc, lun: nat, tag: seq<byte>, dlen: nat, cdb: seq<byte>, o: Outcome): Msc
    requires lun < |m.luns| && |cdb| == 16
  {
    var m1 := m.(luns := m.luns[lun := Settle(m.luns[lun], cdb, o)]);
    match o
    case Status => SendCsw(m1, tag, 0, PASSED)
    case Data(bytes) => DataIn(m1, tag, dlen, bytes)
    case Refuse(sense) => Fail(m, lun, tag, dlen, sense)
    case AwaitData(lba, count, need) => m1.(writing := Writing(tag, lun, lba, count, need, []))
  }

  function Answer(m: Msc, lun: nat, tag: seq<byte>, dlen: nat, cdb: seq<byte>, io: Backend, text: Text): Msc
    requires m.Valid() && lun < |m.luns| && |cdb| == 16
  {
    Act(m, lun, tag, dlen, cdb, Execute(m.luns[lun], lun, cdb, io, text))
  }

  /** The bytes of a write in flight with those of one more transfer, up to its need. */
  function Gathered(w: Writing, data: seq<byte>): (got: seq<byte>)
    requires w.Writing? && |w.got| <= w.need
    ensures |got| == Min(|w.got| + |data|, w.need)
  {
    w.got + data[..Min(|data|, w.need - |w.got|)]
  }

  /** The bytes of one OUT transfer while a write is in flight. */
  function Collect(m: Msc, data: seq<byte>, io: Backend): Msc
    requires m.Valid() && m.writing.Writing?
  {
    var w := m.writing;
    var got := Gathered(w, data);
    if |got| < w.need then m.(writing := w.(got := got))
    else
      var unit := Store(m.luns[w.lun], w.lba, w.count, got, io);
      SendCsw(m.(luns := m.luns[w.lun := unit], writing := NoWrite),
              w.tag, 0, if io.Works? then PASSED else FAILED)
  }

  /** msc_on_out */
  function OnOut(m: Msc, data: seq<byte>, io: Backend, text: Text): Msc
    requires m.Valid()
  {
    if m.writing.Writing? then Collect(m, data, io)
    else if |data| != CBW_LEN || data[..4] != CBW_SIG then m
    else
      var c := Parse(data);
      var m1 := m.(cbwIn := c.isIn);
      if c.lun >= |m.luns| then Fail(m1, 0, c.tag, c.dlen, LUN_NOT_SUPPORTED)
      else Answer(m1, c.lun, c.tag, c.dlen, c.cdb, io, text)
  }

  /** msc_control on the Bulk-Only Reset request */
  function Reset(m: Msc): Msc {
    m.(writing := NoWrite)
  }

  // ---- what every call keeps ---------------------------------------------------------

  lemma {:induction false} WriteKeepsValid(p: Port, data: seq<byte>)
    requires p.ep.Valid()
    ensures Write(p, data).ep.Valid()
    decreases |p.ep.pend|
  {
    if data != [] && p.ep.pend != [] {
      var u := p.ep.pend[0];
      var n := Limit(u.length, |data|);
      WriteKeepsValid(Port(PopParked(p.ep), p.wire + [Completion(u, Ok, data[..n])]), data[n..]);
    }
  }

  lemma SendCswValid(m: Msc, tag: seq<byte>, residue: nat, status: byte)
    requires m.Valid()
    ensures SendCsw(m, tag, residue, status).Valid()
  {
    WriteKeepsValid(m.inp, Csw(tag, residue, status));
  }

  lemma FailValid(m: Msc, lun: nat, tag: seq<byte>, dlen: nat, sense: Sense)
    requires m.Valid() && lun < |m.luns|
    ensures Fail(m, lun, tag, dlen, sense).Valid()
  {
    var m1 := m.(luns := m.luns[lun := m.luns[lun].(sense := sense)]);
    SendCswValid(StallDataPhase(m1, dlen), tag, dlen, FAILED);
  }

  lemma DataInValid(m: Msc, tag: seq<byte>, dlen: nat, data: seq<byte>)
    requires m.Valid()
    ensures DataIn(m, tag, dlen, data).Valid()
  {
    var send := Min(|data|, dlen);
    WriteKeepsValid(m.inp, data[..send]);
    var m1 := if send > 0 then m.(inp := Write(m.inp, data[..send])) else StallDataPhase(m, dlen);
    SendCswValid(m1, tag, dlen - send, PASSED);
  }

  /** A write is accepted only on a writable unit and inside it. */
  lemma Accepted(l: Lun, i: nat, cdb: seq<byte>, io: Backend, text: Text)
    requires l.Valid() && |cdb| == 16 && Execute(l, i, cdb, io, text).AwaitData?
    ensures var o := Execute(l, i, cdb, io, text);
      !l.readOnly && o.lba + o.count <= l.Blocks() && o.need == Mul32(o.count, l.bs)
      && Settle(l, cdb, o) == l
  {}

  lemma AnswerValid(m: Msc, lun: nat, tag: seq<byte>, dlen: nat, cdb: seq<byte>, io: Backend, text: Text)
    requires m.Valid() && lun < |m.luns| && |cdb| == 16 && m.writing.NoWrite?
    ensures Answer(m, lun, tag, dlen, cdb, io, text).Valid()
  {
    var o := Execute(m.luns[lun], lun, cdb, io, text);
    var m1 := m.(luns := m.luns[lun := Settle(m.luns[lun], cdb, o)]);
    match o
    case Status => SendCswValid(m1, tag, 0, PASSED);
    case Data(bytes) => DataInValid(m1, tag, dlen, bytes);
    case Refuse(sense) => FailValid(m, lun, tag, dlen, sense);
    case AwaitData(lba, count, need) => Accepted(m.luns[lun], lun, cdb, io, text);
  }

  /** Every OUT transfer, well-formed or not, keeps the state valid. */
  lemma OnOutValid(m: Msc, data: seq<byte>, io: Backend, text: Text)
    requires m.Valid()
    ensures OnOut(m, data, io, text).Valid()
  {
    if m.writing.Writing? {
      var w := m.writing;
      var got := Gathered(w, data);
      if |got| >= w.need {
        var unit := Store(m.luns[w.lun], w.lba, w.count, got, io);
        SendCswValid(m.(luns := m.luns[w.lun := unit], writing := NoWrite),
                     w.tag, 0, if io.Works? then PASSED else FAILED);
      }
    } else if |data| == CBW_LEN && data[..4] == CBW_SIG {
      var c := Parse(data);
      var m1 := m.(cbwIn := c.isIn);
      if c.lun >= |m.luns| {
        FailValid(m1, 0, c.tag, c.dlen, LUN_NOT_SUPPORTED);
      } else {
        AnswerValid(m1, c.lun, c.tag, c.dlen, c.cdb, io, text);
      }
    }
  }
}
