/** struct msc_state and its methods: the class as it runs, over two real pipes, method by
    method equal to the functions of BulkOnly. */
module MassStorage {
  import opened Bytes
  import P = Pipe
  import opened Scsi
  import opened BulkOnly

  class MassStorage {
    const inp: P.Pipe
    const out: P.Pipe
    const text: Text
    var luns: seq<Lun>
    var cbwIn: bool
    var writing: bool
    var wlun: nat
    var wtag: seq<byte>
    var wlba: nat
    var wcount: nat
    var wneed: nat
    var wbuf: seq<byte>

    ghost function View(): Msc
      reads this, inp, out
    {
      Msc(luns, if writing then Writing(wtag, wlun, wlba, wcount, wneed, wbuf) else NoWrite,
          cbwIn, inp.View(), out.View())
    }

    ghost predicate Valid()
      reads this, inp, out
    {
      inp != out && View().Valid()
    }

    constructor (inp: P.Pipe, out: P.Pipe, luns: seq<Lun>, text: Text)
      requires inp != out && inp.View().ep.Valid() && out.View().ep.Valid()
      requires 0 < |luns| <= 16 && forall i :: 0 <= i < |luns| ==> luns[i].Valid()
      ensures Valid() && this.inp == inp && this.out == out && this.text == text
      ensures View() == Msc(luns, NoWrite, false, inp.View(), out.View())
    {
      this.inp, this.out, this.luns, this.text := inp, out, luns, text;
      cbwIn, writing, wlun, wtag, wlba, wcount, wneed, wbuf := false, false, 0, [], 0, 0, 0, [];
    }

    method SendStatus(tag: seq<byte>, residue: nat, status: byte)
      requires inp != out
      modifies inp
      ensures View() == SendCsw(old(View()), tag, residue, status)
    {
      inp.WriteData(Csw(tag, residue, status));
    }

    method StallData(dlen: nat)
      requires inp != out
      modifies inp, out
      ensures View() == StallDataPhase(old(View()), dlen)
    {
      if dlen == 0 {
        return;
      }
      if cbwIn {
        inp.StallEndpoint();
      } else {
        out.StallEndpoint();
      }
    }

    method ReplyData(tag: seq<byte>, dlen: nat, data: seq<byte>)
      requires inp != out
      modifies inp, out
      ensures View() == DataIn(old(View()), tag, dlen, data)
    {
      var send := if |data| < dlen then |data| else dlen;
      if send > 0 {
        inp.WriteData(data[..send]);
      } else {
        StallData(dlen);
      }
      SendStatus(tag, dlen - send, PASSED);
    }

    method FailCommand(lun: nat, tag: seq<byte>, dlen: nat, sense: Sense)
      requires inp != out && lun < |luns|
      modifies this`luns, inp, out
      ensures View() == Fail(old(View()), lun, tag, dlen, sense)
    {
      luns := luns[lun := luns[lun].(sense := sense)];
      StallData(dlen);
      SendStatus(tag, dlen, FAILED);
    }

    method DispatchCommand(lun: nat, tag: seq<byte>, dlen: nat, cdb: seq<byte>, io: Backend)
      requires Valid() && !writing && lun < |luns| && |cdb| == 16
      modifies this, inp, out
      ensures View() == Answer(old(View()), lun, tag, dlen, cdb, io, text)
    {
      var outcome := Execute(luns[lun], lun, cdb, io, text);
      match outcome
      case Status => SendStatus(tag, 0, PASSED);
        assert luns[lun := luns[lun]] == luns;
      case Data(bytes) =>
        if cdb[0] == 0x03 {
          luns := luns[lun := luns[lun].(sense := SENSE_OK)];
        }
        assert luns == old(luns)[lun := Settle(old(luns)[lun], cdb, outcome)];
        ReplyData(tag, dlen, bytes);
      case Refuse(sense) => FailCommand(lun, tag, dlen, sense);
      case AwaitData(lba, count, need) =>
        BeginWrite(lun, tag, lba, count, need);
        assert luns[lun := luns[lun]] == luns;
    }

    method BeginWrite(lun: nat, tag: seq<byte>, lba: nat, count: nat, need: nat)
      modifies this`writing, this`wlun, this`wtag, this`wlba, this`wcount, this`wneed, this`wbuf
      ensures View() == old(View()).(writing := Writing(tag, lun, lba, count, need, []))
    {
      writing, wlun, wtag, wlba, wcount, wneed, wbuf := true, lun, tag, lba, count, need, [];
    }

    method Receive(data: seq<byte>, io: Backend)
      requires Valid()
      modifies this, inp, out
      ensures Valid() && View() == OnOut(old(View()), data, io, text)
    {
      OnOutValid(View(), data, io, text);
      if writing {
        CollectData(data, io);
      } else if |data| == CBW_LEN && data[..4] == CBW_SIG {
        TakeCbw(data, io);
      }
    }

    /** The write in flight takes what it still needs. */
    method CollectData(data: seq<byte>, io: Backend)
      requires Valid() && writing
      modifies this, inp, out
      ensures View() == Collect(old(View()), data, io)
    {
      var take := if |wbuf| + |data| > wneed then wneed - |wbuf| else |data|;
      wbuf := wbuf + data[..take];
      if |wbuf| >= wneed {
        luns := luns[wlun := Store(luns[wlun], wlba, wcount, wbuf, io)];
        writing := false;
        SendStatus(wtag, 0, if io.Works? then PASSED else FAILED);
      }
    }

    method TakeCbw(data: seq<byte>, io: Backend)
      requires Valid() && !writing && |data| == CBW_LEN && data[..4] == CBW_SIG
      modifies this, inp, out
      ensures View() == OnOut(old(View()), data, io, text)
    {
      var c := Parse(data);
      cbwIn := c.isIn;
      if c.lun >= |luns| {
        FailCommand(0, c.tag, c.dlen, LUN_NOT_SUPPORTED);
      } else {
        DispatchCommand(c.lun, c.tag, c.dlen, c.cdb, io);
      }
    }

    method BulkOnlyReset()
      requires Valid()
      modifies this
      ensures Valid() && View() == Reset(old(View()))
    {
      writing := false;
      wbuf := [];
    }
  }
}
