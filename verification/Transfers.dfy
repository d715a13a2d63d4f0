/** Control, bulk and interrupt transfers on the wire: the client's submit, the server's read,
    the return, and the client's read of it with whatever does not fit its buffer drained. */
module Transfers {
  import opened Bytes
  import opened Wire

  datatype Request = Request(seqnum: nat, devid: nat, dir: Dir, ep: nat, interval: nat, setup: seq<byte>, length: nat) {
    ghost predicate Fits() {
      seqnum < TWO32 && devid < TWO32 && ep < TWO32 && interval < TWO32 && |setup| == 8 && length < 0x8000_0000
    }
  }

  /** What usbip_client_submit writes; `buf` is the caller's buffer. */
  function Submit(r: Request, buf: seq<byte>): seq<byte>
    requires |r.setup| == 8
  {
    HdrBytes(Hdr(CMD_SUBMIT, r.seqnum, r.devid, DirWord(r.dir), r.ep, 0, r.length, 0, 0, r.interval, r.setup))
      + if r.dir.Out? then buf else []
  }

  datatype Command = Command(r: Request, data: seq<byte>)

  /** usbip_read_cmd, of an endpoint that is not isochronous. */
  function ReadSubmit(s: seq<byte>): Read<Command> {
    if |s| < HDR_LEN then Short
    else
      var h, after := HdrOf(s), s[HDR_LEN..];
      var dir := if h.direction == 0 then Out else In;
      var n := if dir.Out? && h.w24 < 0x8000_0000 then h.w24 else 0;
      if h.command != CMD_SUBMIT then Other(h.command, after)
      else if |after| < n then Short
      else Read(Command(Request(h.seqnum, h.devid, dir, h.ep, h.w36, h.setup, h.w24), after[..n]), after[n..])
  }

  /** The submit on the wire: command 1, direction 1 for IN, the length at byte 24 and the interval
      at byte 36, the SETUP packet, and for OUT the data behind it. */
  lemma SubmitLayout(r: Request, buf: seq<byte>)
    requires r.Fits()
    ensures Laid(Submit(r, buf), Hdr(1, r.seqnum, r.devid, if r.dir.In? then 1 else 0, r.ep, 0, r.length, 0, 0, r.interval, r.setup))
    ensures Submit(r, buf)[48..] == if r.dir.Out? then buf else []
  {
    HdrLayout(Hdr(CMD_SUBMIT, r.seqnum, r.devid, DirWord(r.dir), r.ep, 0, r.length, 0, 0, r.interval, r.setup),
              if r.dir.Out? then buf else []);
  }

  /** A C int, and the 32-bit word it is sent as: two's complement. */
  type Int32 = n: int | -0x8000_0000 <= n < 0x8000_0000

  function Word(n: Int32): (w: nat)
    ensures w < TWO32
  {
    if n < 0 then n + TWO32 else n
  }

  function Signed(w: nat): (n: int)
    ensures w < TWO32 ==> -0x8000_0000 <= n < 0x8000_0000
  {
    if w < 0x8000_0000 then w else w - TWO32
  }

  /** usbip_send_ret: data goes out for IN only, and only when there is some; OUT reports a
      count. */
  function Return(r: Request, status: Int32, actual: Int32, data: seq<byte>): seq<byte>
    requires |r.setup| == 8 && (r.dir.In? ==> actual <= |data|)
  {
    HdrBytes(Hdr(RET_SUBMIT, r.seqnum, r.devid, DirWord(r.dir), r.ep, Word(status), Word(actual), 0, 0, 0, seq(8, _ => 0)))
      + Sent(r.dir, actual, data)
  }

  function Sent(dir: Dir, actual: int, data: seq<byte>): seq<byte>
    requires dir.In? ==> actual <= |data|
  {
    if dir.In? && actual > 0 then data[..actual] else []
  }

  /** The return on the wire: command 3, status at byte 20, count at byte 24, zeros to byte 48. */
  lemma ReturnLayout(r: Request, status: Int32, actual: Int32, data: seq<byte>)
    requires r.Fits() && (r.dir.In? ==> actual <= |data|)
    ensures Laid(Return(r, status, actual, data),
                 Hdr(3, r.seqnum, r.devid, if r.dir.In? then 1 else 0, r.ep, if status < 0 then status + 0x1_0000_0000 else status,
                     if actual < 0 then actual + 0x1_0000_0000 else actual, 0, 0, 0, [0, 0, 0, 0, 0, 0, 0, 0]))
    ensures Return(r, status, actual, data)[48..] == if r.dir.In? && actual > 0 then data[..actual] else []
  {
    var zeros: seq<byte> := seq(8, _ => 0);
    assert zeros == [0, 0, 0, 0, 0, 0, 0, 0];
    HdrLayout(Hdr(RET_SUBMIT, r.seqnum, r.devid, DirWord(r.dir), r.ep, Word(status), Word(actual), 0, 0, 0, zeros), Sent(r.dir, actual, data));
  }

  datatype Reply = Reply(status: int, actual: int, got: seq<byte>)

  /** What the client has after reading a return, with a buffer of `len` bytes. A length taken
      as negative is not read. */
  function ReadReturn(s: seq<byte>, dir: Dir, len: nat): Read<Reply> {
    if |s| < HDR_LEN then Short
    else
      var h, after := HdrOf(s), s[HDR_LEN..];
      var status, act := Signed(h.w20), Signed(h.w24);
      if dir.Out? || act <= 0 then Read(Reply(status, act, []), after)
      else if |after| < act then Short
      else
        var into := if act < len then act else len;
        Read(Reply(status, into, after[..into]), after[act..])
  }

  /** The reads usbip_client_submit makes: header, what fits, and the rest in 256-byte pieces. */
  method ReadReply(s: seq<byte>, dir: Dir, len: nat) returns (r: Read<Reply>)
    ensures r == ReadReturn(s, dir, len)
  {
    if |s| < HDR_LEN {
      return Short;
    }
    var h := HdrOf(s);
    var status, act := Signed(h.w20), Signed(h.w24);
    var left := s[HDR_LEN..];
    if dir.Out? || act <= 0 {
      return Read(Reply(status, act, []), left);
    }
    var into := if act < len then act else len;
    if |left| < into {
      return Short;
    }
    var got := left[..into];
    left := left[into..];
    var rest := act - into;
    while rest > 0
      invariant rest >= 0
      invariant |s| - HDR_LEN < act <==> |left| < rest
      invariant |left| >= rest ==> left[rest..] == s[HDR_LEN..][act..]
    {
      var chunk := if rest < 256 then rest else 256;
      if |left| < chunk {
        return Short;
      }
      assert |left| >= rest ==> left[chunk..][rest - chunk..] == left[rest..];
      left := left[chunk..];
      rest := rest - chunk;
    }
    r := Read(Reply(status, into, got), left);
  }

  lemma SubmitRoundTrip(r: Request, buf: seq<byte>, more: seq<byte>)
    requires r.Fits() && |buf| == r.length
    ensures ReadSubmit(Submit(r, buf) + more) == Read(Command(r, if r.dir.Out? then buf else []), more)
  {
    var h := Hdr(CMD_SUBMIT, r.seqnum, r.devid, DirWord(r.dir), r.ep, 0, r.length, 0, 0, r.interval, r.setup);
    var data := if r.dir.Out? then buf else [];
    assert Submit(r, buf) + more == HdrBytes(h) + (data + more);
    HdrRoundTrip(h, data + more);
    assert (HdrBytes(h) + (data + more))[HDR_LEN..] == data + more;
    assert (data + more)[..|data|] == data && (data + more)[|data|..] == more;
  }

  lemma SignedWord(n: Int32)
    ensures Signed(Word(n)) == n
  {}

  /** The bytes of a message and those behind it. */
  lemma Ahead(data: seq<byte>, more: seq<byte>)
    ensures (data + more)[|data|..] == more && forall n | 0 <= n <= |data| :: (data + more)[..n] == data[..n]
  {}

  /** Whatever count the device returns, negative ones and more than was asked for among them,
      the client gets the status and the count, keeps the first `len` of the bytes sent, and its
      stream goes on at the next message. */
  lemma ReturnRoundTrip(r: Request, status: Int32, actual: Int32, data: seq<byte>, len: nat, more: seq<byte>)
    requires r.Fits() && (r.dir.In? ==> actual <= |data|)
    ensures var sent := Sent(r.dir, actual, data);
      var kept := if len < |sent| then len else |sent|;
      ReadReturn(Return(r, status, actual, data) + more, r.dir, len)
      == Read(Reply(status, if sent == [] then actual else kept, sent[..kept]), more)
  {
    var h := Hdr(RET_SUBMIT, r.seqnum, r.devid, DirWord(r.dir), r.ep, Word(status), Word(actual), 0, 0, 0, seq(8, _ => 0));
    var sent := Sent(r.dir, actual, data);
    assert Return(r, status, actual, data) + more == HdrBytes(h) + (sent + more);
    HdrRoundTrip(h, sent + more);
    SignedWord(status);
    SignedWord(actual);
    Ahead(HdrBytes(h), sent + more);
    Ahead(sent, more);
  }
}
