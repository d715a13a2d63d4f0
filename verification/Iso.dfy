/** One isochronous transfer end to end: slots in the host's buffer, packed bytes on the wire,
    packets in the device's callback, and back. */
module Iso {
  import opened Bytes
  import opened Wire

  datatype Pkt = Pkt(offset: nat, length: nat, actual: nat, status: nat) {
    ghost predicate Fits() {
      offset < TWO32 && length < TWO32 && actual < TWO32 && status < TWO32
    }
  }

  // ---- packet descriptors ----------------------------------------------------------------

  function DescBytes(pkts: seq<Pkt>): (s: seq<byte>)
    ensures |s| == DESC_LEN * |pkts|
  {
    if pkts == [] then []
    else PutWords([pkts[0].offset, pkts[0].length, pkts[0].actual, pkts[0].status]) + DescBytes(pkts[1..])
  }

  function DescsOf(s: seq<byte>, n: nat): (pkts: seq<Pkt>)
    requires |s| >= DESC_LEN * n
    ensures |pkts| == n
  {
    if n == 0 then []
    else
      var ws := WordsOf(s, 4);
      [Pkt(ws[0], ws[1], ws[2], ws[3])] + DescsOf(s[DESC_LEN..], n - 1)
  }

  ghost predicate AllFit(pkts: seq<Pkt>) {
    forall i :: 0 <= i < |pkts| ==> pkts[i].Fits()
  }

  lemma OneDesc(p: Pkt, more: seq<byte>, rest: seq<byte>)
    requires p.Fits()
    ensures var s := PutWords([p.offset, p.length, p.actual, p.status]) + more + rest;
      WordsOf(s, 4) == [p.offset, p.length, p.actual, p.status] && s[DESC_LEN..] == more + rest
  {
    var ws := [p.offset, p.length, p.actual, p.status];
    var s := PutWords(ws) + more + rest;
    assert s == PutWords(ws) + (more + rest);
    WordsRoundTrip(ws, more + rest);
  }

  lemma {:induction false} DescRoundTrip(pkts: seq<Pkt>, rest: seq<byte>)
    requires AllFit(pkts)
    ensures DescsOf(DescBytes(pkts) + rest, |pkts|) == pkts
  {
    if pkts != [] {
      OneDesc(pkts[0], DescBytes(pkts[1..]), rest);
      DescRoundTrip(pkts[1..], rest);
    }
  }

  // ---- slots -------------------------------------------------------------------------

  function Sum(lens: seq<nat>, n: nat): nat
    requires n <= |lens|
  {
    if n == 0 then 0 else Sum(lens, n - 1) + lens[n - 1]
  }

  function Total(lens: seq<nat>): nat {
    Sum(lens, |lens|)
  }

  /** The offset of each slot is the sum of the lengths before it. */
  function Slots(lens: seq<nat>): (pkts: seq<Pkt>)
    ensures |pkts| == |lens|
  {
    seq(|lens|, i requires 0 <= i < |lens| => Pkt(Sum(lens, i), lens[i], 0, 0))
  }

  /** The loop of usbip_host_submit_transfer. */
  method SubmitSlots(lens: seq<nat>) returns (pkts: seq<Pkt>)
    ensures pkts == Slots(lens)
  {
    pkts := [];
    var off: nat, i: nat := 0, 0;
    while i < |lens|
      invariant i <= |lens| && off == Sum(lens, i) && pkts == Slots(lens)[..i]
    {
      assert Slots(lens)[..i + 1] == Slots(lens)[..i] + [Slots(lens)[i]];
      pkts := pkts + [Pkt(off, lens[i], 0, 0)];
      off := off + lens[i];
      i := i + 1;
    }
  }

  lemma {:induction false} SumMonotone(lens: seq<nat>, i: nat, j: nat)
    requires i <= j <= |lens|
    ensures Sum(lens, i) <= Sum(lens, j)
    ensures i < j ==> Sum(lens, i) + lens[i] <= Sum(lens, j)
  {
    if i < j {
      SumMonotone(lens, i, j - 1);
    }
  }

  /** The bytes of slot `i`. */
  function SlotOf(buf: seq<byte>, p: Pkt): seq<byte>
    requires p.offset + p.length <= |buf|
  {
    buf[p.offset..p.offset + p.length]
  }

  ghost predicate Inside(buf: seq<byte>, pkts: seq<Pkt>) {
    forall i :: 0 <= i < |pkts| ==> pkts[i].offset + pkts[i].length <= |buf|
  }

  lemma SlotsInside(buf: seq<byte>, lens: seq<nat>)
    requires Total(lens) <= |buf|
    ensures Inside(buf, Slots(lens))
  {
    forall i | 0 <= i < |lens| ensures Slots(lens)[i].offset + Slots(lens)[i].length <= |buf| {
      SumMonotone(lens, i, |lens|);
    }
  }

  function Packed(buf: seq<byte>, pkts: seq<Pkt>): seq<byte>
    requires Inside(buf, pkts)
  {
    if pkts == [] then [] else SlotOf(buf, pkts[0]) + Packed(buf, pkts[1..])
  }

  /** The client's gather loop. */
  method Gather(buf: seq<byte>, pkts: seq<Pkt>) returns (sent: seq<byte>)
    requires Inside(buf, pkts)
    ensures sent == Packed(buf, pkts)
  {
    sent := [];
    var i: nat := 0;
    assert pkts[0..] == pkts && [] + Packed(buf, pkts) == Packed(buf, pkts);
    while i < |pkts|
      invariant i <= |pkts| && sent + Packed(buf, pkts[i..]) == Packed(buf, pkts)
    {
      PackedFrom(buf, pkts, i, sent);
      if pkts[i].length > 0 {
        sent := sent + buf[pkts[i].offset..pkts[i].offset + pkts[i].length];
      } else {
        assert sent + SlotOf(buf, pkts[i]) == sent;
      }
      i := i + 1;
    }
    assert pkts[i..] == [] && sent + [] == sent;
  }

  /** With prefix-sum offsets the gathered bytes are the front of the buffer. */
  lemma {:induction false} PackedIsFront(buf: seq<byte>, lens: seq<nat>, k: nat)
    requires Total(lens) <= |buf| && k <= |lens| && Inside(buf, Slots(lens)[k..])
    ensures Sum(lens, k) <= Total(lens) && Packed(buf, Slots(lens)[k..]) == buf[Sum(lens, k)..Total(lens)]
    decreases |lens| - k
  {
    SumMonotone(lens, k, |lens|);
    if k < |lens| {
      SumMonotone(lens, k + 1, |lens|);
      assert Slots(lens)[k..][1..] == Slots(lens)[k + 1..];
      PackedIsFront(buf, lens, k + 1);
      var a, b, c := Sum(lens, k), Sum(lens, k + 1), Total(lens);
      assert SlotOf(buf, Slots(lens)[k]) == buf[a..b];
      Slices(buf, a, b, c);
    } else {
      assert Slots(lens)[k..] == [];
    }
  }

  lemma Slices(buf: seq<byte>, a: nat, b: nat, c: nat)
    requires a <= b <= c <= |buf|
    ensures buf[a..b] + buf[b..c] == buf[a..c]
  {}

  // ---- the host's command ----------------------------------------------------------------

  datatype Request = Request(seqnum: nat, devid: nat, dir: Dir, ep: nat, interval: nat)

  function Setup0(): seq<byte> { seq(8, _ => 0) }

  /** Everything usbip_client_submit_iso writes. */
  function Command(r: Request, buf: seq<byte>, pkts: seq<Pkt>, total: nat): seq<byte>
    requires Inside(buf, pkts)
  {
    HdrBytes(Hdr(CMD_SUBMIT, r.seqnum, r.devid, DirWord(r.dir), r.ep, 0, total, 0, |pkts|, r.interval, Setup0()))
      + (if r.dir.Out? then Packed(buf, pkts) else [])
      + DescBytes(pkts)
  }

  /** One packet descriptor on the wire: offset, length, actual length and status. */
  ghost predicate DescAt(s: seq<byte>, at: nat, p: Pkt) {
    WordAt(s, at, p.offset) && WordAt(s, at + 4, p.length) && WordAt(s, at + 8, p.actual) && WordAt(s, at + 12, p.status)
  }

  lemma {:induction false} DescLayout(pkts: seq<Pkt>, i: nat)
    requires AllFit(pkts) && i < |pkts|
    ensures DescAt(DescBytes(pkts), DESC_LEN * i, pkts[i])
  {
    var p := pkts[0];
    var ws, more := [p.offset, p.length, p.actual, p.status], DescBytes(pkts[1..]);
    if i == 0 {
      FieldAt(ws, more, 0, 0); FieldAt(ws, more, 1, 4); FieldAt(ws, more, 2, 8); FieldAt(ws, more, 3, 12);
    } else {
      DescLayout(pkts[1..], i - 1);
      DescBehind(PutWords(ws), more, DESC_LEN * (i - 1), pkts[i]);
    }
  }

  lemma DescBehind(front: seq<byte>, s: seq<byte>, at: nat, p: Pkt)
    requires DescAt(s, at, p)
    ensures DescAt(front + s, |front| + at, p)
  {
    WordBehind(front, s, at, p.offset);
    WordBehind(front, s, at + 4, p.length);
    WordBehind(front, s, at + 8, p.actual);
    WordBehind(front, s, at + 12, p.status);
  }

  /** A command on the wire: command 1, the direction, the total at byte 24, the number of packets
      at byte 32 and the interval at byte 36, then for OUT the slots, then the descriptors. */
  lemma CommandLayout(r: Request, buf: seq<byte>, lens: seq<nat>)
    requires Sendable(r, lens) && Inside(buf, Slots(lens))
    ensures var s := Command(r, buf, Slots(lens), Total(lens));
      && Laid(s, Hdr(1, r.seqnum, r.devid, if r.dir.In? then 1 else 0, r.ep, 0, Total(lens), 0, |lens|, r.interval, [0, 0, 0, 0, 0, 0, 0, 0]))
      && s[48..] == (if r.dir.Out? then Packed(buf, Slots(lens)) else []) + DescBytes(Slots(lens))
  {
    var h := Hdr(CMD_SUBMIT, r.seqnum, r.devid, DirWord(r.dir), r.ep, 0, Total(lens), 0, |lens|, r.interval, Setup0());
    var data := if r.dir.Out? then Packed(buf, Slots(lens)) else [];
    assert Setup0() == [0, 0, 0, 0, 0, 0, 0, 0];
    Assoc(HdrBytes(h), data, DescBytes(Slots(lens)));
    HdrLayout(h, data + DescBytes(Slots(lens)));
  }

  /** A request within the widths of its fields. */
  ghost predicate Sendable(r: Request, lens: seq<nat>) {
    && r.seqnum < TWO32 && r.devid < TWO32 && r.ep < 16 && r.interval < TWO32
    && 0 < |lens| < 0x8000_0000 && Total(lens) < 0x8000_0000
  }

  lemma SlotsFit(lens: seq<nat>)
    requires Total(lens) < TWO32
    ensures AllFit(Slots(lens))
  {
    forall i | 0 <= i < |lens| ensures Slots(lens)[i].Fits() {
      SumMonotone(lens, i, |lens|);
    }
  }

  datatype Urb = Urb(seqnum: nat, devid: nat, dir: Dir, ep: nat, interval: nat, data: seq<byte>, iso: seq<Pkt>)

  /** usbip_read_cmd for an isochronous endpoint. */
  function ReadCommand(s: seq<byte>): Read<Urb> {
    if |s| < HDR_LEN then Short
    else
      var h, after := HdrOf(s), s[HDR_LEN..];
      var dir := if h.direction == 0 then Out else In;
      var n := if dir.Out? && h.w24 < 0x8000_0000 then h.w24 else 0;
      if h.command != CMD_SUBMIT then Other(h.command, after)
      else if |after| < n then Short
      else
        var np := if h.w32 < 0x8000_0000 then h.w32 else 0;
        if |after| - n < DESC_LEN * np then Short
        else Read(Urb(h.seqnum, h.devid, dir, h.ep, h.w36, after[..n], DescsOf(after[n..], np)), after[n..][DESC_LEN * np..])
  }

  lemma ReadsCommand(s: seq<byte>, h: Hdr, data: seq<byte>, pkts: seq<Pkt>, more: seq<byte>)
    requires |s| >= HDR_LEN && HdrOf(s) == h && s[HDR_LEN..] == data + (DescBytes(pkts) + more)
    requires h.command == CMD_SUBMIT && h.direction <= 1 && h.w24 < 0x8000_0000 && h.w32 == |pkts| < 0x8000_0000
    requires |data| == (if h.direction == 0 then h.w24 else 0) && AllFit(pkts)
    ensures ReadCommand(s) == Read(Urb(h.seqnum, h.devid, if h.direction == 0 then Out else In, h.ep, h.w36, data, pkts), more)
  {
    var after := s[HDR_LEN..];
    assert after[..|data|] == data && after[|data|..] == DescBytes(pkts) + more;
    DescRoundTrip(pkts, more);
    assert (DescBytes(pkts) + more)[DESC_LEN * |pkts|..] == more;
  }

  /** The server reads exactly what the client wrote. */
  lemma CommandRoundTrip(r: Request, buf: seq<byte>, lens: seq<nat>, more: seq<byte>)
    requires Sendable(r, lens) && Total(lens) <= |buf| && Inside(buf, Slots(lens))
    ensures ReadCommand(Command(r, buf, Slots(lens), Total(lens)) + more)
         == Read(Urb(r.seqnum, r.devid, r.dir, r.ep, r.interval, if r.dir.Out? then buf[..Total(lens)] else [], Slots(lens)), more)
  {
    var pkts := Slots(lens);
    var h := Hdr(CMD_SUBMIT, r.seqnum, r.devid, DirWord(r.dir), r.ep, 0, Total(lens), 0, |pkts|, r.interval, Setup0());
    var data := if r.dir.Out? then buf[..Total(lens)] else [];
    var s := Command(r, buf, pkts, Total(lens)) + more;
    GatheredFront(buf, lens);
    Framed(HdrBytes(h), data, DescBytes(pkts), more);
    HdrRoundTrip(h, data + (DescBytes(pkts) + more));
    SlotsFit(lens);
    ReadsCommand(s, h, data, pkts, more);
  }

  lemma GatheredFront(buf: seq<byte>, lens: seq<nat>)
    requires Total(lens) <= |buf| && Inside(buf, Slots(lens))
    ensures Packed(buf, Slots(lens)) == buf[..Total(lens)]
  {
    assert Slots(lens)[0..] == Slots(lens);
    PackedIsFront(buf, lens, 0);
  }

  lemma Framed(a: seq<byte>, b: seq<byte>, c: seq<byte>, d: seq<byte>)
    ensures a + b + c + d == a + (b + (c + d)) && (a + b + c + d)[|a|..] == b + (c + d)
  {}

  // ---- the device --------------------------------------------------------------------

  function Lengths(pkts: seq<Pkt>): (lens: seq<nat>)
    ensures |lens| == |pkts|
  {
    seq(|pkts|, i requires 0 <= i < |pkts| => pkts[i].length)
  }

  function Sizes(packets: seq<seq<byte>>): (lens: seq<nat>)
    ensures |lens| == |packets|
  {
    seq(|packets|, i requires 0 <= i < |packets| => |packets[i]|)
  }

  /** What an IN callback may produce: a packet for each request, none longer than asked. */
  ghost predicate WithinSlots(lens: seq<nat>, packets: seq<seq<byte>>) {
    |packets| == |lens| && forall i :: 0 <= i < |lens| ==> |packets[i]| <= lens[i]
  }

  function Completed(pkts: seq<Pkt>, actuals: seq<nat>): (done: seq<Pkt>)
    requires |pkts| == |actuals|
    ensures |done| == |pkts|
  {
    seq(|pkts|, i requires 0 <= i < |pkts| => Pkt(pkts[i].offset, pkts[i].length, actuals[i], 0))
  }

  /** usbip_send_ret_iso: the total, the data back to back for IN, and every descriptor. */
  function Return(u: Urb, actuals: seq<nat>, data: seq<byte>): seq<byte>
    requires |u.iso| == |actuals|
  {
    HdrBytes(Hdr(RET_SUBMIT, u.seqnum, u.devid, DirWord(u.dir), u.ep, 0, Total(actuals), 0, |u.iso|, 0, Setup0()))
      + (if u.dir.In? then data else [])
      + DescBytes(Completed(u.iso, actuals))
  }

  /** A return on the wire: command 3, the total at byte 24 and the number of packets at byte 32,
      then for IN the data, then the descriptors. */
  lemma ReturnLayout(u: Urb, lens: seq<nat>, actuals: seq<nat>, data: seq<byte>)
    requires Received(u, lens) && |actuals| == |lens| && Total(actuals) < TWO32
    ensures var s := Return(u, actuals, data);
      && Laid(s, Hdr(3, u.seqnum, u.devid, if u.dir.In? then 1 else 0, u.ep, 0, Total(actuals), 0, |lens|, 0, [0, 0, 0, 0, 0, 0, 0, 0]))
      && s[48..] == (if u.dir.In? then data else []) + DescBytes(Completed(u.iso, actuals))
  {
    var h := Hdr(RET_SUBMIT, u.seqnum, u.devid, DirWord(u.dir), u.ep, 0, Total(actuals), 0, |u.iso|, 0, Setup0());
    var front := if u.dir.In? then data else [];
    assert Setup0() == [0, 0, 0, 0, 0, 0, 0, 0];
    Assoc(HdrBytes(h), front, DescBytes(Completed(u.iso, actuals)));
    HdrLayout(h, front + DescBytes(Completed(u.iso, actuals)));
  }

  /** The de-pad loop: the packets back to back, and their lengths. A packet whose slot lies
      outside the data keeps whatever the fresh buffer holds. */
  method Depad(u: Urb) returns (buf: array<byte>, lens: seq<nat>)
    ensures fresh(buf) && lens == Lengths(u.iso) && buf.Length == Total(lens)
    ensures Inside(u.data, u.iso) ==> buf[..] == Packed(u.data, u.iso)
  {
    lens := Lengths(u.iso);
    buf := new byte[Total(lens)];
    var off: nat, i: nat := 0, 0;
    assert u.iso[0..] == u.iso && buf[..0] == [];
    while i < |u.iso|
      invariant i <= |u.iso| && off == Sum(lens, i) <= Total(lens)
      invariant Inside(u.data, u.iso) ==> buf[..off] + Packed(u.data, u.iso[i..]) == Packed(u.data, u.iso)
    {
      SumMonotone(lens, i, |lens|);
      ghost var before := buf[..off];
      PackSlot(buf, off, u.data, u.iso[i]);
      off := off + u.iso[i].length;
      if Inside(u.data, u.iso) {
        assert u.iso[i].offset + u.iso[i].length <= |u.data|;
        PackedFrom(u.data, u.iso, i, before);
        assert buf[..off] == before + SlotOf(u.data, u.iso[i]);
      }
      i := i + 1;
    }
    assert buf[..off] == buf[..] && u.iso[i..] == [];
  }

  lemma PackedFrom(data: seq<byte>, pkts: seq<Pkt>, i: nat, before: seq<byte>)
    requires Inside(data, pkts) && i < |pkts|
    ensures before + Packed(data, pkts[i..]) == before + SlotOf(data, pkts[i]) + Packed(data, pkts[i + 1..])
  {
    assert pkts[i..][1..] == pkts[i + 1..];
    Assoc(before, SlotOf(data, pkts[i]), Packed(data, pkts[i + 1..]));
  }

  method PackSlot(buf: array<byte>, off: nat, data: seq<byte>, p: Pkt)
    requires off + p.length <= buf.Length
    modifies buf
    ensures p.offset + p.length <= |data| ==> buf[..off + p.length] == old(buf[..off]) + SlotOf(data, p)
  {
    if p.offset + p.length <= |data| {
      CopyInto(buf, off, data[p.offset..p.offset + p.length]);
      assert buf[..off + p.length] == old(buf[..off]) + SlotOf(data, p);
    }
  }

  /** memcpy */
  method CopyInto(buf: array<byte>, at: nat, bytes: seq<byte>)
    requires at + |bytes| <= buf.Length
    modifies buf
    ensures buf[..] == Written(old(buf[..]), at, bytes)
  {
    ghost var was := buf[..];
    for i := 0 to |bytes|
      invariant buf[..] == Written(was, at, bytes[..i])
    {
      buf[at + i] := bytes[i];
    }
    assert bytes[..|bytes|] == bytes;
  }

  function Written(buf: seq<byte>, at: nat, bytes: seq<byte>): (r: seq<byte>)
    requires at + |bytes| <= |buf|
    ensures |r| == |buf|
  {
    seq(|buf|, j requires 0 <= j < |buf| => if at <= j < at + |bytes| then bytes[j - at] else buf[j])
  }

  // ---- the host reads the return ---------------------------------------------------------

  datatype Reply = Reply(status: nat, total: nat, data: seq<byte>, iso: seq<Pkt>)

  function ReadReturn(s: seq<byte>, dir: Dir): Read<Reply> {
    if |s| < HDR_LEN then Short
    else
      var h, after := HdrOf(s), s[HDR_LEN..];
      var n := if dir.In? then h.w24 else 0;
      var np := if h.w32 < 0x8000_0000 then h.w32 else 0;
      if |after| < n || |after| - n < DESC_LEN * np then Short
      else Read(Reply(h.w20, h.w24, after[..n], DescsOf(after[n..], np)), after[n..][DESC_LEN * np..])
  }

  lemma ReadsReturn(s: seq<byte>, dir: Dir, h: Hdr, data: seq<byte>, pkts: seq<Pkt>, more: seq<byte>)
    requires |s| >= HDR_LEN && HdrOf(s) == h && s[HDR_LEN..] == data + (DescBytes(pkts) + more)
    requires h.w32 == |pkts| < 0x8000_0000 && |data| == (if dir.In? then h.w24 else 0) && AllFit(pkts)
    ensures ReadReturn(s, dir) == Read(Reply(h.w20, h.w24, data, pkts), more)
  {
    var after := s[HDR_LEN..];
    assert after[..|data|] == data && after[|data|..] == DescBytes(pkts) + more;
    DescRoundTrip(pkts, more);
    assert (DescBytes(pkts) + more)[DESC_LEN * |pkts|..] == more;
  }

  ghost predicate Received(u: Urb, lens: seq<nat>) {
    && u.iso == Slots(lens) && u.seqnum < TWO32 && u.devid < TWO32 && u.ep < 16
    && 0 < |lens| < 0x8000_0000 && Total(lens) < 0x8000_0000
  }

  lemma CompletedFit(lens: seq<nat>, actuals: seq<nat>)
    requires |actuals| == |lens| && Total(lens) < 0x8000_0000 && forall i :: 0 <= i < |lens| ==> actuals[i] <= lens[i]
    ensures AllFit(Completed(Slots(lens), actuals)) && Total(actuals) <= Total(lens)
  {
    SumBelow(actuals, lens, |lens|);
    forall i | 0 <= i < |lens| ensures Completed(Slots(lens), actuals)[i].Fits() {
      SumMonotone(lens, i, |lens|);
    }
  }

  lemma {:induction false} SumBelow(a: seq<nat>, b: seq<nat>, n: nat)
    requires |a| == |b| && n <= |a| && forall i :: 0 <= i < |a| ==> a[i] <= b[i]
    ensures Sum(a, n) <= Sum(b, n)
  {
    if n > 0 {
      SumBelow(a, b, n - 1);
    }
  }

  /** The client reads exactly what the server wrote. */
  lemma ReturnRoundTrip(u: Urb, lens: seq<nat>, actuals: seq<nat>, data: seq<byte>, more: seq<byte>)
    requires Received(u, lens) && |actuals| == |lens| && forall i :: 0 <= i < |lens| ==> actuals[i] <= lens[i]
    requires u.dir.In? ==> |data| == Total(actuals)
    ensures ReadReturn(Return(u, actuals, data) + more, u.dir)
         == Read(Reply(0, Total(actuals), if u.dir.In? then data else [], Completed(Slots(lens), actuals)), more)
  {
    CompletedFit(lens, actuals);
    var pkts := Completed(u.iso, actuals);
    var h := Hdr(RET_SUBMIT, u.seqnum, u.devid, DirWord(u.dir), u.ep, 0, Total(actuals), 0, |u.iso|, 0, Setup0());
    var sent := if u.dir.In? then data else [];
    Framed(HdrBytes(h), sent, DescBytes(pkts), more);
    HdrRoundTrip(h, sent + (DescBytes(pkts) + more));
    ReadsReturn(Return(u, actuals, data) + more, u.dir, h, sent, pkts, more);
  }

  // ---- scatter -----------------------------------------------------------------------

  function Actuals(pkts: seq<Pkt>): nat {
    if pkts == [] then 0 else pkts[0].actual + Actuals(pkts[1..])
  }

  /** Every delivered packet has room at its offset, and the data for it is there. */
  ghost predicate Room(buf: seq<byte>, pkts: seq<Pkt>, data: seq<byte>) {
    && |data| >= Actuals(pkts)
    && forall i :: 0 <= i < |pkts| ==> pkts[i].offset + pkts[i].actual <= |buf|
  }

  function Scattered(buf: seq<byte>, pkts: seq<Pkt>, data: seq<byte>): (r: seq<byte>)
    requires Room(buf, pkts, data)
    ensures |r| == |buf|
    decreases |pkts|
  {
    if pkts == [] then buf
    else Scattered(Written(buf, pkts[0].offset, data[..pkts[0].actual]), pkts[1..], data[pkts[0].actual..])
  }

  /** The client's scatter loop, in place. */
  method Scatter(buf: array<byte>, pkts: seq<Pkt>, data: seq<byte>)
    requires Room(buf[..], pkts, data)
    modifies buf
    ensures buf[..] == Scattered(old(buf[..]), pkts, data)
  {
    ghost var was := buf[..];
    var cum: nat, i: nat := 0, 0;
    while i < |pkts|
      invariant i <= |pkts| && cum <= |data| && Room(buf[..], pkts[i..], data[cum..])
      invariant Scattered(buf[..], pkts[i..], data[cum..]) == Scattered(was, pkts, data)
    {
      var n := pkts[i].actual;
      assert pkts[i..][1..] == pkts[i + 1..] && data[cum..][n..] == data[cum + n..];
      assert data[cum..][..n] == data[cum..cum + n];
      if n > 0 {
        CopyInto(buf, pkts[i].offset, data[cum..cum + n]);
        cum := cum + n;
      } else {
        WrittenNothing(buf[..], pkts[i].offset);
      }
      i := i + 1;
    }
  }

  lemma WrittenNothing(buf: seq<byte>, at: nat)
    requires at <= |buf|
    ensures Written(buf, at, []) == buf
  {}

  // ---- where every byte lands ---------------------------------------------------------------

  /** Byte `j` of the buffer belongs to the delivered part of slot `i`. */
  ghost predicate Delivered(lens: seq<nat>, packets: seq<seq<byte>>, i: nat, j: nat)
    requires |packets| == |lens| && i < |lens|
  {
    Sum(lens, i) <= j < Sum(lens, i) + |packets[i]|
  }

  lemma {:induction false} ActualsFrom(lens: seq<nat>, packets: seq<seq<byte>>, k: nat)
    requires WithinSlots(lens, packets) && k <= |lens|
    ensures Actuals(Completed(Slots(lens), Sizes(packets))[k..]) == |Flatten(packets[k..])|
    decreases |lens| - k
  {
    if k < |lens| {
      ActualsFrom(lens, packets, k + 1);
      var pkts := Completed(Slots(lens), Sizes(packets));
      assert pkts[k..][1..] == pkts[k + 1..] && packets[k..][1..] == packets[k + 1..];
    }
  }

  lemma RoomFrom(buf: seq<byte>, lens: seq<nat>, packets: seq<seq<byte>>, k: nat)
    requires WithinSlots(lens, packets) && k <= |lens| && Total(lens) <= |buf|
    ensures Room(buf, Completed(Slots(lens), Sizes(packets))[k..], Flatten(packets[k..]))
  {
    ActualsFrom(lens, packets, k);
    var pkts := Completed(Slots(lens), Sizes(packets));
    forall i | 0 <= i < |pkts[k..]| ensures pkts[k..][i].offset + pkts[k..][i].actual <= |buf| {
      SumMonotone(lens, k + i, |lens|);
    }
  }

  /** Scattering packets k and later: each lands in its slot, and no other byte changes. */
  lemma {:induction false} ScatterPlaces(buf: seq<byte>, lens: seq<nat>, packets: seq<seq<byte>>, k: nat, i: nat, j: nat)
    requires WithinSlots(lens, packets) && k <= |lens| && Total(lens) <= |buf| && j < |buf| && i < |lens|
    requires Room(buf, Completed(Slots(lens), Sizes(packets))[k..], Flatten(packets[k..]))
    ensures var r := Scattered(buf, Completed(Slots(lens), Sizes(packets))[k..], Flatten(packets[k..]));
      && (k <= i && Delivered(lens, packets, i, j) ==> r[j] == packets[i][j - Sum(lens, i)])
      && ((forall m :: k <= m < |lens| ==> !Delivered(lens, packets, m, j)) ==> r[j] == buf[j])
    decreases |lens| - k
  {
    if k < |lens| {
      var next := Written(buf, Sum(lens, k), packets[k]);
      RoomFrom(next, lens, packets, k + 1);
      ScatterStep(buf, lens, packets, k);
      ScatterPlaces(next, lens, packets, k + 1, i, j);
      if Delivered(lens, packets, k, j) {
        LaterSlots(lens, packets, k, j);
      }
    }
  }

  lemma ScatterStep(buf: seq<byte>, lens: seq<nat>, packets: seq<seq<byte>>, k: nat)
    requires WithinSlots(lens, packets) && k < |lens| && Total(lens) <= |buf|
    requires Room(buf, Completed(Slots(lens), Sizes(packets))[k..], Flatten(packets[k..]))
    ensures var pkts, next := Completed(Slots(lens), Sizes(packets)), Written(buf, Sum(lens, k), packets[k]);
      Room(next, pkts[k + 1..], Flatten(packets[k + 1..]))
      && Scattered(buf, pkts[k..], Flatten(packets[k..])) == Scattered(next, pkts[k + 1..], Flatten(packets[k + 1..]))
  {
    var pkts := Completed(Slots(lens), Sizes(packets));
    assert pkts[k..][1..] == pkts[k + 1..];
    NextPacket(packets, k);
    RoomFrom(Written(buf, Sum(lens, k), packets[k]), lens, packets, k + 1);
  }

  lemma NextPacket(packets: seq<seq<byte>>, k: nat)
    requires k < |packets|
    ensures var p, data := packets[k], Flatten(packets[k..]);
      |p| <= |data| && data[..|p|] == p && data[|p|..] == Flatten(packets[k + 1..])
  {
    assert packets[k..][1..] == packets[k + 1..];
    assert Flatten(packets[k..]) == packets[k] + Flatten(packets[k + 1..]);
  }

  lemma LaterSlots(lens: seq<nat>, packets: seq<seq<byte>>, k: nat, j: nat)
    requires WithinSlots(lens, packets) && k < |lens| && Delivered(lens, packets, k, j)
    ensures forall m :: k < m < |lens| ==> !Delivered(lens, packets, m, j)
  {
    forall m | k < m < |lens| ensures !Delivered(lens, packets, m, j) {
      SumMonotone(lens, k, m);
    }
  }

  // ---- end to end --------------------------------------------------------------------

  /** The URB the server makes of a request. */
  function UrbOf(r: Request, buf: seq<byte>, lens: seq<nat>): Urb
    requires Total(lens) <= |buf|
  {
    Urb(r.seqnum, r.devid, r.dir, r.ep, r.interval, if r.dir.Out? then buf[..Total(lens)] else [], Slots(lens))
  }

  /** An IN transfer: packet i lands at slot i byte for byte, the rest of every slot is left
      alone, and both ends read exactly what the other wrote. */
  lemma InEndToEnd(r: Request, lens: seq<nat>, buf: seq<byte>, packets: seq<seq<byte>>, m1: seq<byte>, m2: seq<byte>)
    requires r.dir.In? && Sendable(r, lens) && Total(lens) <= |buf| && WithinSlots(lens, packets) && Inside(buf, Slots(lens))
    ensures ReadCommand(Command(r, buf, Slots(lens), Total(lens)) + m1) == Read(UrbOf(r, buf, lens), m1)
    ensures var done := Completed(Slots(lens), Sizes(packets));
      && ReadReturn(Return(UrbOf(r, buf, lens), Sizes(packets), Flatten(packets)) + m2, In)
         == Read(Reply(0, |Flatten(packets)|, Flatten(packets), done), m2)
      && Room(buf, done, Flatten(packets))
      && Landed(buf, lens, packets, Scattered(buf, done, Flatten(packets)))
  {
    CommandRoundTrip(r, buf, lens, m1);
    PacketsTotal(lens, packets);
    ReturnRoundTrip(UrbOf(r, buf, lens), lens, Sizes(packets), Flatten(packets), m2);
    RoomFrom(buf, lens, packets, 0);
    LandedFrom(buf, lens, packets);
  }

  lemma PacketsTotal(lens: seq<nat>, packets: seq<seq<byte>>)
    requires WithinSlots(lens, packets)
    ensures |Flatten(packets)| == Total(Sizes(packets))
    ensures packets[0..] == packets && Completed(Slots(lens), Sizes(packets))[0..] == Completed(Slots(lens), Sizes(packets))
  {
    ActualsFrom(lens, packets, 0);
    ActualsTotal(Slots(lens), Sizes(packets), 0);
    assert packets[0..] == packets;
  }

  ghost predicate Landed(buf: seq<byte>, lens: seq<nat>, packets: seq<seq<byte>>, after: seq<byte>)
    requires |packets| == |lens|
  {
    && |after| == |buf|
    && (forall i, j :: 0 <= i < |lens| && 0 <= j < |buf| && Delivered(lens, packets, i, j) ==>
         after[j] == packets[i][j - Sum(lens, i)])
    && (forall j :: 0 <= j < |buf| && Untouched(lens, packets, j) ==> after[j] == buf[j])
  }

  ghost predicate Untouched(lens: seq<nat>, packets: seq<seq<byte>>, j: nat)
    requires |packets| == |lens|
  {
    forall m :: 0 <= m < |lens| ==> !Delivered(lens, packets, m, j)
  }

  lemma LandedFrom(buf: seq<byte>, lens: seq<nat>, packets: seq<seq<byte>>)
    requires WithinSlots(lens, packets) && Total(lens) <= |buf| && |lens| > 0
    requires Room(buf, Completed(Slots(lens), Sizes(packets)), Flatten(packets))
    ensures Landed(buf, lens, packets, Scattered(buf, Completed(Slots(lens), Sizes(packets)), Flatten(packets)))
  {
    var done := Completed(Slots(lens), Sizes(packets));
    assert done[0..] == done && packets[0..] == packets;
    forall i, j | 0 <= i < |lens| && 0 <= j < |buf| && Delivered(lens, packets, i, j)
      ensures Scattered(buf, done, Flatten(packets))[j] == packets[i][j - Sum(lens, i)]
    {
      ScatterPlaces(buf, lens, packets, 0, i, j);
    }
    forall j | 0 <= j < |buf| && Untouched(lens, packets, j)
      ensures Scattered(buf, done, Flatten(packets))[j] == buf[j]
    {
      ScatterPlaces(buf, lens, packets, 0, 0, j);
    }
  }

  lemma {:induction false} ActualsTotal(pkts: seq<Pkt>, actuals: seq<nat>, k: nat)
    requires |pkts| == |actuals| && k <= |pkts|
    ensures Sum(actuals, k) + Actuals(Completed(pkts, actuals)[k..]) == Total(actuals)
    ensures k == 0 ==> Completed(pkts, actuals)[k..] == Completed(pkts, actuals)
    decreases |pkts| - k
  {
    if k < |pkts| {
      assert Completed(pkts, actuals)[k..][1..] == Completed(pkts, actuals)[k + 1..];
      ActualsTotal(pkts, actuals, k + 1);
    }
  }

  /** An OUT transfer: the device's callback gets the slots' bytes back to back, so packet i is
      slot i, and the reply carries no data and the whole of every length. */
  lemma OutEndToEnd(r: Request, lens: seq<nat>, buf: seq<byte>, m1: seq<byte>, m2: seq<byte>)
    requires r.dir.Out? && Sendable(r, lens) && Total(lens) <= |buf| && Inside(buf, Slots(lens))
    ensures ReadCommand(Command(r, buf, Slots(lens), Total(lens)) + m1) == Read(UrbOf(r, buf, lens), m1)
    ensures var u := UrbOf(r, buf, lens);
      && Inside(u.data, u.iso) && Packed(u.data, u.iso) == Packed(buf, Slots(lens)) == buf[..Total(lens)]
      && (forall i :: 0 <= i < |lens| ==> PacketIs(buf, lens, i))
      && ReadReturn(Return(u, lens, []) + m2, Out) == Read(Reply(0, Total(lens), [], Completed(Slots(lens), lens)), m2)
  {
    CommandRoundTrip(r, buf, lens, m1);
    var u := UrbOf(r, buf, lens);
    SlotsInside(u.data, lens);
    OutPackets(buf, u.data, lens);
    ReturnRoundTrip(u, lens, lens, [], m2);
  }

  lemma OutPackets(buf: seq<byte>, data: seq<byte>, lens: seq<nat>)
    requires Total(lens) <= |buf| && data == buf[..Total(lens)] && Inside(buf, Slots(lens)) && Inside(data, Slots(lens))
    ensures Packed(data, Slots(lens)) == Packed(buf, Slots(lens)) == buf[..Total(lens)]
    ensures forall i :: 0 <= i < |lens| ==> PacketIs(buf, lens, i)
  {
    GatheredFront(data, lens);
    GatheredFront(buf, lens);
    assert data[..Total(lens)] == data;
    forall i | 0 <= i < |lens| ensures PacketIs(buf, lens, i) {
      SumMonotone(lens, i, |lens|);
    }
  }

  /** Packet `i` of the packed bytes is slot `i` of the host's buffer. */
  ghost predicate PacketIs(buf: seq<byte>, lens: seq<nat>, i: nat)
    requires i < |lens|
  {
    && Sum(lens, i) + lens[i] <= Total(lens) <= |buf|
    && buf[..Total(lens)][Sum(lens, i)..Sum(lens, i) + lens[i]] == SlotOf(buf, Slots(lens)[i])
  }

  // ---- runs --------------------------------------------------------------------------

  datatype Transfer = Transfer(r: Request, lens: seq<nat>, buf: seq<byte>, packets: seq<seq<byte>>) {
    ghost predicate Ok() {
      && Sendable(r, lens) && Total(lens) <= |buf| && Inside(buf, Slots(lens))
      && (r.dir.In? ==> WithinSlots(lens, packets))
    }

    function Actual(): (a: seq<nat>)
      requires r.dir.In? ==> |packets| == |lens|
      ensures |a| == |lens|
    {
      if r.dir.In? then Sizes(packets) else lens
    }
  }

  function CommandOf(t: Transfer): seq<byte>
    requires Inside(t.buf, Slots(t.lens))
  {
    Command(t.r, t.buf, Slots(t.lens), Total(t.lens))
  }

  ghost function ReturnOf(t: Transfer): seq<byte>
    requires t.Ok()
  {
    Return(UrbOf(t.r, t.buf, t.lens), t.Actual(), if t.r.dir.In? then Flatten(t.packets) else [])
  }

  ghost predicate AllOk(ts: seq<Transfer>) {
    forall i :: 0 <= i < |ts| ==> ts[i].Ok()
  }

  ghost function Commands(ts: seq<Transfer>): seq<byte>
    requires AllOk(ts)
  {
    if ts == [] then [] else CommandOf(ts[0]) + Commands(ts[1..])
  }

  ghost function Returns(ts: seq<Transfer>): seq<byte>
    requires AllOk(ts)
  {
    if ts == [] then [] else ReturnOf(ts[0]) + Returns(ts[1..])
  }

  /** The server reads `n` commands, the client `n` returns, one after the other. */
  function ReadCommands(s: seq<byte>, n: nat): Read<seq<Urb>> {
    if n == 0 then Read([], s)
    else match ReadCommand(s)
      case Short => Short
      case Other(command, rest) => Other(command, rest)
      case Read(u, rest) =>
        match ReadCommands(rest, n - 1)
        case Short => Short
        case Other(command, left) => Other(command, left)
        case Read(us, left) => Read([u] + us, left)
  }

  function ReadReturns(s: seq<byte>, dirs: seq<Dir>): Read<seq<Reply>> {
    if dirs == [] then Read([], s)
    else match ReadReturn(s, dirs[0])
      case Short => Short
      case Other(command, rest) => Other(command, rest)
      case Read(p, rest) =>
        match ReadReturns(rest, dirs[1..])
        case Short => Short
        case Other(command, left) => Other(command, left)
        case Read(ps, left) => Read([p] + ps, left)
  }

  ghost function UrbsOf(ts: seq<Transfer>): seq<Urb>
    requires AllOk(ts)
  {
    if ts == [] then [] else [UrbOf(ts[0].r, ts[0].buf, ts[0].lens)] + UrbsOf(ts[1..])
  }

  function DirsOf(ts: seq<Transfer>): seq<Dir> {
    if ts == [] then [] else [ts[0].r.dir] + DirsOf(ts[1..])
  }

  ghost function RepliesOf(ts: seq<Transfer>): seq<Reply>
    requires AllOk(ts)
  {
    if ts == [] then [] else [ReplyOf(ts[0])] + RepliesOf(ts[1..])
  }

  ghost function ReplyOf(t: Transfer): Reply
    requires t.Ok()
  {
    Reply(0, Total(t.Actual()), if t.r.dir.In? then Flatten(t.packets) else [], Completed(Slots(t.lens), t.Actual()))
  }

  lemma OneTransfer(t: Transfer, m1: seq<byte>, m2: seq<byte>)
    requires t.Ok()
    ensures ReadCommand(CommandOf(t) + m1) == Read(UrbOf(t.r, t.buf, t.lens), m1)
    ensures ReadReturn(ReturnOf(t) + m2, t.r.dir) == Read(ReplyOf(t), m2)
  {
    if t.r.dir.In? {
      InEndToEnd(t.r, t.lens, t.buf, t.packets, m1, m2);
      PacketsTotal(t.lens, t.packets);
    } else {
      OutEndToEnd(t.r, t.lens, t.buf, m1, m2);
    }
  }

  /** Over any run of transfers, in either direction, each side's stream stays framed: every
      command and every reply is read back whole, and nothing is left over. */
  lemma RunStaysFramed(ts: seq<Transfer>, m1: seq<byte>, m2: seq<byte>)
    requires AllOk(ts)
    ensures ReadCommands(Commands(ts) + m1, |ts|) == Read(UrbsOf(ts), m1)
    ensures ReadReturns(Returns(ts) + m2, DirsOf(ts)) == Read(RepliesOf(ts), m2)
  {
    CommandsFramed(ts, m1);
    ReturnsFramed(ts, m2);
  }

  lemma {:induction false} CommandsFramed(ts: seq<Transfer>, m: seq<byte>)
    requires AllOk(ts)
    ensures ReadCommands(Commands(ts) + m, |ts|) == Read(UrbsOf(ts), m)
  {
    if ts == [] {
      assert [] + m == m;
    } else {
      assert AllOk(ts[1..]);
      CommandsFramed(ts[1..], m);
      OneTransfer(ts[0], Commands(ts[1..]) + m, []);
      Assoc(CommandOf(ts[0]), Commands(ts[1..]), m);
    }
  }

  lemma {:induction false} ReturnsFramed(ts: seq<Transfer>, m: seq<byte>)
    requires AllOk(ts)
    ensures ReadReturns(Returns(ts) + m, DirsOf(ts)) == Read(RepliesOf(ts), m)
  {
    if ts == [] {
      assert [] + m == m;
    } else {
      assert AllOk(ts[1..]);
      ReturnsFramed(ts[1..], m);
      OneTransfer(ts[0], [], Returns(ts[1..]) + m);
      Assoc(ReturnOf(ts[0]), Returns(ts[1..]), m);
    }
  }
}
