/** uvc_on_iso and the example's reassembly loop as the source has them, and the two joined by
    an isochronous transfer. */
module UvcStream {
  import opened Bytes
  import Iso
  import opened Uvc

  lemma {:induction false} PacketsSnoc(c: Cam, film: Film, reqs: seq<nat>, req: nat)
    requires c.Valid()
    ensures var r := Packets(c, film, reqs); var last := Packet(r.0, film, req);
      Packets(c, film, reqs + [req]) == (last.0, r.1 + [last.1])
    decreases |reqs|
  {
    if reqs == [] {
      assert [] + [req] == [req] && [req][1..] == [];
      var last := Packet(c, film, req);
      assert Packets(last.0, film, []) == (last.0, []) && [last.1] + [] == [] + [last.1];
    } else {
      var first := Packet(c, film, reqs[0]);
      var more := Packets(first.0, film, reqs[1..]);
      assert (reqs + [req])[0] == reqs[0] && (reqs + [req])[1..] == reqs[1..] + [req];
      PacketsSnoc(first.0, film, reqs[1..], req);
      var last := Packet(more.0, film, req).1;
      assert [first.1] + (more.1 + [last]) == [first.1] + more.1 + [last];
    }
  }

  lemma WrittenAfter(was: seq<byte>, at: nat, bytes: seq<byte>)
    requires at + |bytes| <= |was|
    ensures Iso.Written(was, at, bytes)[..at + |bytes|] == was[..at] + bytes
  {}

  class Camera {
    const film: Film
    var streaming: bool
    var frame: seq<byte>
    var frameLen: nat
    var framePos: nat
    var fid: byte
    var frameIndex: nat

    ghost function View(): Cam
      reads this
    {
      Cam(streaming, frame, frameLen, framePos, fid, frameIndex)
    }

    constructor (film: Film)
      ensures View().Valid() && !streaming && this.film == film
    {
      this.film := film;
      streaming, frame, frameLen, framePos, fid, frameIndex := false, [], 0, 0, 0, 0;
    }

    method SetAlt(alt: int)
      requires View().Valid()
      modifies this
      ensures View() == if alt == 1 then Started(old(View())) else if alt == 0 then Stopped(old(View())) else old(View())
      ensures View().Valid()
    {
      if alt == 1 && !streaming {
        streaming, frameLen, framePos, fid, frameIndex := true, 0, 0, 0, 0;
      } else if alt == 0 && streaming {
        streaming := false;
      }
    }

    /** produce_frame, when it is due. */
    method NextFrame()
      requires View().Valid()
      modifies this`frame, this`frameLen, this`framePos
      ensures View() == Uvc.Produced(old(View()), film)
    {
      if frameLen == 0 {
        frame := film(frameIndex);
        frameLen, framePos := |frame|, 0;
      }
    }

    /** A payload: its header, and the next `chunk` bytes of the frame. */
    method PutPayload(buf: array<byte>, off: nat, chunk: nat)
      requires framePos + chunk <= |frame| && fid <= 1 && off + HDR + chunk <= buf.Length
      modifies buf
      ensures buf[..off + HDR + chunk] == old(buf[..off])
        + ([HDR, fid + if framePos + chunk >= frameLen then EOF else 0] + frame[framePos..framePos + chunk])
    {
      buf[off], buf[off + 1] := HDR, fid;
      if framePos + chunk >= frameLen {
        buf[off + 1] := fid + EOF;
      }
      ghost var was := buf[..];
      var data := frame[framePos..framePos + chunk];
      Iso.CopyInto(buf, off + 2, data);
      WrittenAfter(was, off + 2, data);
      assert was[..off + 2] == old(buf[..off]) + [HDR, was[off + 1]];
      Assoc(old(buf[..off]), [HDR, was[off + 1]], data);
    }

    /** One turn of the packet loop: how much of the buffer it took. */
    method OnePacket(req: nat, buf: array<byte>, off: nat) returns (n: nat)
      requires View().Valid() && off + req <= buf.Length
      modifies this, buf
      ensures View() == Packet(old(View()), film, req).0 && n == |Packet(old(View()), film, req).1|
      ensures buf[..off + n] == old(buf[..off]) + Packet(old(View()), film, req).1
    {
      n := 0;
      if streaming && req >= HDR {
        NextFrame();
        var cap, remain := req - HDR, frameLen - framePos;
        var chunk := if remain < cap then remain else cap;
        PutPayload(buf, off, chunk);
        framePos := framePos + chunk;
        n := HDR + chunk;
        if framePos >= frameLen {
          frameLen, fid, frameIndex := 0, 1 - fid, frameIndex + 1;
        }
      }
    }

    /** uvc_on_iso: requested lengths in, produced lengths out, payloads back to back. */
    method OnIso(lens: array<nat>, buf: array<byte>) returns (ghost packets: seq<seq<byte>>)
      requires View().Valid() && buf.Length >= Iso.Total(lens[..])
      modifies this, lens, buf
      ensures (View(), packets) == Packets(old(View()), film, old(lens[..]))
      ensures lens[..] == Iso.Sizes(packets)
      ensures |Flatten(packets)| <= buf.Length && buf[..|Flatten(packets)|] == Flatten(packets)
    {
      ghost var c, reqs := View(), lens[..];
      packets := [];
      var off: nat, i: nat := 0, 0;
      assert reqs[..0] == [];
      while i < lens.Length
        invariant i <= lens.Length && View().Valid() && (View(), packets) == Packets(c, film, reqs[..i])
        invariant |packets| == i && lens[..i] == Iso.Sizes(packets) && lens[i..] == reqs[i..]
        invariant off == |Flatten(packets)| <= Iso.Sum(reqs, i) && off <= buf.Length && buf[..off] == Flatten(packets)
      {
        ghost var one := Packet(View(), film, reqs[i]).1;
        Iso.SumMonotone(reqs, i, |reqs|);
        PacketsSnoc(c, film, reqs[..i], reqs[i]);
        assert reqs[..i + 1] == reqs[..i] + [reqs[i]];
        FlattenSnoc(packets, one);
        var n := OnePacket(lens[i], buf, off);
        lens[i] := n;
        off := off + n;
        packets := packets + [one];
        i := i + 1;
      }
      assert reqs[..i] == reqs && lens[..i] == lens[..];
    }
  }

  /** The reassembly loop of the example host. */
  class Reassembler {
    const frame: array<byte>
    const maxFrame: nat
    var framePos: nat
    ghost var frames: seq<seq<byte>>
    var count: nat

    ghost predicate Valid()
      reads this
    {
      frame.Length == maxFrame && framePos <= maxFrame && count == |frames|
    }

    ghost function View(): Host
      reads this, frame
      requires Valid()
    {
      Host(frame[..framePos], frames)
    }

    constructor (maxFrame: nat)
      ensures Valid() && fresh(frame) && View() == Host([], []) && this.maxFrame == maxFrame
    {
      frame := new byte[maxFrame];
      this.maxFrame := maxFrame;
      framePos, frames, count := 0, [], 0;
    }

    method TakePacket(packet: seq<byte>)
      requires Valid()
      modifies this, frame
      ensures Valid() && View() == Receive(old(View()), packet, maxFrame)
    {
      if |packet| < HDR {
        return;
      }
      var headerLen, info := packet[0], packet[1];
      var payloadLen := |packet| - headerLen;
      if payloadLen > 0 && framePos + payloadLen <= maxFrame {
        WrittenAfter(frame[..], framePos, packet[headerLen..headerLen + payloadLen]);
        Iso.CopyInto(frame, framePos, packet[headerLen..headerLen + payloadLen]);
        framePos := framePos + payloadLen;
        assert packet[headerLen..headerLen + payloadLen] == packet[headerLen..];
      }
      if info / 2 % 2 == 1 {
        frames := frames + [frame[..framePos]];
        count := count + 1;
        framePos := 0;
      }
    }
  }

  // ---- joined by a transfer ----------------------------------------------------------------

  /** A transfer of `n` packets of `size` bytes each. */
  function Equal(n: nat, size: nat): (lens: seq<nat>)
    ensures |lens| == n
  {
    seq(n, _ => size)
  }

  lemma {:induction false} EqualSum(n: nat, size: nat, i: nat)
    requires i <= n
    ensures Iso.Sum(Equal(n, size), i) == i * size
  {
    if i > 0 {
      EqualSum(n, size, i - 1);
    }
  }

  /** What usbip_host_get_iso_packet_buffer_simple shows of packet `i`. */
  function SlotAt(buf: seq<byte>, size: nat, i: nat, actual: nat): seq<byte>
    requires i * size + actual <= |buf|
  {
    buf[i * size..i * size + actual]
  }

  /** Each slot of a finished transfer holds its packet. */
  lemma SlotHoldsPacket(buf: seq<byte>, n: nat, size: nat, packets: seq<seq<byte>>, after: seq<byte>, i: nat)
    requires Iso.WithinSlots(Equal(n, size), packets) && Iso.Total(Equal(n, size)) <= |buf| && i < n
    requires Iso.Landed(buf, Equal(n, size), packets, after)
    ensures i * size + |packets[i]| <= |after| && SlotAt(after, size, i, |packets[i]|) == packets[i]
  {
    var lens := Equal(n, size);
    EqualSum(n, size, i);
    Iso.SumMonotone(lens, i, n);
    forall j | i * size <= j < i * size + |packets[i]| ensures after[j] == packets[i][j - i * size] {
      assert Iso.Delivered(lens, packets, i, j);
    }
  }

  /** The host's loop over the slots of a transfer. */
  ghost function ReceiveSlots(h: Host, buf: seq<byte>, size: nat, actuals: seq<nat>, maxFrame: nat, i: nat): Host
    requires i <= |actuals| && forall k :: i <= k < |actuals| ==> k * size + actuals[k] <= |buf|
    decreases |actuals| - i
  {
    if i == |actuals| then h
    else ReceiveSlots(Receive(h, SlotAt(buf, size, i, actuals[i]), maxFrame), buf, size, actuals, maxFrame, i + 1)
  }

  lemma {:induction false} SlotsArePackets(h: Host, buf: seq<byte>, size: nat, packets: seq<seq<byte>>, maxFrame: nat, i: nat)
    requires i <= |packets| && forall k :: i <= k < |packets| ==> SlotShows(buf, size, packets, k)
    ensures forall k :: i <= k < |packets| ==> k * size + Iso.Sizes(packets)[k] <= |buf|
    ensures ReceiveSlots(h, buf, size, Iso.Sizes(packets), maxFrame, i) == ReceiveAll(h, packets[i..], maxFrame)
    decreases |packets| - i
  {
    forall k | i <= k < |packets| ensures k * size + Iso.Sizes(packets)[k] <= |buf| {
      assert SlotShows(buf, size, packets, k);
    }
    if i < |packets| {
      assert SlotShows(buf, size, packets, i);
      assert packets[i..][1..] == packets[i + 1..];
      SlotsArePackets(Receive(h, packets[i], maxFrame), buf, size, packets, maxFrame, i + 1);
    }
  }

  ghost predicate SlotShows(buf: seq<byte>, size: nat, packets: seq<seq<byte>>, k: nat)
    requires k < |packets|
  {
    k * size + |packets[k]| <= |buf| && SlotAt(buf, size, k, |packets[k]|) == packets[k]
  }

  /** One transfer, whatever bytes its buffer held before, keeps camera and host in step. */
  lemma TransferKeepsStep(c: Cam, film: Film, h: Host, buf: seq<byte>, n: nat, size: nat, maxFrame: nat)
    requires InStep(c, film, h) && Fitting(film, maxFrame) && n > 0 && Iso.Total(Equal(n, size)) <= |buf|
    ensures var r := Packets(c, film, Equal(n, size)); var done := Iso.Completed(Iso.Slots(Equal(n, size)), Iso.Sizes(r.1));
      && Iso.Room(buf, done, Flatten(r.1))
      && var after := Iso.Scattered(buf, done, Flatten(r.1));
         (forall k :: 0 <= k < |r.1| ==> SlotShows(after, size, r.1, k))
         && (forall k :: 0 <= k < n ==> k * size + Iso.Sizes(r.1)[k] <= |after|)
         && InStep(r.0, film, ReceiveSlots(h, after, size, Iso.Sizes(r.1), maxFrame, 0))
  {
    var lens := Equal(n, size);
    var r := Packets(c, film, lens);
    var done := Iso.Completed(Iso.Slots(lens), Iso.Sizes(r.1));
    Iso.RoomFrom(buf, lens, r.1, 0);
    Iso.PacketsTotal(lens, r.1);
    Iso.LandedFrom(buf, lens, r.1);
    var after := Iso.Scattered(buf, done, Flatten(r.1));
    forall k | 0 <= k < |r.1| ensures SlotShows(after, size, r.1, k) {
      SlotHoldsPacket(buf, n, size, r.1, after, k);
    }
    SlotsArePackets(h, after, size, r.1, maxFrame, 0);
    assert r.1[0..] == r.1;
    PacketsKeepStep(c, film, lens, h, maxFrame);
  }
}
