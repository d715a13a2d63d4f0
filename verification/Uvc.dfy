/** Video streaming: the camera cuts frames into payloads of any size the host asks for, and the
    example host puts the same frames together again. */
module Uvc {
  import opened Bytes
  import Iso

  const HDR := 2
  const EOF: byte := 0x02

  /** The frames the application supplies, by frame index. */
  type Film = nat -> seq<byte>

  /** The state of one stream: `frame` is the frame in the buffer, `len` its size or 0 when the
      next one has to be produced, `pos` the send cursor. */
  datatype Cam = Cam(streaming: bool, frame: seq<byte>, len: nat, pos: nat, fid: byte, index: nat) {
    ghost predicate Valid() {
      fid <= 1 && (len > 0 ==> len == |frame| && pos < len)
    }
  }

  function Started(c: Cam): Cam {
    if c.streaming then c else Cam(true, c.frame, 0, 0, 0, 0)
  }

  function Stopped(c: Cam): Cam {
    c.(streaming := false)
  }

  /** produce_frame, when there is no frame to go on with. */
  function Produced(c: Cam, film: Film): Cam {
    if c.len == 0 then c.(frame := film(c.index), len := |film(c.index)|, pos := 0) else c
  }

  function Chunk(c: Cam, req: nat): nat
    requires c.pos <= c.len && req >= HDR
  {
    if c.len - c.pos < req - HDR then c.len - c.pos else req - HDR
  }

  /** The state and the payload after `n` more bytes of the frame under way. */
  function Paid(d: Cam, n: nat): (r: (Cam, seq<byte>))
    requires d.pos + n <= d.len == |d.frame| && d.fid <= 1
  {
    var last := d.pos + n >= d.len;
    var pkt: seq<byte> := [HDR, d.fid + if last then EOF else 0] + d.frame[d.pos..d.pos + n];
    (if last then d.(len := 0, pos := d.pos + n, fid := 1 - d.fid, index := d.index + 1) else d.(pos := d.pos + n), pkt)
  }

  /** One packet of uvc_on_iso: the new state and the payload, empty when none is sent. */
  function Packet(c: Cam, film: Film, req: nat): (r: (Cam, seq<byte>))
    requires c.Valid()
    ensures r.0.Valid() && |r.1| <= req
  {
    if !c.streaming || req < HDR then (c, [])
    else
      var d := Produced(c, film);
      Paid(d, Chunk(d, req))
  }

  /** A payload, when one is sent, is its two header bytes and as much of what is left of the
      frame as fits: the whole rest, or all the host asked for. The camera goes on behind it. */
  lemma PacketFills(c: Cam, film: Film, req: nat)
    requires c.Valid() && c.streaming && req >= 2
    ensures var d, f, at := Packet(c, film, req).0, (if c.len == 0 then film(c.index) else c.frame), (if c.len == 0 then 0 else c.pos);
      var n := if |f| - at <= req - 2 then |f| - at else req - 2;
      var done := at + n == |f|;
      && Packet(c, film, req).1 == [2, c.fid + if done then 2 else 0] + f[at..at + n]
      && d == (if done then Cam(true, f, 0, |f|, 1 - c.fid, c.index + 1) else Cam(true, f, |f|, at + n, c.fid, c.index))
      && (n > 0 || done || req == 2)
  {}

  lemma PacketNone(c: Cam, film: Film, req: nat)
    requires c.Valid() && (!c.streaming || req < 2)
    ensures Packet(c, film, req) == (c, [])
  {}

  function Packets(c: Cam, film: Film, reqs: seq<nat>): (r: (Cam, seq<seq<byte>>))
    requires c.Valid()
    ensures r.0.Valid() && Iso.WithinSlots(reqs, r.1)
    decreases |reqs|
  {
    if reqs == [] then (c, [])
    else
      var first := Packet(c, film, reqs[0]);
      var more := Packets(first.0, film, reqs[1..]);
      (more.0, [first.1] + more.1)
  }

  // ---- the host ----------------------------------------------------------------------

  /** The frame being put together, and the frames completed. */
  datatype Host = Host(partial: seq<byte>, frames: seq<seq<byte>>)

  function Receive(h: Host, packet: seq<byte>, maxFrame: nat): Host {
    if |packet| < HDR then h
    else
      var payload := if |packet| > packet[0] then packet[packet[0]..] else [];
      var now := if payload != [] && |h.partial| + |payload| <= maxFrame then h.partial + payload else h.partial;
      if packet[1] / 2 % 2 == 1 then Host([], h.frames + [now]) else Host(now, h.frames)
  }

  function ReceiveAll(h: Host, packets: seq<seq<byte>>, maxFrame: nat): Host
    decreases |packets|
  {
    if packets == [] then h else ReceiveAll(Receive(h, packets[0], maxFrame), packets[1..], maxFrame)
  }

  // ---- what holds between them -------------------------------------------------------------

  function Reel(film: Film, n: nat): (fs: seq<seq<byte>>)
    ensures |fs| == n
  {
    if n == 0 then [] else Reel(film, n - 1) + [film(n - 1)]
  }

  /** How much of the current frame has been sent. */
  function Sent(c: Cam): nat {
    if c.len == 0 then 0 else c.pos
  }

  /** The host has every frame the camera finished and the sent part of the one under way. */
  ghost predicate InStep(c: Cam, film: Film, h: Host) {
    && c.Valid() && c.fid == c.index % 2
    && (c.len > 0 ==> c.frame == film(c.index))
    && h.frames == Reel(film, c.index)
    && h.partial == film(c.index)[..Sent(c)]
  }

  ghost predicate Fitting(film: Film, maxFrame: nat) {
    forall i :: |film(i)| <= maxFrame
  }

  lemma PacketKeepsStep(c: Cam, film: Film, req: nat, h: Host, maxFrame: nat)
    requires InStep(c, film, h) && Fitting(film, maxFrame)
    ensures InStep(Packet(c, film, req).0, film, Receive(h, Packet(c, film, req).1, maxFrame))
  {
    if c.streaming && req >= HDR {
      var d := Produced(c, film);
      assert d.frame == film(c.index) && d.pos == Sent(c);
      PayloadKeepsStep(c, d, film, h, Chunk(d, req), maxFrame);
    }
  }

  lemma PayloadKeepsStep(c: Cam, d: Cam, film: Film, h: Host, n: nat, maxFrame: nat)
    requires InStep(c, film, h) && Fitting(film, maxFrame) && d == Produced(c, film) && d.pos + n <= d.len
    requires d.frame == film(c.index) && d.pos == Sent(c)
    ensures InStep(Paid(d, n).0, film, Receive(h, Paid(d, n).1, maxFrame))
  {
    var f := film(c.index);
    assert |f| <= maxFrame;
    Spliced(f, d.pos, n);
    if d.pos + n >= d.len {
      LastPayload(c, d, film, h, n, maxFrame);
    } else {
      ReceivesPayload(h, d.fid, f[d.pos..d.pos + n], false, maxFrame);
    }
  }

  lemma LastPayload(c: Cam, d: Cam, film: Film, h: Host, n: nat, maxFrame: nat)
    requires InStep(c, film, h) && Fitting(film, maxFrame) && d == Produced(c, film) && d.pos + n == d.len
    requires d.frame == film(c.index) && d.pos == Sent(c)
    ensures InStep(Paid(d, n).0, film, Receive(h, Paid(d, n).1, maxFrame))
  {
    var f := film(c.index);
    assert |f| <= maxFrame;
    Spliced(f, d.pos, n);
    Whole(f, d.pos + n);
    Whole(film(c.index + 1), 0);
    ReceivesPayload(h, d.fid + EOF, f[d.pos..d.pos + n], true, maxFrame);
  }

  lemma Spliced(f: seq<byte>, a: nat, n: nat)
    requires a + n <= |f|
    ensures f[..a] + f[a..a + n] == f[..a + n]
  {}

  lemma Whole(f: seq<byte>, n: nat)
    requires n <= |f|
    ensures n == |f| ==> f[..n] == f
    ensures n == 0 ==> f[..n] == []
  {}

  lemma ReceivesPayload(h: Host, info: byte, data: seq<byte>, last: bool, maxFrame: nat)
    requires info < 4 && (info >= 2 <==> last) && |h.partial| + |data| <= maxFrame
    ensures Receive(h, [HDR, info] + data, maxFrame)
         == if last then Host([], h.frames + [h.partial + data]) else Host(h.partial + data, h.frames)
  {
    assert ([HDR, info] + data)[HDR..] == data;
    assert h.partial + [] == h.partial;
  }

  lemma {:induction false} PacketsKeepStep(c: Cam, film: Film, reqs: seq<nat>, h: Host, maxFrame: nat)
    requires InStep(c, film, h) && Fitting(film, maxFrame)
    ensures InStep(Packets(c, film, reqs).0, film, ReceiveAll(h, Packets(c, film, reqs).1, maxFrame))
    decreases |reqs|
  {
    if reqs != [] {
      var r := Packet(c, film, reqs[0]);
      PacketKeepsStep(c, film, reqs[0], h, maxFrame);
      PacketsKeepStep(r.0, film, reqs[1..], Receive(h, r.1, maxFrame), maxFrame);
    }
  }

  /** From the start of a stream, for any sizes asked for: the host's frames are exactly the
      frames the camera completed, in order, and its partial frame is what was sent of the next. */
  lemma HostRecoversFrames(c: Cam, film: Film, reqs: seq<nat>, maxFrame: nat)
    requires !c.streaming && Fitting(film, maxFrame)
    ensures var r := Packets(Started(c), film, reqs);
      var h := ReceiveAll(Host([], []), r.1, maxFrame);
      h.frames == Reel(film, r.0.index) && Sent(r.0) <= |film(r.0.index)| && h.partial == film(r.0.index)[..Sent(r.0)]
  {
    PacketsKeepStep(Started(c), film, reqs, Host([], []), maxFrame);
  }

  // ---- headers -----------------------------------------------------------------------

  /** Of a packet sent between states `c` and `d`: the header is two bytes, FID is the parity of
      the frame's index, and EOF is set exactly when the frame is finished by it. */
  ghost predicate Headed(c: Cam, d: Cam, packet: seq<byte>) {
    packet != [] ==>
      && |packet| >= HDR && packet[0] == HDR && packet[1] < 4
      && packet[1] % 2 == c.index % 2
      && (packet[1] / 2 % 2 == 1 <==> d.index == c.index + 1)
      && c.index <= d.index <= c.index + 1
  }

  lemma PacketHeaded(c: Cam, film: Film, req: nat)
    requires c.Valid() && c.fid == c.index % 2
    ensures var r := Packet(c, film, req); Headed(c, r.0, r.1) && r.0.fid == r.0.index % 2
    ensures Packet(c, film, req).1 == [] ==> Packet(c, film, req).0 == c
  {}

  function StateAt(c: Cam, film: Film, reqs: seq<nat>, k: nat): (d: Cam)
    requires c.Valid() && k <= |reqs|
    ensures d.Valid()
  {
    Packets(c, film, reqs[..k]).0
  }

  lemma FirstState(c: Cam, film: Film, reqs: seq<nat>)
    requires c.Valid() && reqs != []
    ensures StateAt(c, film, reqs, 0) == c && StateAt(c, film, reqs, 1) == Packet(c, film, reqs[0]).0
  {
    var one := reqs[..1];
    assert one[0] == reqs[0] && one[1..] == [] && reqs[..0] == [];
    assert Packets(Packet(c, film, reqs[0]).0, film, []).0 == Packet(c, film, reqs[0]).0;
  }

  lemma NextState(c: Cam, film: Film, reqs: seq<nat>, k: nat)
    requires c.Valid() && 0 < k <= |reqs|
    ensures StateAt(c, film, reqs, k) == StateAt(Packet(c, film, reqs[0]).0, film, reqs[1..], k - 1)
  {
    assert reqs[..k][1..] == reqs[1..][..k - 1] && reqs[..k][0] == reqs[0];
  }

  lemma {:induction false} RunHeaded(c: Cam, film: Film, reqs: seq<nat>, k: nat)
    requires c.Valid() && c.fid == c.index % 2 && k < |reqs|
    ensures Headed(StateAt(c, film, reqs, k), StateAt(c, film, reqs, k + 1), Packets(c, film, reqs).1[k])
    decreases k
  {
    var d := Packet(c, film, reqs[0]).0;
    PacketHeaded(c, film, reqs[0]);
    if k == 0 {
      FirstState(c, film, reqs);
    } else {
      RunHeaded(d, film, reqs[1..], k - 1);
      NextState(c, film, reqs, k);
      NextState(c, film, reqs, k + 1);
    }
  }

  /** FID is constant within a frame, toggles between frames, and EOF marks exactly the last
      payload of each; no packet is longer than it was asked to be. */
  lemma StreamHeaders(c: Cam, film: Film, reqs: seq<nat>, k: nat)
    requires !c.streaming && k < |reqs|
    ensures var s := Started(c);
      && Headed(StateAt(s, film, reqs, k), StateAt(s, film, reqs, k + 1), Packets(s, film, reqs).1[k])
      && |Packets(s, film, reqs).1[k]| <= reqs[k]
  {
    RunHeaded(Started(c), film, reqs, k);
  }
}
