/** With one writer thread, the interleaved endpoint delivers exactly what a sequential
    reference does: cut the writes, in order, at the lengths of the URBs served. */
module StreamRefinement {
  import opened Bytes
  import opened Endpoint
  import opened Interleaving

  /** A successful completion: the URB's length and what it carried. */
  datatype Piece = Piece(length: nat, payload: seq<byte>)

  function NonEmpty(ws: seq<seq<byte>>): seq<seq<byte>> {
    if ws == [] then [] else (if ws[0] == [] then [] else [ws[0]]) + NonEmpty(ws[1..])
  }

  /** What is left of `rest` after cutting `p` off its first chunk, or None when `p` is not
      the cut an URB of that length makes. */
  function Cut(rest: seq<seq<byte>>, p: Piece): Option<seq<seq<byte>>> {
    if rest == [] || p.payload != rest[0][..Limit(p.length, |rest[0]|)] then None
    else Some(AfterCut(rest, |p.payload|))
  }

  function AfterCut(rest: seq<seq<byte>>, n: nat): seq<seq<byte>>
    requires rest != [] && n <= |rest[0]|
  {
    (if n == |rest[0]| then [] else [rest[0][n..]]) + rest[1..]
  }

  /** The reference: what is left of the writes `ws` once `ps` has been cut off their front,
      or None when some piece is not the next cut. */
  function Unsent(ws: seq<seq<byte>>, ps: seq<Piece>): Option<seq<seq<byte>>> {
    if ps == [] then Some(NonEmpty(ws))
    else
      match Unsent(ws, ps[..|ps| - 1])
      case None => None
      case Some(rest) => Cut(rest, ps[|ps| - 1])
  }

  function Payloads(ps: seq<Piece>): seq<seq<byte>> {
    seq(|ps|, i requires 0 <= i < |ps| => ps[i].payload)
  }

  // ---- what the reference promises ---------------------------------------------------

  lemma NonEmptyAppend(a: seq<seq<byte>>, b: seq<seq<byte>>)
    ensures NonEmpty(a + b) == NonEmpty(a) + NonEmpty(b)
  {
    if a == [] {
      assert a + b == b;
    } else {
      assert (a + b)[1..] == a[1..] + b;
      NonEmptyAppend(a[1..], b);
    }
  }

  lemma NonEmptySingle(w: seq<byte>)
    ensures NonEmpty([w]) == if w == [] then [] else [w]
  {
    assert [w][1..] == [];
  }

  lemma FlattenNonEmpty(ws: seq<seq<byte>>)
    ensures Flatten(NonEmpty(ws)) == Flatten(ws)
    ensures forall w :: w in NonEmpty(ws) ==> w != [] && w in ws
  {
    if ws != [] {
      FlattenNonEmpty(ws[1..]);
      if ws[0] != [] {
        assert NonEmpty(ws)[1..] == NonEmpty(ws[1..]);
      } else {
        assert NonEmpty(ws) == NonEmpty(ws[1..]);
      }
    }
  }

  /** A later write only lengthens what is left. */
  lemma {:induction false} UnsentLaterWrite(ws: seq<seq<byte>>, ps: seq<Piece>, w: seq<byte>)
    requires Unsent(ws, ps).Some?
    ensures Unsent(ws + [w], ps) == Some(Unsent(ws, ps).value + NonEmpty([w]))
  {
    if ps == [] {
      NonEmptyAppend(ws, [w]);
    } else {
      UnsentLaterWrite(ws, ps[..|ps| - 1], w);
      var rest := Unsent(ws, ps[..|ps| - 1]).value;
      var more := rest + NonEmpty([w]);
      assert more[0] == rest[0] && more[1..] == rest[1..] + NonEmpty([w]);
      assert AfterCut(more, |ps[|ps| - 1].payload|) == AfterCut(rest, |ps[|ps| - 1].payload|) + NonEmpty([w]);
    }
  }

  lemma UnsentSnoc(ws: seq<seq<byte>>, ps: seq<Piece>, p: Piece)
    requires Unsent(ws, ps).Some?
    ensures Unsent(ws, ps + [p]) == Cut(Unsent(ws, ps).value, p)
  {
    assert (ps + [p])[..|ps|] == ps;
  }

  /** Nothing is lost, repeated or reordered. */
  lemma {:induction false} UnsentConserves(ws: seq<seq<byte>>, ps: seq<Piece>)
    requires Unsent(ws, ps).Some?
    ensures Flatten(Payloads(ps)) + Flatten(Unsent(ws, ps).value) == Flatten(ws)
  {
    if ps == [] {
      FlattenNonEmpty(ws);
    } else {
      var front, p := ps[..|ps| - 1], ps[|ps| - 1];
      UnsentConserves(ws, front);
      var rest := Unsent(ws, front).value;
      var n := |p.payload|;
      assert Payloads(ps) == Payloads(front) + [p.payload];
      FlattenAppend(Payloads(front), [p.payload]);
      FlattenSingle(p.payload);
      var left := if n == |rest[0]| then [] else [rest[0][n..]];
      FlattenAppend(left, rest[1..]);
      assert rest[0] == p.payload + rest[0][n..];
      FlattenSingle(rest[0][n..]);
      assert Flatten(left) == rest[0][n..];
      calc {
        Flatten(Payloads(ps)) + Flatten(Unsent(ws, ps).value);
        (Flatten(Payloads(front)) + p.payload) + (rest[0][n..] + Flatten(rest[1..]));
        Flatten(Payloads(front)) + ((p.payload + rest[0][n..]) + Flatten(rest[1..]));
        Flatten(Payloads(front)) + Flatten(rest);
        Flatten(ws);
      }
    }
  }

  /** `p` is a cut of the single write `w`: within its URB, and short only at the write's end. */
  ghost predicate CutOf(p: Piece, w: seq<byte>, off: nat) {
    && p.payload != []
    && off + |p.payload| <= |w| && p.payload == w[off..off + |p.payload|]
    && (p.length > 0 ==> |p.payload| <= p.length)
    && (|p.payload| != p.length ==> off + |p.payload| == |w|)
  }

  ghost predicate CutOfSome(p: Piece, ws: seq<seq<byte>>) {
    exists w, off :: w in ws && CutOf(p, w, off)
  }

  lemma {:induction false} NextNonEmpty(ws: seq<seq<byte>>, from: nat) returns (j: nat)
    requires from <= |ws|
    ensures NonEmpty(ws[from..]) != [] ==>
      j < |ws| && NonEmpty(ws[from..])[0] == ws[j] && ws[j] != []
      && NonEmpty(ws[from..])[1..] == NonEmpty(ws[j + 1..])
    decreases |ws| - from
  {
    if from == |ws| {
      j := from;
    } else if ws[from] != [] {
      j := from;
      assert ws[from..][1..] == ws[from + 1..];
    } else {
      assert ws[from..][1..] == ws[from + 1..];
      j := NextNonEmpty(ws, from + 1);
      assert NonEmpty(ws[from..]) == NonEmpty(ws[from + 1..]);
    }
  }

  /** `rest` starts inside write `j` and goes on with the writes after it. */
  ghost predicate SuffixFrom(rest: seq<seq<byte>>, ws: seq<seq<byte>>, j: nat) {
    rest != [] ==>
      && j < |ws| && 0 < |rest[0]| <= |ws[j]|
      && rest[0] == ws[j][|ws[j]| - |rest[0]|..]
      && rest[1..] == NonEmpty(ws[j + 1..])
  }

  lemma SuffixAfterCut(ws: seq<seq<byte>>, rest: seq<seq<byte>>, i: nat, n: nat) returns (j: nat)
    requires rest != [] && SuffixFrom(rest, ws, i) && 0 < n <= |rest[0]|
    ensures SuffixFrom(AfterCut(rest, n), ws, j)
  {
    if n == |rest[0]| {
      assert AfterCut(rest, n) == rest[1..];
      j := NextNonEmpty(ws, i + 1);
    } else {
      j := i;
      var left := AfterCut(rest, n);
      assert left[0] == rest[0][n..] && left[1..] == rest[1..];
    }
  }

  /** What is left is a suffix of one write, then whole writes. */
  lemma {:induction false} UnsentIsSuffix(ws: seq<seq<byte>>, ps: seq<Piece>) returns (j: nat)
    requires Unsent(ws, ps).Some?
    ensures SuffixFrom(Unsent(ws, ps).value, ws, j)
  {
    if ps == [] {
      assert ws[0..] == ws;
      j := NextNonEmpty(ws, 0);
    } else {
      var i := UnsentIsSuffix(ws, ps[..|ps| - 1]);
      j := SuffixAfterCut(ws, Unsent(ws, ps[..|ps| - 1]).value, i, |ps[|ps| - 1].payload|);
    }
  }

  /** Every piece is a cut of exactly one write. */
  lemma {:induction false} PiecesAreCuts(ws: seq<seq<byte>>, ps: seq<Piece>, k: nat)
    requires Unsent(ws, ps).Some? && k < |ps|
    ensures CutOfSome(ps[k], ws)
  {
    var front := ps[..|ps| - 1];
    if k == |ps| - 1 {
      var j := UnsentIsSuffix(ws, front);
      var rest := Unsent(ws, front).value;
      assert ws[j] in ws && CutOf(ps[k], ws[j], |ws[j]| - |rest[0]|);
    } else {
      PiecesAreCuts(ws, front, k);
    }
  }

  /** Every payload comes from one write, fits its URB, and is short only where that write ends. */
  ghost predicate AllCuts(ws: seq<seq<byte>>, ps: seq<Piece>) {
    forall i :: 0 <= i < |ps| ==> CutOfSome(ps[i], ws)
  }

  lemma AllPiecesAreCuts(ws: seq<seq<byte>>, ps: seq<Piece>)
    requires Unsent(ws, ps).Some?
    ensures AllCuts(ws, ps)
  {
    forall i | 0 <= i < |ps| ensures CutOfSome(ps[i], ws) {
      PiecesAreCuts(ws, ps, i);
    }
  }

  /** The payloads depend on the writes and the URB lengths alone, not on the interleaving. */
  lemma {:induction false} PiecesDetermined(ws: seq<seq<byte>>, ps: seq<Piece>, qs: seq<Piece>)
    requires Unsent(ws, ps).Some? && Unsent(ws, qs).Some? && |ps| == |qs|
    requires forall i :: 0 <= i < |ps| ==> ps[i].length == qs[i].length
    ensures ps == qs
  {
    if ps != [] {
      var n := |ps| - 1;
      UnsentLast(ws, ps);
      UnsentLast(ws, qs);
      PiecesDetermined(ws, ps[..n], qs[..n]);
      CutDetermined(Unsent(ws, ps[..n]).value, ps[n], qs[n]);
      assert ps == ps[..n] + [ps[n]] && qs == qs[..n] + [qs[n]];
    }
  }

  lemma UnsentLast(ws: seq<seq<byte>>, ps: seq<Piece>)
    requires ps != [] && Unsent(ws, ps).Some?
    ensures var rest := Unsent(ws, ps[..|ps| - 1]); rest.Some? && Cut(rest.value, ps[|ps| - 1]).Some?
  {}

  lemma CutDetermined(rest: seq<seq<byte>>, p: Piece, q: Piece)
    requires Cut(rest, p).Some? && Cut(rest, q).Some? && p.length == q.length
    ensures p == q
  {}

  // ---- the interleaved endpoint meets it ---------------------------------------------

  function DataPieces(wire: seq<Completion>): seq<Piece> {
    if wire == [] then []
    else
      var c := wire[|wire| - 1];
      DataPieces(wire[..|wire| - 1]) + if c.status.Ok? then [Piece(c.urb.length, c.payload)] else []
  }

  /** The piece some thread took under the lock and has not sent yet. */
  function HandPieces(s: State): seq<Piece>
    requires |s.writers| == 1
  {
    match (s.server, s.writers[0])
    case (Sending(u, slice), _) => [Piece(u.length, slice)]
    case (_, InHand(u, chunk, _)) => [Piece(u.length, chunk)]
    case _ => []
  }

  function Unread(inq: seq<Dbuf>): seq<seq<byte>> {
    seq(|inq|, i requires 0 <= i < |inq| => inq[i].Unread())
  }

  function Backlog(s: State): seq<seq<byte>>
    requires |s.writers| == 1
  {
    Unread(s.ep.inq) + if s.writers[0].Idle? then [] else NonEmpty([s.writers[0].rem])
  }

  ghost predicate StreamInv(s: State) {
    && QueueInv(s) && |s.writers| == 1
    && (s.server.Sending? ==> s.ep.pend == [] && !s.writers[0].InHand?)
    && (s.writers[0].InHand? ==> s.ep.inq == [])
    && Unsent(s.written, DataPieces(s.wire) + HandPieces(s)) == Some(Backlog(s))
  }

  lemma DataPiecesSnoc(wire: seq<Completion>, c: Completion)
    ensures DataPieces(wire + [c])
         == DataPieces(wire) + if c.status.Ok? then [Piece(c.urb.length, c.payload)] else []
  {
    assert (wire + [c])[..|wire|] == wire;
  }

  /** Nothing the reference looks at changes. */
  lemma StreamSame(s: State, s': State)
    requires StreamInv(s) && QueueInv(s') && |s'.writers| == 1 && s'.written == s.written
    requires s'.server.Sending? ==> s'.ep.pend == [] && !s'.writers[0].InHand?
    requires s'.writers[0].InHand? ==> s'.ep.inq == []
    requires DataPieces(s'.wire) + HandPieces(s') == DataPieces(s.wire) + HandPieces(s)
    requires Backlog(s') == Backlog(s)
    ensures StreamInv(s')
  {}

  lemma StreamBegin(s: State, t: Step)
    requires StreamInv(s) && Enabled(s, t) && t.BeginWrite?
    ensures StreamInv(Next(s, t))
  {
    QueueInvStep(s, t);
    var s' := Next(s, t);
    UnsentLaterWrite(s.written, DataPieces(s.wire) + HandPieces(s), t.data);
    assert HandPieces(s') == HandPieces(s);
    assert Backlog(s') == Unread(s.ep.inq) + NonEmpty([t.data]) == Backlog(s) + NonEmpty([t.data]);
  }

  /** A piece sent is the piece that was in hand. */
  lemma PieceSent(wire: seq<Completion>, u: Urb, data: seq<byte>)
    ensures DataPieces(wire + [Completion(u, Ok, data)]) + [] == DataPieces(wire) + [Piece(u.length, data)]
  {
    DataPiecesSnoc(wire, Completion(u, Ok, data));
  }

  lemma StallSent(wire: seq<Completion>, u: Urb)
    ensures DataPieces(wire + [Completion(u, Stall, [])]) == DataPieces(wire)
  {
    DataPiecesSnoc(wire, Completion(u, Stall, []));
  }

  lemma ParkedSent(s: State, w: Writer)
    requires StreamInv(s) && s.writers == [w] && w.InHand?
    ensures StreamInv(s.(writers := [AtLock(w.rem)], wire := s.wire + [Completion(w.urb, Ok, w.chunk)]))
  {
    var s' := s.(writers := [AtLock(w.rem)], wire := s.wire + [Completion(w.urb, Ok, w.chunk)]);
    PieceSent(s.wire, w.urb, w.chunk);
    assert HandPieces(s) == [Piece(w.urb.length, w.chunk)] && HandPieces(s') == [];
    assert Backlog(s') == Backlog(s);
  }

  lemma StreamSend(s: State, t: Step)
    requires StreamInv(s) && Enabled(s, t) && t.SendParked?
    ensures StreamInv(Next(s, t))
  {
    var w := s.writers[0];
    assert s.writers == [w] && s.writers[0 := AtLock(w.rem)] == [AtLock(w.rem)];
    ParkedSent(s, w);
  }

  lemma UnreadSnoc(inq: seq<Dbuf>, rem: seq<byte>)
    requires rem != []
    ensures Unread(inq + [Dbuf(rem, 0)]) == Unread(inq) + NonEmpty([rem])
  {
    NonEmptySingle(rem);
    assert Dbuf(rem, 0).Unread() == rem;
  }

  lemma EndBacklog(s: State, t: Step)
    requires s.ep.Valid() && |s.writers| == 1 && Enabled(s, t) && t.EndWrite?
    ensures |Next(s, t).writers| == 1 && Backlog(Next(s, t)) == Backlog(s)
  {
    var rem := s.writers[0].rem;
    NonEmptySingle(rem);
    if rem != [] {
      UnreadSnoc(s.ep.inq, rem);
    }
  }

  lemma StreamEnd(s: State, t: Step)
    requires StreamInv(s) && Enabled(s, t) && t.EndWrite?
    ensures StreamInv(Next(s, t))
  {
    QueueInvStep(s, t);
    var s' := Next(s, t);
    EndBacklog(s, t);
    assert HandPieces(s') == HandPieces(s);
    StreamSame(s, s');
  }

  lemma StreamPop(s: State, t: Step)
    requires StreamInv(s) && Enabled(s, t) && t.PopForWrite?
    ensures StreamInv(Next(s, t))
  {
    QueueInvStep(s, t);
    var s' := Next(s, t);
    var ps := DataPieces(s.wire);
    assert ps + HandPieces(s) == ps;
    assert HandPieces(s') == [Piece(s.ep.pend[0].length, s'.writers[0].chunk)];
    UnsentSnoc(s.written, ps, HandPieces(s')[0]);
    NonEmptySingle(s.writers[0].rem);
    NonEmptySingle(s'.writers[0].rem);
    assert Backlog(s) == [s.writers[0].rem];
    assert Backlog(s') == AfterCut(Backlog(s), |s'.writers[0].chunk|);
  }

  lemma UnreadCons(d: Dbuf, inq: seq<Dbuf>)
    ensures Unread([d] + inq) == [d.Unread()] + Unread(inq)
  {}

  lemma TakeSliceCuts(ep: Ep, length: nat)
    requires ep.Valid() && ep.inq != []
    ensures Unread(ep.inq) != []
    ensures var (slice, ep') := TakeSlice(ep, length);
      && slice == Unread(ep.inq)[0][..Limit(length, |Unread(ep.inq)[0]|)]
      && Unread(ep'.inq) == AfterCut(Unread(ep.inq), |slice|)
  {
    var d, later := ep.inq[0], ep.inq[1..];
    assert d.Live();
    assert ep.inq == [d] + later;
    UnreadCons(d, later);
    SliceOfUnread(d, Limit(length, |d.data| - d.off), later);
  }

  lemma SliceOfUnread(d: Dbuf, n: nat, later: seq<Dbuf>)
    requires d.Live() && n <= |d.data| - d.off
    ensures d.Unread()[..n] == d.data[d.off..d.off + n]
    ensures n < |d.Unread()| ==> Unread([d.(off := d.off + n)] + later) == [d.Unread()[n..]] + Unread(later)
  {
    if n < |d.data| - d.off {
      UnreadCons(d.(off := d.off + n), later);
    }
  }

  lemma CutFront(a: seq<seq<byte>>, b: seq<seq<byte>>, n: nat)
    requires a != [] && n <= |a[0]|
    ensures AfterCut(a + b, n) == AfterCut(a, n) + b
  {
    assert (a + b)[1..] == a[1..] + b;
  }

  lemma StreamServe(s: State, t: Step)
    requires StreamInv(s) && Enabled(s, t) && t.Serve? && s.ep.inq != []
    ensures StreamInv(Next(s, t))
  {
    QueueInvStep(s, t);
    var s' := Next(s, t);
    var ps := DataPieces(s.wire);
    assert ps + HandPieces(s) == ps;
    assert HandPieces(s') == [Piece(s.server.urb.length, s'.server.slice)];
    UnsentSnoc(s.written, ps, HandPieces(s')[0]);
    TakeSliceCuts(s.ep, s.server.urb.length);
    CutFront(Unread(s.ep.inq), Backlog(s)[|Unread(s.ep.inq)|..], |s'.server.slice|);
    assert Backlog(s) == Unread(s.ep.inq) + Backlog(s)[|Unread(s.ep.inq)|..];
  }

  lemma StreamServerStep(s: State, t: Step)
    requires StreamInv(s) && Enabled(s, t)
    requires t.CheckHalt? || t.Submit? || (t.Serve? && s.ep.inq == [])
    ensures StreamInv(Next(s, t))
  {
    QueueInvStep(s, t);
    var s' := Next(s, t);
    assert Backlog(s') == Backlog(s) && HandPieces(s') == HandPieces(s);
    StreamSame(s, s');
  }

  lemma SliceSent(s: State)
    requires StreamInv(s) && s.server.Sending?
    ensures StreamInv(s.(server := Waiting, wire := s.wire + [Completion(s.server.urb, Ok, s.server.slice)]))
  {
    PieceSent(s.wire, s.server.urb, s.server.slice);
  }

  /** A stall answered, whoever answers it, changes nothing of the stream. */
  lemma StallAnswered(s: State, server: Server, stalling: seq<Urb>, u: Urb)
    requires StreamInv(s) && (server == s.server || (server.Waiting? && s.server.Rejecting?))
    ensures StreamInv(s.(server := server, stalling := stalling, wire := s.wire + [Completion(u, Stall, [])]))
  {
    var s' := s.(server := server, stalling := stalling, wire := s.wire + [Completion(u, Stall, [])]);
    StallSent(s.wire, u);
    assert HandPieces(s') == HandPieces(s) && Backlog(s') == Backlog(s);
  }

  lemma StreamOtherStep(s: State, t: Step)
    requires StreamInv(s) && Enabled(s, t)
    requires t.Stalling? || t.Clearing? || t.Unlinking?
    ensures StreamInv(Next(s, t))
  {
    QueueInvStep(s, t);
    var s' := Next(s, t);
    if t.Unlinking? {
      WithoutNoLonger(s.ep.pend, t.seqnum);
    }
    assert s'.ep.inq == s.ep.inq;
    assert Backlog(s') == Backlog(s) && HandPieces(s') == HandPieces(s);
    StreamSame(s, s');
  }

  lemma StreamReply(s: State, t: Step)
    requires StreamInv(s) && Enabled(s, t) && (t.Reject? || t.SendSlice? || t.SendStall?)
    ensures StreamInv(Next(s, t))
  {
    if t.Reject? {
      StallAnswered(s, Waiting, s.stalling, s.server.urb);
    } else if t.SendSlice? {
      SliceSent(s);
    } else {
      StallAnswered(s, s.server, s.stalling[..t.k] + s.stalling[t.k + 1..], s.stalling[t.k]);
    }
  }

  lemma StreamWriterStep(s: State, t: Step)
    requires StreamInv(s) && Enabled(s, t) && (t.BeginWrite? || t.PopForWrite? || t.SendParked? || t.EndWrite?)
    ensures StreamInv(Next(s, t))
  {
    if t.BeginWrite? {
      StreamBegin(s, t);
    } else if t.PopForWrite? {
      StreamPop(s, t);
    } else if t.SendParked? {
      StreamSend(s, t);
    } else {
      StreamEnd(s, t);
    }
  }

  lemma StreamStep(s: State, t: Step)
    requires StreamInv(s) && Enabled(s, t)
    ensures StreamInv(Next(s, t))
  {
    if t.BeginWrite? || t.PopForWrite? || t.SendParked? || t.EndWrite? {
      StreamWriterStep(s, t);
    } else if t.Reject? || t.SendSlice? || t.SendStall? {
      StreamReply(s, t);
    } else if t.Stalling? || t.Clearing? || t.Unlinking? {
      StreamOtherStep(s, t);
    } else if t.Serve? && s.ep.inq != [] {
      StreamServe(s, t);
    } else {
      StreamServerStep(s, t);
    }
  }

  /** Every state of every run with one writer matches the reference. */
  lemma {:induction false} RunStream(ss: seq<State>, ts: seq<Step>, k: nat)
    requires Run(ss, ts) && k < |ss| && |ss[0].writers| == 1
    ensures StreamInv(ss[k])
  {
    if k == 0 {
      assert Unread(ss[0].ep.inq) == [];
    } else {
      RunStream(ss, ts, k - 1);
      StreamStep(ss[k - 1], ts[k - 1]);
    }
  }

  /** What a host and an application see once both threads are between calls: the payloads
      received, then the bytes still queued, are the bytes written, and every payload is a
      cut of one write. */
  lemma StreamDelivered(ss: seq<State>, ts: seq<Step>, k: nat)
    requires Run(ss, ts) && k < |ss| && |ss[0].writers| == |ss[k].writers| == 1
    requires ss[k].server.Waiting? && ss[k].writers[0].Idle?
    ensures Flatten(Payloads(DataPieces(ss[k].wire))) + Flatten(Unread(ss[k].ep.inq)) == Flatten(ss[k].written)
    ensures AllCuts(ss[k].written, DataPieces(ss[k].wire))
  {
    RunStream(ss, ts, k);
    var s := ss[k];
    assert HandPieces(s) == [];
    assert DataPieces(s.wire) + HandPieces(s) == DataPieces(s.wire);
    assert Backlog(s) == Unread(s.ep.inq);
    UnsentConserves(s.written, DataPieces(s.wire));
    AllPiecesAreCuts(s.written, DataPieces(s.wire));
  }
}
