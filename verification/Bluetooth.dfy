/** ACL reassembly in the Bluetooth class: PDUs may be split over bulk-OUT transfers anywhere. */
module Bluetooth {
  import opened Bytes

  const REASM_MAX := 1024

  /** The whole length of the PDU whose header starts `s`. */
  function PduLength(s: seq<byte>): (n: nat)
    requires |s| >= 4
    ensures n >= 4
  {
    4 + Le16(s[2..4])
  }

  predicate Complete(s: seq<byte>) {
    |s| >= 4 && |s| >= PduLength(s)
  }

  /** The PDUs at the front of a stream, and what is left of it. */
  datatype Cut = Cut(pdus: seq<seq<byte>>, rest: seq<byte>)

  function Parse(s: seq<byte>): Cut
    decreases |s|
  {
    if !Complete(s) then Cut([], s)
    else
      var more := Parse(s[PduLength(s)..]);
      Cut([s[..PduLength(s)]] + more.pdus, more.rest)
  }

  /** bt_on_out: bytes kept so far and the transfer's bytes; on overflow the former are dropped. */
  function OnOut(have: seq<byte>, data: seq<byte>): Cut {
    if data == [] then Cut([], have)
    else Parse((if |have| + |data| > REASM_MAX then [] else have) + data)
  }

  function Feed(have: seq<byte>, chunks: seq<seq<byte>>): Cut
    decreases |chunks|
  {
    if chunks == [] then Cut([], have)
    else
      var now := OnOut(have, chunks[0]);
      var later := Feed(now.rest, chunks[1..]);
      Cut(now.pdus + later.pdus, later.rest)
  }

  lemma OneMore(all: seq<byte>, pdus: seq<seq<byte>>, s: seq<byte>)
    requires Complete(s) && Parse(all) == Cut(pdus + Parse(s).pdus, Parse(s).rest)
    ensures var n := PduLength(s); Parse(all) == Cut(pdus + [s[..n]] + Parse(s[n..]).pdus, Parse(s[n..]).rest)
  {
    Assoc(pdus, [s[..PduLength(s)]], Parse(s[PduLength(s)..]).pdus);
  }

  // ---- the class's own form ----------------------------------------------------------------

  class AclReassembly {
    const rx: array<byte>
    var have: nat

    ghost predicate Valid()
      reads this
    {
      rx.Length == REASM_MAX && have <= REASM_MAX
    }

    constructor ()
      ensures Valid() && fresh(rx) && have == 0
    {
      rx := new byte[REASM_MAX];
      have := 0;
    }

    /** Delivers every PDU in hand; a transfer longer than the buffer is not accepted here. */
    method OnOutTransfer(data: seq<byte>) returns (pdus: seq<seq<byte>>)
      requires Valid() && |data| <= REASM_MAX
      modifies this, rx
      ensures Valid() && Cut(pdus, rx[..have]) == OnOut(old(rx[..have]), data)
    {
      pdus := [];
      if |data| == 0 {
        return;
      }
      if have + |data| > REASM_MAX {
        have := 0;
      }
      ghost var all := rx[..have] + data;
      Copy(data);
      pdus := Drain();
      assert rx[..have] == Parse(all).rest;
    }

    /** memcpy behind what is there. */
    method Copy(data: seq<byte>)
      requires Valid() && have + |data| <= REASM_MAX
      modifies this`have, rx
      ensures Valid() && rx[..have] == old(rx[..have]) + data
    {
      var i: nat, at := 0, have;
      while i < |data|
        invariant i <= |data| && have == at && rx[..at + i] == old(rx[..have]) + data[..i]
      {
        rx[at + i] := data[i];
        i := i + 1;
      }
      have := at + |data|;
    }

    /** The loop over complete PDUs: deliver one, move the rest to the front. */
    method Drain() returns (pdus: seq<seq<byte>>)
      requires Valid()
      modifies this`have, rx
      ensures Valid() && Cut(pdus, rx[..have]) == Parse(old(rx[..have]))
    {
      ghost var all := rx[..have];
      pdus := [];
      while have >= 4
        invariant Valid() && Parse(all) == Cut(pdus + Parse(rx[..have]).pdus, Parse(rx[..have]).rest)
        decreases have
      {
        var total := 4 + Le16(rx[2..4]);
        ghost var was := rx[..have];
        assert was[2..4] == rx[2..4];
        if have < total {
          break;
        }
        OneMore(all, pdus, was);
        var pdu := Deliver(total);
        pdus := pdus + [pdu];
      }
      assert pdus + [] == pdus;
    }

    method Deliver(total: nat) returns (pdu: seq<byte>)
      requires Valid() && total <= have
      modifies this`have, rx
      ensures Valid() && pdu == old(rx[..have])[..total] && rx[..have] == old(rx[..have])[total..]
    {
      pdu := rx[..total];
      assert pdu == rx[..have][..total];
      MoveDown(total);
    }

    /** memmove to the front. */
    method MoveDown(n: nat)
      requires Valid() && n <= have
      modifies this`have, rx
      ensures Valid() && rx[..have] == old(rx[..have])[n..]
    {
      var i: nat, left: nat := 0, have - n;
      while i < left
        invariant i <= left && have == old(have)
        invariant forall j :: 0 <= j < i ==> rx[j] == old(rx[n + j])
        invariant forall j :: i <= j < have ==> rx[j] == old(rx[j])
      {
        rx[i] := rx[n + i];
        i := i + 1;
      }
      have := left;
    }
  }

  // ---- chunking does not matter ------------------------------------------------------------

  /** Every PDU of the stream, also one not complete yet, is at most `m` bytes. */
  ghost predicate Bounded(s: seq<byte>, m: nat)
    decreases |s|
  {
    |s| >= 4 ==> PduLength(s) <= m && (Complete(s) ==> Bounded(s[PduLength(s)..], m))
  }

  lemma SamePdu(a: seq<byte>, b: seq<byte>)
    requires |a| >= 4
    ensures PduLength(a + b) == PduLength(a)
  {
    assert (a + b)[2..4] == a[2..4];
  }

  /** Parsing what is left together with what follows goes on where parsing stopped. */
  lemma {:induction false} ParseAppend(a: seq<byte>, b: seq<byte>)
    ensures Parse(a + b) == Cut(Parse(a).pdus + Parse(Parse(a).rest + b).pdus, Parse(Parse(a).rest + b).rest)
    decreases |a|
  {
    if Complete(a) {
      var n := PduLength(a);
      SamePdu(a, b);
      assert (a + b)[n..] == a[n..] + b && (a + b)[..n] == a[..n];
      ParseAppend(a[n..], b);
      var p := Parse(a[n..]);
      assert [a[..n]] + (p.pdus + Parse(p.rest + b).pdus) == [a[..n]] + p.pdus + Parse(p.rest + b).pdus;
    } else {
      assert [] + Parse(a + b).pdus == Parse(a + b).pdus;
    }
  }

  lemma {:induction false} BoundedPrefix(a: seq<byte>, b: seq<byte>, m: nat)
    requires Bounded(a + b, m)
    ensures Bounded(a, m)
    decreases |a|
  {
    if |a| >= 4 {
      SamePdu(a, b);
      if Complete(a) {
        assert (a + b)[PduLength(a)..] == a[PduLength(a)..] + b;
        BoundedPrefix(a[PduLength(a)..], b, m);
      }
    }
  }

  /** What is left after parsing is shorter than a PDU. */
  lemma {:induction false} RestIsShort(s: seq<byte>, m: nat)
    requires Bounded(s, m) && m >= 4
    ensures |Parse(s).rest| < m && !Complete(Parse(s).rest)
    decreases |s|
  {
    if Complete(s) {
      RestIsShort(s[PduLength(s)..], m);
    }
  }

  lemma {:induction false} BoundedRest(a: seq<byte>, b: seq<byte>, m: nat)
    requires Bounded(a + b, m)
    ensures Bounded(Parse(a).rest + b, m)
    decreases |a|
  {
    if Complete(a) {
      SamePdu(a, b);
      assert (a + b)[PduLength(a)..] == a[PduLength(a)..] + b;
      BoundedRest(a[PduLength(a)..], b, m);
    }
  }

  ghost predicate AtMost(chunks: seq<seq<byte>>, l: nat) {
    forall i :: 0 <= i < |chunks| ==> |chunks[i]| <= l
  }

  lemma {:induction false} FeedIsParse(have: seq<byte>, chunks: seq<seq<byte>>, m: nat, l: nat)
    requires m >= 4 && m + l <= REASM_MAX + 1 && AtMost(chunks, l)
    requires !Complete(have) && Bounded(have + Flatten(chunks), m)
    ensures Feed(have, chunks) == Parse(have + Flatten(chunks))
    decreases |chunks|
  {
    if chunks == [] {
      assert have + [] == have;
    } else {
      var a, b := chunks[0], Flatten(chunks[1..]);
      assert have + (a + b) == (have + a) + b;
      BoundedPrefix(have + a, b, m);
      BoundedPrefix(have, a, m);
      RestIsShort(have, m);
      RestIsShort(have + a, m);
      BoundedRest(have + a, b, m);
      assert a == [] ==> have + a == have;
      assert AtMost(chunks[1..], l);
      FeedIsParse(Parse(have + a).rest, chunks[1..], m, l);
      ParseAppend(have + a, b);
    }
  }

  /** One ACL PDU: a header of four bytes whose last two are the length of the rest, low byte first. */
  ghost predicate Pdu(s: seq<byte>) {
    |s| >= 4 && |s| == 4 + s[2] as nat + 256 * (s[3] as nat)
  }

  /** The start of one, of at most `m` bytes if its header is there. */
  ghost predicate Partial(s: seq<byte>, m: nat) {
    |s| >= 4 ==> |s| < 4 + s[2] as nat + 256 * (s[3] as nat) <= m
  }

  ghost predicate Pdus(pdus: seq<seq<byte>>, m: nat) {
    forall i :: 0 <= i < |pdus| ==> Pdu(pdus[i]) && |pdus[i]| <= m
  }

  lemma LengthBytes(s: seq<byte>)
    requires |s| >= 4
    ensures PduLength(s) == 4 + s[2] as nat + 256 * (s[3] as nat)
  {
    assert s[2..4][0] == s[2] && s[2..4][1] == s[3];
  }

  lemma {:induction false} ParsesPdus(pdus: seq<seq<byte>>, rest: seq<byte>, m: nat)
    requires Pdus(pdus, m) && Partial(rest, m)
    ensures Parse(Flatten(pdus) + rest) == Cut(pdus, rest) && Bounded(Flatten(pdus) + rest, m)
    decreases |pdus|
  {
    if pdus == [] {
      assert Flatten(pdus) + rest == rest;
      if |rest| >= 4 {
        LengthBytes(rest);
      }
    } else {
      var p, more := pdus[0], Flatten(pdus[1..]) + rest;
      var all := Flatten(pdus) + rest;
      assert Pdu(p) && |p| <= m;
      assert all == p + more;
      LengthBytes(p);
      SamePdu(p, more);
      assert all[..|p|] == p && all[|p|..] == more;
      assert Pdus(pdus[1..], m);
      ParsesPdus(pdus[1..], rest, m);
    }
  }

  /** However the host cuts a stream of PDUs into transfers, they are delivered one by one, in
      order and unchanged, and the start of the next one is kept. */
  lemma PdusDelivered(pdus: seq<seq<byte>>, rest: seq<byte>, chunks: seq<seq<byte>>, m: nat, l: nat)
    requires m >= 4 && m + l <= 1025 && AtMost(chunks, l)
    requires Pdus(pdus, m) && Partial(rest, m) && Flatten(chunks) == Flatten(pdus) + rest
    ensures Feed([], chunks) == Cut(pdus, rest)
  {
    ParsesPdus(pdus, rest, m);
    assert [] + Flatten(chunks) == Flatten(chunks);
    FeedIsParse([], chunks, m, l);
  }

  // ---- and when it does --------------------------------------------------------------------

  /** Every stream of PDUs of at most `m` bytes comes out the same however it is cut into
      transfers of at most `l` bytes. */
  ghost predicate ChunkingInvariant(m: nat, l: nat) {
    forall chunks: seq<seq<byte>> :: AtMost(chunks, l) && Bounded(Flatten(chunks), m) ==> Feed([], chunks) == Parse(Flatten(chunks))
  }

  /** A PDU of `m` bytes that starts with 1, and is zeros after its header. */
  function Long(m: nat): (s: seq<byte>)
    requires 4 <= m < 4 + TWO16
    ensures |s| == m && s[0] == 1 && s[2..4] == PutLe16(m - 4)
    ensures s[m - 1] == 0 || m == 4
  {
    [1, 0] + PutLe16(m - 4) + Zeros(m - 4)
  }

  /** Bytes one at a time. */
  function Singles(s: seq<byte>): (ss: seq<seq<byte>>)
    ensures |ss| == |s| && forall i :: 0 <= i < |ss| ==> ss[i] == [s[i]]
  {
    seq(|s|, i requires 0 <= i < |s| => [s[i]])
  }

  lemma {:induction false} FlattenSingles(s: seq<byte>)
    ensures Flatten(Singles(s)) == s
  {
    if s != [] {
      assert Singles(s)[1..] == Singles(s[1..]);
      FlattenSingles(s[1..]);
    }
  }

  /** While no PDU gets complete, what is fed piles up. */
  lemma {:induction false} PilesUp(have: seq<byte>, s: seq<byte>, more: seq<seq<byte>>)
    requires |have| + |s| <= REASM_MAX && forall k :: 0 <= k <= |s| ==> !Complete(have + s[..k])
    ensures Feed(have, Singles(s) + more) == Feed(have + s, more)
    decreases |s|
  {
    if s == [] {
      assert Singles(s) + more == more && have + s == have;
    } else {
      var one := [s[0]];
      assert (Singles(s) + more)[1..] == Singles(s[1..]) + more;
      assert !Complete(have + s[..1]);
      assert s[..1] == one;
      assert OnOut(have, one) == Cut([], have + one);
      forall k | 0 <= k <= |s[1..]| ensures !Complete(have + one + s[1..][..k]) {
        assert have + one + s[1..][..k] == have + s[..k + 1];
      }
      PilesUp(have + one, s[1..], more);
      assert have + one + s[1..] == have + s;
    }
  }

  lemma {:induction false} ZerosBounded(n: nat, m: nat)
    requires m >= 4
    ensures Bounded(Zeros(n), m)
    decreases n
  {
    if n >= 4 {
      assert Zeros(n)[2..4] == PutLe16(0);
      assert Zeros(n)[4..] == Zeros(n - 4);
      ZerosBounded(n - 4, m);
    }
  }

  /** All of a PDU but its last byte, byte by byte, then a transfer that does not fit behind it. */
  function Overflowing(m: nat, l: nat): seq<seq<byte>>
    requires 4 <= m < 4 + TWO16
  {
    Singles(Long(m)[..m - 1]) + [Zeros(l)]
  }

  lemma OverflowingStream(m: nat, l: nat)
    requires 4 <= m < 4 + TWO16 && l >= 1
    ensures Flatten(Overflowing(m, l)) == Long(m) + Zeros(l - 1)
    ensures Bounded(Long(m) + Zeros(l - 1), m)
    ensures var p := Parse(Long(m) + Zeros(l - 1)).pdus; p != [] && p[0] == Long(m)
  {
    var head := Long(m)[..m - 1];
    FlattenAppend(Singles(head), [Zeros(l)]);
    FlattenSingles(head);
    FlattenSingle(Zeros(l));
    var whole := Long(m) + Zeros(l - 1);
    assert Long(m)[m - 1] == 0 by {
      if m == 4 {
        assert Long(m)[3] == Long(m)[2..4][1];
      }
    }
    assert Long(m) == head + [0];
    assert Zeros(l) == [0] + Zeros(l - 1);
    assert head + Zeros(l) == whole;
    assert whole[2..4] == Long(m)[2..4];
    assert PduLength(whole) == m && whole[m..] == Zeros(l - 1) && whole[..m] == Long(m);
    ZerosBounded(l - 1, m);
  }

  lemma CutShort(m: nat, k: nat)
    requires 4 <= m < 4 + TWO16 && k < m
    ensures !Complete(Long(m)[..k])
  {
    if k >= 4 {
      assert Long(m)[..k][2..4] == Long(m)[2..4] == PutLe16(m - 4);
      assert Le16(PutLe16(m - 4)) == m - 4;
    }
  }

  lemma OverflowLoses(m: nat, l: nat)
    requires 4 <= m <= REASM_MAX + 1 && l >= 1 && m + l > REASM_MAX + 1
    ensures Feed([], Overflowing(m, l)) == Parse(Zeros(l))
  {
    var head := Long(m)[..m - 1];
    forall k | 0 <= k <= |head| ensures !Complete([] + head[..k]) {
      assert [] + head[..k] == Long(m)[..k];
      CutShort(m, k);
    }
    PilesUp([], head, [Zeros(l)]);
    assert [] + head == head;
    var now := OnOut(head, Zeros(l));
    assert [] + Zeros(l) == Zeros(l);
    assert [Zeros(l)][1..] == [];
    assert Feed(now.rest, []) == Cut([], now.rest) && now.pdus + [] == now.pdus;
  }

  /** Bluetooth delivers the parse of the concatenated stream, for every stream and every way of
      cutting it, exactly when a PDU and a transfer of the largest sizes leave the buffer room. */
  lemma ChunkingInvariantIff(m: nat, l: nat)
    requires m >= 4 && 1 <= l <= REASM_MAX
    ensures ChunkingInvariant(m, l) <==> m + l <= REASM_MAX + 1
  {
    if m + l <= REASM_MAX + 1 {
      forall chunks: seq<seq<byte>> | AtMost(chunks, l) && Bounded(Flatten(chunks), m)
        ensures Feed([], chunks) == Parse(Flatten(chunks))
      {
        assert [] + Flatten(chunks) == Flatten(chunks);
        FeedIsParse([], chunks, m, l);
      }
    } else {
      var n := if m <= REASM_MAX + 1 then m else REASM_MAX + 1;
      var chunks := Overflowing(n, l);
      OverflowingStream(n, l);
      OverflowLoses(n, l);
      BoundedMore(Flatten(chunks), n, m);
      ZerosStartWithZero(l);
      assert AtMost(chunks, l);
      assert Feed([], chunks) != Parse(Flatten(chunks));
    }
  }

  lemma {:induction false} BoundedMore(s: seq<byte>, n: nat, m: nat)
    requires Bounded(s, n) && n <= m
    ensures Bounded(s, m)
    decreases |s|
  {
    if Complete(s) {
      BoundedMore(s[PduLength(s)..], n, m);
    }
  }

  lemma ZerosStartWithZero(n: nat)
    ensures var p := Parse(Zeros(n)).pdus; p != [] ==> p[0][0] == 0
  {}
}
