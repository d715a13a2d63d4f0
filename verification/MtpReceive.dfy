/** The data phase of an MTP operation: a container collected over any number of bulk-OUT
    transfers. */
module MtpReceive {
  import opened Bytes

  const HDR := 12

  /** rx_buf up to rx_len, and rx_need: the container's length once its header is there. */
  datatype Rx = Rx(buf: seq<byte>, need: Option<nat>)

  datatype Event = Receiving(rx: Rx) | Complete(payload: seq<byte>)

  function Begin(): Rx {
    Rx([], None)
  }

  function Payload(buf: seq<byte>, need: nat): seq<byte>
    requires |buf| >= need
  {
    if need < HDR then [] else buf[HDR..need]
  }

  /** mtp_on_out while a data phase is active. */
  function OnOut(rx: Rx, data: seq<byte>): Event {
    var buf := rx.buf + data;
    var need := if rx.need.None? && |buf| >= HDR then Some(Le32(buf)) else rx.need;
    if need.Some? && |buf| >= need.value then Complete(Payload(buf, need.value)) else Receiving(Rx(buf, need))
  }

  class Receiver {
    var active: bool
    var buf: seq<byte>
    var need: int

    ghost function View(): Rx
      reads this
    {
      Rx(buf, if need < 0 then None else Some(need))
    }

    constructor ()
      ensures !active
    {
      active, buf, need := false, [], -1;
    }

    method BeginRx()
      modifies this
      ensures active && View() == Begin()
    {
      active, buf, need := true, [], -1;
    }

    /** What complete_rx is called with, when it is. */
    method OnOutTransfer(data: seq<byte>) returns (payload: Option<seq<byte>>)
      requires active
      modifies this
      ensures OnOut(old(View()), data) == if payload.Some? then Complete(payload.value) else Receiving(View())
      ensures active == payload.None?
    {
      buf := buf + data;
      if need < 0 && |buf| >= HDR {
        need := Le32(buf);
      }
      payload := None;
      if need >= 0 && |buf| >= need {
        active := false;
        payload := Some(if need < HDR then [] else buf[HDR..need]);
      }
    }
  }

  // ---- any split ---------------------------------------------------------------------

  /** Feeding transfers until the container completes: what it completed with, and how many
      transfers that took. */
  datatype Fed = Pending(rx: Rx) | Done(payload: seq<byte>, used: nat)

  function Feed(rx: Rx, chunks: seq<seq<byte>>): Fed
    decreases |chunks|
  {
    if chunks == [] then Pending(rx)
    else match OnOut(rx, chunks[0])
      case Complete(payload) => Done(payload, 1)
      case Receiving(next) =>
        match Feed(next, chunks[1..])
        case Pending(r) => Pending(r)
        case Done(payload, used) => Done(payload, used + 1)
  }

  /** How many bytes a stream must have before its container is complete. */
  function Needed(s: seq<byte>): nat {
    if |s| < HDR then HDR else if Le32(s) < HDR then HDR else Le32(s)
  }

  /** The receiver's need is what the header says, from the moment the header is there. */
  ghost predicate Honest(rx: Rx) {
    && (rx.need.None? <==> |rx.buf| < HDR)
    && (rx.need.Some? ==> rx.need.value == Le32(rx.buf) && |rx.buf| < rx.need.value)
  }

  lemma SameHeader(a: seq<byte>, b: seq<byte>)
    requires |a| >= HDR
    ensures Le32(a + b) == Le32(a) && Needed(a + b) == Needed(a)
  {
    assert (a + b)[..2] == a[..2] && (a + b)[2..4] == a[2..4];
  }

  lemma OneTransfer(rx: Rx, data: seq<byte>)
    requires Honest(rx)
    ensures var s := rx.buf + data;
      if |s| >= Needed(s) then OnOut(rx, data) == Complete(Payload(s, Le32(s)))
      else OnOut(rx, data).Receiving? && Honest(OnOut(rx, data).rx) && OnOut(rx, data).rx.buf == s
  {
    if |rx.buf| >= HDR {
      SameHeader(rx.buf, data);
    }
  }

  lemma {:induction false} FeedDepends(rx: Rx, chunks: seq<seq<byte>>)
    requires Honest(rx)
    ensures var s := rx.buf + Flatten(chunks);
      if |s| >= Needed(s) && chunks != []
      then Feed(rx, chunks).Done? && |s| >= Le32(s) && Feed(rx, chunks).payload == Payload(s, Le32(s))
           && 1 <= Feed(rx, chunks).used <= |chunks|
      else Feed(rx, chunks).Pending? && Feed(rx, chunks).rx.buf == s
    decreases |chunks|
  {
    if chunks == [] {
      assert rx.buf + [] == rx.buf;
    } else {
      var a, rest := rx.buf + chunks[0], Flatten(chunks[1..]);
      assert rx.buf + (chunks[0] + rest) == a + rest;
      OneTransfer(rx, chunks[0]);
      if |a| >= HDR {
        SameHeader(a, rest);
      }
      if OnOut(rx, chunks[0]).Receiving? {
        FeedDepends(OnOut(rx, chunks[0]).rx, chunks[1..]);
        if chunks[1..] == [] {
          assert a + rest == a;
        }
      } else {
        PayloadPrefix(a, rest, Le32(a));
      }
    }
  }

  lemma PayloadPrefix(a: seq<byte>, b: seq<byte>, n: nat)
    requires n <= |a|
    ensures Payload(a + b, n) == Payload(a, n)
  {
    if n >= HDR {
      assert (a + b)[HDR..n] == a[HDR..n];
    }
  }

  /** The length a container announces: its first four bytes, low byte first. */
  function Announced(s: seq<byte>): (n: nat)
    requires |s| >= 4
  {
    s[0] as nat + s[1] as nat * 0x100 + s[2] as nat * 0x1_0000 + s[3] as nat * 0x100_0000
  }

  /** Whatever bytes arrive: the phase completes once twelve bytes and the length announced are
      there, with what lies between the two, which is nothing for a length below twelve. */
  lemma CompletesIff(chunks: seq<seq<byte>>)
    requires chunks != []
    ensures var s, fed := Flatten(chunks), Feed(Begin(), chunks);
      && (fed.Done? <==> |s| >= 12 && |s| >= Announced(s))
      && (fed.Done? ==> fed.payload == if Announced(s) < 12 then [] else s[12..Announced(s)])
      && (fed.Pending? ==> fed.rx.buf == s)
  {
    var s := Flatten(chunks);
    assert [] + s == s;
    FeedDepends(Begin(), chunks);
    if |s| >= 4 {
      WordValues(s);
    }
  }

  /** A well-formed container, cut into transfers anywhere with none of them empty, completes
      once, with its last transfer, and with its payload. */
  lemma SplitDoesNotMatter(container: seq<byte>, chunks: seq<seq<byte>>)
    requires |container| >= 12 && Announced(container) == |container| && Flatten(chunks) == container
    requires forall i :: 0 <= i < |chunks| ==> chunks[i] != []
    ensures Feed(Begin(), chunks) == Done(container[12..], |chunks|)
  {
    WordValues(container);
    WholeCompletes(container, chunks);
    FlattenLast(chunks);
    StillPending(container, chunks[..|chunks| - 1], chunks[|chunks| - 1]);
    UsesAll(Begin(), chunks);
  }

  lemma FlattenLast(chunks: seq<seq<byte>>)
    requires chunks != []
    ensures Flatten(chunks) == Flatten(chunks[..|chunks| - 1]) + chunks[|chunks| - 1]
  {
    FlattenSnoc(chunks[..|chunks| - 1], chunks[|chunks| - 1]);
    assert chunks == chunks[..|chunks| - 1] + [chunks[|chunks| - 1]];
  }

  lemma WholeCompletes(container: seq<byte>, chunks: seq<seq<byte>>)
    requires |container| >= HDR && Le32(container) == |container| && Flatten(chunks) == container
    ensures chunks != [] && Feed(Begin(), chunks).Done? && Feed(Begin(), chunks).payload == container[HDR..]
  {
    assert [] + container == container;
    FeedDepends(Begin(), chunks);
    assert container[HDR..|container|] == container[HDR..];
  }

  /** Short of its last transfer the container is not complete. */
  lemma StillPending(container: seq<byte>, front: seq<seq<byte>>, last: seq<byte>)
    requires |container| >= HDR && Le32(container) == |container| && container == Flatten(front) + last && last != []
    ensures Feed(Begin(), front).Pending?
  {
    var s := Flatten(front);
    assert [] + s == s;
    if |s| >= HDR {
      SameHeader(s, last);
    }
    FeedDepends(Begin(), front);
  }

  lemma {:induction false} UsesAll(rx: Rx, chunks: seq<seq<byte>>)
    requires chunks != [] && Feed(rx, chunks[..|chunks| - 1]).Pending? && Feed(rx, chunks).Done?
    ensures Feed(rx, chunks).used == |chunks|
    decreases |chunks|
  {
    if |chunks| > 1 {
      assert chunks[..|chunks| - 1][1..] == chunks[1..][..|chunks[1..]| - 1];
      UsesAll(OnOut(rx, chunks[0]).rx, chunks[1..]);
    }
  }
}
