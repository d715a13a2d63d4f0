/** One endpoint of the device: the queue of unsent IN data, the list of parked IN URBs,
    and the halt flag. Each function below is one lock section of usbip_device.c. */
module Endpoint {
  import opened Bytes

  /** An IN URB: what a `struct pending` keeps of it. Length 0 means "no limit". */
  datatype Urb = Urb(seqnum: nat, length: nat)

  /** A queued write and how much of it earlier IN URBs have taken. */
  datatype Dbuf = Dbuf(data: seq<byte>, off: nat) {
    ghost predicate Live() { off < |data| }

    function Unread(): seq<byte> {
      if off <= |data| then data[off..] else []
    }
  }

  datatype Status = Ok | Stall

  /** A RET_SUBMIT for an IN URB. */
  datatype Completion = Completion(urb: Urb, status: Status, payload: seq<byte>)

  /** `tailNull` is `pend_tail == NULL`; a tail that is not NULL names the last node. */
  datatype Ep = Ep(inq: seq<Dbuf>, pend: seq<Urb>, tailNull: bool, halted: bool) {
    ghost predicate Valid() {
      && (forall i :: 0 <= i < |inq| ==> inq[i].Live())
      && (pend == [] ==> tailNull)
    }

    /** What every lock release guarantees: nobody waits for data that is there. */
    ghost predicate NeverBoth() {
      inq == [] || pend == []
    }
  }

  const FRESH := Ep([], [], true, false)

  /** How many of `avail` bytes a URB asking for `length` takes. */
  function Limit(length: nat, avail: nat): (n: nat)
    ensures n <= avail
    ensures length > 0 ==> n <= length
    ensures n < avail ==> n == length
  {
    if length != 0 && avail > length then length else avail
  }

  function PopParked(ep: Ep): Ep
    requires ep.pend != []
  {
    ep.(pend := ep.pend[1..], tailNull := ep.tailNull || |ep.pend| == 1)
  }

  function Enqueue(ep: Ep, data: seq<byte>): Ep {
    ep.(inq := ep.inq + [Dbuf(data, 0)])
  }

  /** The bytes the next IN URB gets, and the endpoint without them. */
  function TakeSlice(ep: Ep, length: nat): (r: (seq<byte>, Ep))
    requires ep.Valid() && ep.inq != []
    ensures r.1.Valid() && r.1.pend == ep.pend && r.1.halted == ep.halted
  {
    var d := ep.inq[0];
    var n := Limit(length, |d.data| - d.off);
    var rest := if d.off + n >= |d.data| then ep.inq[1..] else [d.(off := d.off + n)] + ep.inq[1..];
    (d.data[d.off..d.off + n], ep.(inq := rest))
  }

  /** Parking with a NULL tail makes the new node the head: the old nodes are dropped. */
  function Park(ep: Ep, u: Urb): Ep {
    ep.(pend := if ep.tailNull then [u] else ep.pend + [u], tailNull := false)
  }

  /** The parked URBs `Park` drops. */
  function DroppedByPark(ep: Ep): seq<Urb> {
    if ep.tailNull then ep.pend else []
  }

  function StallTake(ep: Ep): Ep {
    ep.(pend := [], tailNull := true, halted := true)
  }

  function ClearHalt(ep: Ep): Ep {
    ep.(halted := false)
  }

  function Without(pend: seq<Urb>, seqnum: nat): seq<Urb> {
    if pend == [] then []
    else (if pend[0].seqnum == seqnum then [] else [pend[0]]) + Without(pend[1..], seqnum)
  }

  function Named(pend: seq<Urb>, seqnum: nat): seq<Urb> {
    if pend == [] then []
    else (if pend[0].seqnum == seqnum then [pend[0]] else []) + Named(pend[1..], seqnum)
  }

  /** Removing the node the tail names leaves the tail NULL, even if other nodes remain. */
  function Unlink(ep: Ep, seqnum: nat): Ep {
    ep.(pend := Without(ep.pend, seqnum),
        tailNull := ep.tailNull || ep.pend == [] || ep.pend[|ep.pend| - 1].seqnum == seqnum)
  }
}
