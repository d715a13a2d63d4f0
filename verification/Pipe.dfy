/** One endpoint together with the socket its completions leave by, when nothing else runs:
    the whole calls of usbip_device.c, built from the lock sections in Endpoint. */
module Pipe {
  import opened Bytes
  import opened Endpoint

  datatype Port = Port(ep: Ep, wire: seq<Completion>)

  /** usbip_device_write: feed the parked URBs in turn, queue what is left. */
  function Write(p: Port, data: seq<byte>): Port
    decreases |p.ep.pend|
  {
    if data == [] then p
    else if p.ep.pend == [] then p.(ep := Enqueue(p.ep, data))
    else
      var u := p.ep.pend[0];
      var n := Limit(u.length, |data|);
      Write(Port(PopParked(p.ep), p.wire + [Completion(u, Ok, data[..n])]), data[n..])
  }

  /** usbip_device_dispatch for an IN URB. */
  function Dispatch(p: Port, u: Urb): Port
    requires p.ep.Valid()
  {
    if p.ep.halted then p.(wire := p.wire + [Completion(u, Stall, [])])
    else if p.ep.inq == [] then p.(ep := Park(p.ep, u))
    else
      var (slice, ep) := TakeSlice(p.ep, u.length);
      Port(ep, p.wire + [Completion(u, Ok, slice)])
  }

  function Stalled(us: seq<Urb>): seq<Completion> {
    if us == [] then [] else [Completion(us[0], Endpoint.Stall, [])] + Stalled(us[1..])
  }

  /** usbip_ep_stall: halt, then fail every parked URB. */
  function Halt(p: Port): Port {
    Port(StallTake(p.ep), p.wire + Stalled(p.ep.pend))
  }

  function Unhalt(p: Port): Port {
    p.(ep := ClearHalt(p.ep))
  }

  class Pipe {
    var inq: seq<Dbuf>
    var pend: seq<Urb>
    var pendTailNull: bool
    var halted: bool
    var sent: seq<Completion>

    ghost function View(): Port
      reads this
    {
      Port(Ep(inq, pend, pendTailNull, halted), sent)
    }

    constructor ()
      ensures View() == Port(FRESH, [])
    {
      inq, pend, pendTailNull, halted, sent := [], [], true, false, [];
    }

    method SendRet(u: Urb, status: Status, payload: seq<byte>)
      modifies this`sent
      ensures sent == old(sent) + [Completion(u, status, payload)]
    {
      sent := sent + [Completion(u, status, payload)];
    }

    method WriteData(data: seq<byte>)
      modifies this
      ensures View() == Write(old(View()), data)
    {
      var src := data;
      while src != [] && pend != []
        invariant Write(View(), src) == Write(old(View()), data)
        decreases |pend|
      {
        var u := pend[0];
        pend := pend[1..];
        if pend == [] {
          pendTailNull := true;
        }
        var chunk := |src|;
        if u.length != 0 && chunk > u.length {
          chunk := u.length;
        }
        SendRet(u, Ok, src[..chunk]);
        src := src[chunk..];
      }
      if src != [] {
        inq := inq + [Dbuf(src, 0)];
      }
    }

    method DispatchIn(u: Urb)
      requires View().ep.Valid()
      modifies this
      ensures View() == Dispatch(old(View()), u)
    {
      if halted {
        SendRet(u, Endpoint.Stall, []);
      } else if inq != [] {
        var d := inq[0];
        assert d.Live();
        var chunk := |d.data| - d.off;
        if u.length != 0 && chunk > u.length {
          chunk := u.length;
        }
        var slice := d.data[d.off..d.off + chunk];
        if d.off + chunk >= |d.data| {
          inq := inq[1..];
        } else {
          inq := [d.(off := d.off + chunk)] + inq[1..];
        }
        SendRet(u, Ok, slice);
      } else {
        pend := if pendTailNull then [u] else pend + [u];
        pendTailNull := false;
      }
    }

    method StallEndpoint()
      modifies this
      ensures View() == Halt(old(View()))
    {
      halted := true;
      var drained := pend;
      pend, pendTailNull := [], true;
      while drained != []
        invariant View().ep == StallTake(old(View().ep))
        invariant sent + Stalled(drained) == old(View()).wire + Stalled(old(View()).ep.pend)
      {
        SendRet(drained[0], Endpoint.Stall, []);
        drained := drained[1..];
      }
    }

    method ClearHaltFeature()
      modifies this
      ensures View() == Unhalt(old(View()))
    {
      halted := false;
    }
  }
}
