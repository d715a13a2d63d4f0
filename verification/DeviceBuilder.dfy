/** usbip_device_add_descriptor and its companions in the form the source has: a fixed buffer
    written and patched in place, and tables beside it. Each method is the Builder function. */
module DeviceBuilder {
  import opened Bytes
  import opened Allocation
  import opened ConfigParser
  import opened Builder

  /** Each record's count byte is inside the buffer. */
  predicate CountsInside(ifalts: seq<IfAlt>) {
    forall i :: 0 <= i < |ifalts| ==> ifalts[i].off + 5 <= MAX_BLOB
  }

  /** What the builder will patch of an accepted descriptor is inside the buffer, which only one
      cut short at its very end is not. */
  predicate PatchesInside(b: Build, d: Descriptor)
    requires WellFormed(d)
  {
    |b.blob| + LengthOf(d) <= MAX_BLOB ==>
      && (d[1] == DT_INTERFACE ==> |b.blob| + 5 <= MAX_BLOB)
      && (d[1] == DT_ENDPOINT ==> |b.blob| + 3 <= MAX_BLOB)
  }

  lemma StandardInside(b: Build, d: Descriptor)
    requires Standard(d)
    ensures PatchesInside(b, d)
  {}

  class DeviceBuilder {
    const descr: array<byte>
    var descrLen: nat
    var ifalts: seq<IfAlt>
    var eps: seq<EpRec>
    var epMap: seq<Holder>
    var epReserved: seq<byte>
    var curIfnum: int
    var curAlt: byte
    var present: seq<bool>
    var nIfnums: nat
    var groups: seq<GroupRec>
    var routes: Routes
    var mark: Mark

    ghost function View(): Build
      reads this, descr
    {
      Build(if descrLen <= descr.Length then descr[..descrLen] else [], ifalts, Pipes(eps, epMap, epReserved),
            curIfnum, curAlt, present, nIfnums, groups, routes, mark)
    }

    ghost predicate Valid()
      reads this, descr
    {
      descr.Length == MAX_BLOB && descrLen <= MAX_BLOB && View().Shape() && CountsInside(ifalts)
    }

    constructor ()
      ensures Valid() && fresh(descr) && View() == NewBuild()
    {
      descr := new byte[MAX_BLOB];
      descrLen, ifalts, eps, curIfnum, curAlt, nIfnums, groups := 0, [], [], -1, 0, 0, [];
      epMap, epReserved, present := seq(32, _ => Nobody), seq(32, _ => 0), seq(IFS, _ => false);
      routes := NoRoutes();
      mark := Mark(0, 0, 0, 0, -1, 0, seq(IFS, _ => false), seq(32, _ => 0), NoRoutes());
    }

    /** ifalt_for. */
    method IfAltFor(ifnum: byte, alt: byte) returns (k: int)
      ensures k == FindAlt(ifalts, ifnum, alt)
    {
      var i := 0;
      while i < |ifalts|
        invariant 0 <= i <= |ifalts|
        invariant forall j :: 0 <= j < i ==> !(ifalts[j].ifnum == ifnum && ifalts[j].alt == alt)
      {
        if ifalts[i].ifnum == ifnum && ifalts[i].alt == alt {
          return i;
        }
        i := i + 1;
      }
      k := -1;
    }

    method AllocNumber(owner: byte, want: Number, dirIn: bool) returns (r: int)
      requires |epMap| == |epReserved| == 32
      ensures r == Alloc(Pipes(eps, epMap, epReserved), owner, want, dirIn)
    {
      ghost var p := Pipes(eps, epMap, epReserved);
      if want != 0 {
        var held, res := epMap[Slot(want, dirIn)], epReserved[Slot(want, dirIn)];
        if (held.Nobody? || held.ifnum == owner) && (res == 0 || res == (owner + 1) % 256) {
          return want;
        }
      }
      assert !Grantable(p, owner, want, dirIn);
      r := LowestVacant(owner, dirIn);
    }

    /** The relocation loop. */
    method LowestVacant(owner: byte, dirIn: bool) returns (r: int)
      requires |epMap| == |epReserved| == 32
      ensures r == Lowest(Pipes(eps, epMap, epReserved), owner, dirIn, 1)
    {
      ghost var p := Pipes(eps, epMap, epReserved);
      var n: nat := 1;
      while n < 16
        invariant 1 <= n <= 16 && Lowest(p, owner, dirIn, 1) == Lowest(p, owner, dirIn, n)
      {
        var res := epReserved[Slot(n, dirIn)];
        if epMap[Slot(n, dirIn)].Nobody? && (res == 0 || res == (owner + 1) % 256) {
          return n;
        }
        n := n + 1;
      }
      r := -1;
    }

    /** register_ifnum. */
    method RegisterIfnum(ifnum: byte)
      requires Valid()
      modifies this`present, this`nIfnums, this`groups
      ensures View() == Registered(old(View()), ifnum)
    {
      if ifnum + 1 > nIfnums {
        nIfnums := ifnum + 1;
      }
      if ifnum >= IFS || present[ifnum] {
        return;
      }
      present := present[ifnum := true];
      if |groups| > 0 {
        var last := |groups| - 1;
        var g := groups[last];
        if g.count == 0 {
          g := g.(first := ifnum);
        }
        groups := groups[last := g.(count := g.count + 1)];
      }
    }

    /** Copies a descriptor to the end of the blob and fills in its length. */
    method Put(d: Descriptor)
      requires Valid() && WellFormed(d) && descrLen + LengthOf(d) <= MAX_BLOB
      modifies descr, this`descrLen
      ensures Valid() && descrLen == old(descrLen) + LengthOf(d)
      ensures View() == old(View()).(blob := old(View()).blob + Normal(d))
    {
      var at, len: nat := descrLen, LengthOf(d);
      CopyIn(d[..len], at);
      descr[at] := len;
      descrLen := at + len;
      assert descr[..descrLen] == old(descr[..descrLen]) + Normal(d);
    }

    /** memcpy */
    method CopyIn(bytes: seq<byte>, at: nat)
      requires at + |bytes| <= descr.Length
      modifies descr
      ensures descr[..at + |bytes|] == old(descr[..at]) + bytes
    {
      var i: nat := 0;
      while i < |bytes|
        invariant i <= |bytes| && descr[..at + i] == old(descr[..at]) + bytes[..i]
      {
        descr[at + i] := bytes[i];
        i := i + 1;
      }
    }

    method OpenInterface(ifnum: byte, alt: byte, off: nat)
      requires Valid() && off + 2 <= descrLen && off + 5 <= MAX_BLOB
      modifies this`present, this`nIfnums, this`groups, this`curIfnum, this`curAlt, this`ifalts
      ensures Valid()
      ensures View() == Registered(old(View()), ifnum).(cur := ifnum, curAlt := alt, ifalts := Recorded(old(ifalts), ifnum, alt, off))
    {
      OpenedShape(View(), ifnum, alt, off);
      RegisterIfnum(ifnum);
      curIfnum, curAlt := ifnum, alt;
      RecordAlt(ifnum, alt, off);
    }

    method RecordAlt(ifnum: byte, alt: byte, off: nat)
      modifies this`ifalts
      ensures ifalts == Recorded(old(ifalts), ifnum, alt, off)
    {
      var k := IfAltFor(ifnum, alt);
      if k >= 0 {
        ifalts := ifalts[k := IfAlt(ifnum, alt, off)];
      } else if |ifalts| < MAX_IFALTS {
        ifalts := ifalts + [IfAlt(ifnum, alt, off)];
      }
    }

    /** The auto-count of bNumEndpoints. */
    method CountEndpoint()
      requires Valid()
      modifies descr
      ensures descr[..descrLen] == Counted(old(descr[..descrLen]), CountAt(ifalts, curIfnum, curAlt))
    {
      if curIfnum >= 0 {
        var k := IfAltFor(curIfnum, curAlt);
        if k >= 0 {
          descr[ifalts[k].off + 4] := (descr[ifalts[k].off + 4] as nat + 1) % 256;
        }
      }
    }

    method MapEndpoint(ep: EpRec)
      requires |epMap| == |epReserved| == 32 && ep.number < 16
      modifies this`epMap, this`eps, this`epReserved
      ensures Pipes(eps, epMap, epReserved) == Add(old(Pipes(eps, epMap, epReserved)), ep)
    {
      var s := Slot(ep.number, ep.dirIn);
      epMap := epMap[s := Held(|eps|, ep.ifnum)];
      eps := eps + [ep];
      epReserved := epReserved[s := 0];
    }

    /** The endpoint branch, once a number is found for the descriptor put at `off`. */
    method TakeNumber(ghost b: Build, d: Descriptor, off: nat, owner: byte, number: nat)
      requires Valid() && WellFormed(d) && d[1] == DT_ENDPOINT && off + LengthOf(d) == descrLen
      requires b.Shape() && View() == b.(blob := b.blob + Normal(d)) && off == |b.blob|
      requires off + 3 <= MAX_BLOB && owner == b.Owner() && number < 16 && number == Alloc(b.pipes, owner, WantOf(d), DirInOf(d)) && |b.pipes.eps| < MAX_EPS
      modifies this`epMap, this`eps, this`epReserved, descr
      ensures descrLen <= MAX_BLOB && View() == AppendEndpoint(b, d).b
    {
      descr[off + 2] := Address(number, d[2] >= 0x80);
      assert descr[..descrLen] == b.blob + Addressed(Normal(d), Address(number, DirInOf(d)));
      CountEndpoint();
      MapEndpoint(EpRec(number, d[2] >= 0x80, owner, d[3] % 4, Le16(d[4..6]), d[6]));
    }

    /** The endpoint branch, after the descriptor was put at `off`. */
    method OpenEndpoint(ghost b: Build, d: Descriptor, off: nat) returns (ok: bool)
      requires Valid() && WellFormed(d) && d[1] == DT_ENDPOINT && off + LengthOf(d) == descrLen
      requires b.Shape() && View() == b.(blob := b.blob + Normal(d)) && off == |b.blob| && off + 3 <= MAX_BLOB
      modifies this, descr
      ensures descrLen <= MAX_BLOB && ok == AppendEndpoint(b, d).Accepted?
      ensures View() == if ok then AppendEndpoint(b, d).b else b
    {
      assert descr[..off] == b.blob;
      if |eps| >= MAX_EPS {
        descrLen := off;
        return false;
      }
      var owner: byte := if curIfnum >= 0 then curIfnum else NO_IFNUM;
      var number := AllocNumber(owner, d[2] % 16, d[2] >= 0x80);
      if number < 0 {
        descrLen := off;
        return false;
      }
      TakeNumber(b, d, off, owner, number);
      ok := true;
    }

    method AddDescriptor(d: Descriptor) returns (ok: bool)
      requires Valid() && WellFormed(d) && PatchesInside(View(), d)
      modifies this, descr
      ensures Valid() && ok == Append(old(View()), d).Accepted?
      ensures View() == if ok then Append(old(View()), d).b else old(View())
    {
      ghost var b := View();
      if descrLen + LengthOf(d) > MAX_BLOB {
        return false;
      }
      var off := descrLen;
      Put(d);
      ok := true;
      if d[1] == DT_INTERFACE {
        OpenInterface(d[2], d[3], off);
      } else if d[1] == DT_ENDPOINT {
        ok := OpenEndpoint(b, d, off);
      }
    }

    method ReserveEndpoint(want: byte) returns (addr: byte)
      requires Valid()
      modifies this`epReserved
      ensures Valid() && (View(), addr) == Reserve(old(View()), want)
    {
      if curIfnum < 0 {
        return 0;
      }
      var number := AllocNumber(curIfnum, want % 16, want >= 0x80);
      if number < 0 {
        return 0;
      }
      epReserved := epReserved[Slot(number, want >= 0x80) := (curIfnum + 1) % 256];
      addr := Address(number, want >= 0x80);
    }

    method BeginGroup() returns (gid: int)
      requires Valid()
      modifies this`mark, this`groups
      ensures Valid() && View() == GroupBegin(old(View()))
      ensures gid == if |old(groups)| < MAX_GROUPS then |old(groups)| else -1
    {
      if |groups| >= MAX_GROUPS {
        return -1;
      }
      mark := Mark(descrLen, |ifalts|, |eps|, nIfnums, curIfnum, curAlt, present, epReserved, routes);
      gid := |groups|;
      groups := groups + [GroupRec(0, 0, descrLen)];
    }

    /** The loop of group_abort: the group's endpoints leave the map. */
    method ReleaseEndpoints()
      requires Valid() && Tabled(View().pipes)
      modifies this`epMap
      ensures epMap == Released(old(View()).pipes, mark.nEps)
    {
      ghost var p := View().pipes;
      var i := mark.nEps;
      while i < |eps|
        invariant mark.nEps <= i <= |eps| && |epMap| == 32
        invariant forall s :: 0 <= s < 32 ==> epMap[s] == if p.holder[s].Held? && mark.nEps <= p.holder[s].ep < i then Nobody else p.holder[s]
      {
        var s := Slot(eps[i].number, eps[i].dirIn);
        ghost var was := epMap;
        if epMap[s].Held? && epMap[s].ep == i {
          epMap := epMap[s := Nobody];
        }
        forall t | 0 <= t < 32 && p.holder[t].Held? && p.holder[t].ep == i ensures t == s {
          assert HolderIsEp(p, t);
        }
        i := i + 1;
      }
      forall s | 0 <= s < 32 && p.holder[s].Held? ensures p.holder[s].ep < |eps| {
        assert HolderIsEp(p, s);
      }
    }

    method AbortGroup()
      requires Valid() && Tabled(View().pipes)
      modifies this
      ensures Valid() && View() == GroupAbort(old(View()))
    {
      ghost var after := GroupAbort(View());
      if |groups| > 0 {
        RollBack();
      }
      assert after.Shape();
    }

    /** The assignments of group_abort. */
    method Restore()
      requires |groups| > 0 && mark.nEps <= |eps| && mark.nIfalts <= |ifalts|
      modifies this
      ensures descrLen == old(mark).blobLen && epMap == old(epMap) && mark == old(mark)
      ensures groups == old(groups[..|groups| - 1]) && eps == old(eps[..mark.nEps]) && ifalts == old(ifalts[..mark.nIfalts])
      ensures nIfnums == mark.nIfnums && curIfnum == mark.cur && curAlt == mark.curAlt
      ensures present == mark.present && epReserved == mark.reserved && routes == mark.routes
    {
      groups := groups[..|groups| - 1];
      eps := eps[..mark.nEps];
      descrLen := mark.blobLen;
      ifalts := ifalts[..mark.nIfalts];
      nIfnums, curIfnum, curAlt := mark.nIfnums, mark.cur, mark.curAlt;
      present, epReserved, routes := mark.present, mark.reserved, mark.routes;
    }

    method RollBack()
      requires Valid() && Tabled(View().pipes) && |groups| > 0
      modifies this
      ensures descrLen <= MAX_BLOB && View() == GroupAbort(old(View()))
    {
      ghost var b := View();
      ReleaseEndpoints();
      Restore();
      assert descr[..descrLen] == b.blob[..b.mark.blobLen];
    }
  }

  lemma OpenedShape(b: Build, ifnum: byte, alt: byte, off: nat)
    requires b.Shape() && off + 2 <= MAX_BLOB
    ensures Registered(b, ifnum).(cur := ifnum, curAlt := alt, ifalts := Recorded(b.ifalts, ifnum, alt, off)).Shape()
  {}
}
