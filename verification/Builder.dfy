/** The descriptor builder: one blob of configuration bytes, the records that let it patch
    what it appended, and the group mark a failed build rolls back to. */
module Builder {
  import opened Bytes
  import opened Allocation
  import opened ConfigParser

  const DT_DEVICE: byte := 1
  const MAX_BLOB := 2048
  const MAX_IFALTS := 64
  const MAX_GROUPS := 8
  const IFS := 16

  datatype IfAlt = IfAlt(ifnum: byte, alt: byte, off: nat)

  datatype GroupRec = GroupRec(first: byte, count: nat, off: nat)

  /** Handlers by interface number, as opaque identities. */
  datatype Routes = Routes(ctrl: seq<int>, ctrlDefault: int, setAlt: seq<int>)

  /** What group_begin remembers. */
  datatype Mark = Mark(blobLen: nat, nIfalts: nat, nEps: nat, nIfnums: nat, cur: int, curAlt: byte,
                       present: seq<bool>, reserved: seq<byte>, routes: Routes)

  datatype Build = Build(blob: seq<byte>, ifalts: seq<IfAlt>, pipes: Pipes, cur: int, curAlt: byte,
                         present: seq<bool>, nIfnums: nat, groups: seq<GroupRec>, routes: Routes, mark: Mark) {
    ghost predicate Shape() {
      && pipes.Shape() && -1 <= cur < 256 && |present| == IFS && |routes.ctrl| == |routes.setAlt| == IFS
      && |blob| <= MAX_BLOB && |ifalts| <= MAX_IFALTS && |pipes.eps| <= MAX_EPS
      && (forall i :: 0 <= i < |ifalts| ==> ifalts[i].off + 2 <= MAX_BLOB)
      && mark.blobLen <= |blob| && mark.nIfalts <= |ifalts| && mark.nEps <= |pipes.eps|
      && -1 <= mark.cur < 256 && |mark.present| == IFS && |mark.reserved| == 32
      && |mark.routes.ctrl| == |mark.routes.setAlt| == IFS
    }

    /** The interface an endpoint appended now belongs to. */
    function Owner(): byte
      requires -1 <= cur < 256
    {
      if cur >= 0 then cur else NO_IFNUM
    }
  }

  function NoRoutes(): Routes {
    Routes(seq(IFS, _ => 0), 0, seq(IFS, _ => 0))
  }

  function NewBuild(): (b: Build)
    ensures b.Shape()
  {
    Build([], [], Allocation.Empty(), -1, 0, seq(IFS, _ => false), 0, [], NoRoutes(),
          Mark(0, 0, 0, 0, -1, 0, seq(IFS, _ => false), seq(32, _ => 0), NoRoutes()))
  }

  // ---- descriptors as given ----------------------------------------------------------

  /** bLength, or the usual length of a known type when it was left 0. */
  function LengthOf(d: Descriptor): byte
    requires |d| >= 2
  {
    if d[0] != 0 then d[0]
    else if d[1] == DT_DEVICE then 18
    else if d[1] == DT_CONFIG || d[1] == DT_INTERFACE then 9
    else if d[1] == DT_ENDPOINT then 7
    else 0
  }

  /** A descriptor the caller may pass: all the bytes of its length are there, and those the
      builder reads besides. Its bLength may say less than the standard layout has. */
  predicate WellFormed(d: Descriptor) {
    && |d| >= 2 && 2 <= LengthOf(d) <= |d|
    && (d[1] == DT_INTERFACE ==> |d| >= 4)
    && (d[1] == DT_ENDPOINT ==> |d| >= 7)
  }

  /** An interface or endpoint descriptor is no shorter than its standard fields. */
  predicate Standard(d: Descriptor) {
    && WellFormed(d)
    && (d[1] == DT_INTERFACE ==> LengthOf(d) >= 9)
    && (d[1] == DT_ENDPOINT ==> LengthOf(d) >= 7)
  }

  /** The bytes as they are appended: cut to length, bLength filled in. */
  function Normal(d: Descriptor): (p: Descriptor)
    requires WellFormed(d)
    ensures |p| == LengthOf(d) && Measured(p) && p[1] == d[1]
  {
    d[..LengthOf(d)][0 := LengthOf(d)]
  }

  /** The address filled in; one too short to have it is as it was, what is written behind it
      being overwritten by the next append. */
  function Addressed(p: Descriptor, address: byte): (x: Descriptor)
    ensures |x| == |p|
  {
    if |p| > 2 then p[2 := address] else p
  }

  function WantOf(d: Descriptor): Number
    requires WellFormed(d) && d[1] == DT_ENDPOINT
  {
    d[2] % 16
  }

  function DirInOf(d: Descriptor): bool
    requires WellFormed(d) && d[1] == DT_ENDPOINT
  {
    d[2] >= 0x80
  }

  function Address(n: Number, dirIn: bool): byte {
    if dirIn then n + 0x80 else n
  }

  function RecOf(d: Descriptor, n: nat, owner: byte): EpRec
    requires WellFormed(d) && d[1] == DT_ENDPOINT
  {
    EpRec(n, DirInOf(d), owner, d[3] % 4, Le16(d[4..6]), d[6])
  }

  // ---- usbip_device_add_descriptor -----------------------------------------------------

  function FindAlt(ifalts: seq<IfAlt>, ifnum: byte, alt: byte): (k: int)
    ensures k == -1 <==> forall i :: 0 <= i < |ifalts| ==> !(ifalts[i].ifnum == ifnum && ifalts[i].alt == alt)
    ensures k != -1 ==> 0 <= k < |ifalts| && ifalts[k].ifnum == ifnum && ifalts[k].alt == alt
    ensures forall i :: 0 <= i < k ==> !(ifalts[i].ifnum == ifnum && ifalts[i].alt == alt)
  {
    if ifalts == [] then -1
    else if ifalts[0].ifnum == ifnum && ifalts[0].alt == alt then 0
    else if FindAlt(ifalts[1..], ifnum, alt) == -1 then -1 else 1 + FindAlt(ifalts[1..], ifnum, alt)
  }

  function Registered(b: Build, ifnum: byte): Build
    requires b.Shape()
  {
    var c := b.(nIfnums := if ifnum + 1 > b.nIfnums then ifnum + 1 else b.nIfnums);
    if ifnum >= IFS || b.present[ifnum] then c
    else
      var d := c.(present := b.present[ifnum := true]);
      if b.groups == [] then d
      else
        var g := b.groups[|b.groups| - 1];
        d.(groups := b.groups[|b.groups| - 1 := GroupRec(if g.count == 0 then ifnum else g.first, g.count + 1, g.off)])
  }

  function Recorded(ifalts: seq<IfAlt>, ifnum: byte, alt: byte, off: nat): seq<IfAlt> {
    var k := FindAlt(ifalts, ifnum, alt);
    if k >= 0 then ifalts[k := IfAlt(ifnum, alt, off)]
    else if |ifalts| < MAX_IFALTS then ifalts + [IfAlt(ifnum, alt, off)]
    else ifalts
  }

  function AppendInterface(b: Build, d: Descriptor): (c: Build)
    requires b.Shape() && WellFormed(d) && d[1] == DT_INTERFACE && |b.blob| + LengthOf(d) <= MAX_BLOB
    ensures c.Shape()
  {
    Registered(b, d[2]).(blob := b.blob + Normal(d), cur := d[2], curAlt := d[3],
                         ifalts := Recorded(b.ifalts, d[2], d[3], |b.blob|))
  }

  /** Where the open alternate keeps its bNumEndpoints byte; -1 when it has no record. */
  function CountAt(ifalts: seq<IfAlt>, cur: int, curAlt: byte): int
    requires -1 <= cur < 256
  {
    if cur >= 0 && FindAlt(ifalts, cur, curAlt) >= 0 then ifalts[FindAlt(ifalts, cur, curAlt)].off + 4 else -1
  }

  /** One more in that byte. A record left over from an aborted group can point past the
      committed bytes: what is written there is lost. */
  function Counted(blob: seq<byte>, at: int): (r: seq<byte>)
    ensures |r| == |blob|
  {
    if 0 <= at < |blob| then blob[at := (blob[at] as nat + 1) % 256] else blob
  }

  datatype Outcome = Accepted(b: Build) | NoMem

  function AppendEndpoint(b: Build, d: Descriptor): (r: Outcome)
    requires b.Shape() && WellFormed(d) && d[1] == DT_ENDPOINT && |b.blob| + LengthOf(d) <= MAX_BLOB
    ensures r.Accepted? ==> r.b.Shape()
    ensures r.NoMem? <==> |b.pipes.eps| >= MAX_EPS || Alloc(b.pipes, b.Owner(), WantOf(d), DirInOf(d)) == -1
  {
    var n := Alloc(b.pipes, b.Owner(), WantOf(d), DirInOf(d));
    if |b.pipes.eps| >= MAX_EPS || n < 0 then NoMem
    else
      var placed := Addressed(Normal(d), Address(n, DirInOf(d)));
      Accepted(b.(blob := Counted(b.blob + placed, CountAt(b.ifalts, b.cur, b.curAlt)),
                  pipes := Add(b.pipes, RecOf(d, n, b.Owner()))))
  }

  function Append(b: Build, d: Descriptor): (r: Outcome)
    requires b.Shape() && WellFormed(d)
    ensures r.Accepted? ==> r.b.Shape()
  {
    if |b.blob| + LengthOf(d) > MAX_BLOB then NoMem
    else if d[1] == DT_INTERFACE then Accepted(AppendInterface(b, d))
    else if d[1] == DT_ENDPOINT then AppendEndpoint(b, d)
    else Accepted(b.(blob := b.blob + Normal(d)))
  }

  // ---- what an append comes to, byte for byte ------------------------------------------

  /** The appended endpoint and the one slot it takes: the number chosen, everything else as
      the descriptor says. */
  ghost predicate EndpointAdded(b: Build, d: Descriptor, c: Build)
    requires WellFormed(d) && d[1] == DT_ENDPOINT
  {
    && |c.pipes.eps| == |b.pipes.eps| + 1 && c.pipes.eps[..|b.pipes.eps|] == b.pipes.eps
    && var e := c.pipes.eps[|b.pipes.eps|];
       && 1 <= e.number <= 15 && (e.dirIn <==> d[2] >= 128)
       && e.ifnum == (if b.cur < 0 then 255 else b.cur)
       && e.kind as int == (d[3] as int) % 4 && e.mps == d[4] as nat + 256 * (d[5] as nat) && e.interval == d[6]
       && |c.pipes.holder| == |c.pipes.reserved| == |b.pipes.holder| == |b.pipes.reserved| == 32
       && var mine := 2 * e.number + if e.dirIn then 1 else 0;
       forall s :: 0 <= s < 32 ==>
                     && c.pipes.holder[s] == (if s == mine then Held(|b.pipes.eps|, e.ifnum) else b.pipes.holder[s])
                     && c.pipes.reserved[s] == (if s == mine then 0 else b.pipes.reserved[s])
  }

  /** The bytes an accepted endpoint append leaves: those before it, then the descriptor with
      its length and address filled in; `at` is the one byte that was counted up. */
  ghost predicate EndpointBytes(b: Build, d: Descriptor, c: Build, address: byte, at: int)
    requires WellFormed(d)
  {
    var was := |b.blob|;
    && |c.blob| == was + LengthOf(d)
    && (forall k :: 0 <= k < was && k != at ==> c.blob[k] == b.blob[k])
    && (0 <= at < was ==> c.blob[at] == (b.blob[at] as int + 1) % 256)
    && (at < was ==> forall k :: was <= k < |c.blob| ==>
          c.blob[k] == (if k == was then LengthOf(d) else if k == was + 2 then address else d[k - was]))
  }

  /** `at` is byte 4 of the descriptor recorded for the open alternate, or there is none. */
  ghost predicate OpenCount(b: Build, at: int) {
    if b.cur >= 0 && exists i :: 0 <= i < |b.ifalts| && b.ifalts[i].ifnum == b.cur && b.ifalts[i].alt == b.curAlt
    then exists i :: 0 <= i < |b.ifalts| && b.ifalts[i].ifnum == b.cur && b.ifalts[i].alt == b.curAlt && at == b.ifalts[i].off + 4
    else at == -1
  }

  lemma EndpointStep(b: Build, d: Descriptor) returns (at: int)
    requires b.Shape() && WellFormed(d) && d[1] == 5 && Append(b, d).Accepted?
    ensures EndpointAdded(b, d, Append(b, d).b) && OpenCount(b, at)
    ensures var c := Append(b, d).b; var n := c.pipes.eps[|b.pipes.eps|].number;
            EndpointBytes(b, d, c, if d[2] >= 128 then n + 128 else n, at) && c == b.(blob := c.blob, pipes := c.pipes)
  {
    at := CountAt(b.ifalts, b.cur, b.curAlt);
    var n := Alloc(b.pipes, b.Owner(), WantOf(d), DirInOf(d));
    EndpointSlots(b, d, n);
    EndpointPlaced(b, d, n, at);
    OpenCountAt(b);
  }

  lemma OpenCountAt(b: Build)
    requires b.Shape()
    ensures OpenCount(b, CountAt(b.ifalts, b.cur, b.curAlt))
  {
    if b.cur >= 0 && FindAlt(b.ifalts, b.cur, b.curAlt) >= 0 {
      var i := FindAlt(b.ifalts, b.cur, b.curAlt);
      assert b.ifalts[i].ifnum == b.cur && b.ifalts[i].alt == b.curAlt;
    }
  }

  lemma EndpointPlaced(b: Build, d: Descriptor, n: Number, at: int)
    requires WellFormed(d) && d[1] == DT_ENDPOINT
    ensures var placed := Addressed(Normal(d), Address(n, DirInOf(d)));
            EndpointBytes(b, d, b.(blob := Counted(b.blob + placed, at)), if d[2] >= 128 then n + 128 else n, at)
  {}

  lemma EndpointSlots(b: Build, d: Descriptor, n: nat)
    requires b.Shape() && WellFormed(d) && d[1] == DT_ENDPOINT && 1 <= n < 16
    ensures EndpointAdded(b, d, b.(pipes := Add(b.pipes, RecOf(d, n, b.Owner()))))
  {
    var e := RecOf(d, n, b.Owner());
    assert d[4..6][0] == d[4] && d[4..6][1] == d[5];
  }

  /** An accepted interface descriptor is open from now on, its bytes are at the end, and of the
      pairs of numbers only its own has a new place. */
  ghost predicate InterfaceAdded(b: Build, d: Descriptor, c: Build)
    requires b.Shape() && WellFormed(d) && d[1] == DT_INTERFACE
  {
    && c.blob == b.blob + [LengthOf(d)] + d[1..LengthOf(d)]
    && c.cur == d[2] && c.curAlt == d[3] && c.pipes == b.pipes && c.routes == b.routes && c.mark == b.mark
    && c.nIfnums == (if d[2] < b.nIfnums then b.nIfnums else d[2] as nat + 1)
    && |c.present| == 16 && (forall n :: 0 <= n < 16 ==> (c.present[n] <==> b.present[n] || n == d[2]))
    && |b.ifalts| <= |c.ifalts| <= |b.ifalts| + 1
    && (forall i :: 0 <= i < |c.ifalts| ==>
          c.ifalts[i] == IfAlt(d[2], d[3], |b.blob|) || (i < |b.ifalts| && c.ifalts[i] == b.ifalts[i]))
  }

  lemma InterfaceStep(b: Build, d: Descriptor)
    requires b.Shape() && WellFormed(d) && d[1] == 4 && Append(b, d).Accepted?
    ensures InterfaceAdded(b, d, Append(b, d).b)
  {
    assert Normal(d) == [LengthOf(d)] + d[1..LengthOf(d)];
  }

  /** Any other descriptor is appended and changes nothing else. */
  lemma OtherStep(b: Build, d: Descriptor)
    requires b.Shape() && WellFormed(d) && d[1] != 4 && d[1] != 5
    ensures Append(b, d).NoMem? <==> |b.blob| + LengthOf(d) > 2048
    ensures Append(b, d).Accepted? ==> Append(b, d).b == b.(blob := b.blob + [LengthOf(d)] + d[1..LengthOf(d)])
  {
    assert Normal(d) == [LengthOf(d)] + d[1..LengthOf(d)];
    assert b.blob + Normal(d) == b.blob + [LengthOf(d)] + d[1..LengthOf(d)];
  }

  /** A group record counts the interfaces first seen since it was opened and remembers the first. */
  lemma GroupCounts(b: Build, d: Descriptor)
    requires b.Shape() && WellFormed(d) && d[1] == 4 && Append(b, d).Accepted? && b.groups != []
    ensures var c := Append(b, d).b; var last := |b.groups| - 1; var g := b.groups[last];
      && c.groups[..last] == b.groups[..last] && |c.groups| == last + 1
      && c.groups[last] == if d[2] >= 16 || b.present[d[2]] then g
                           else if g.count == 0 then GroupRec(d[2], 1, g.off) else GroupRec(g.first, g.count + 1, g.off)
  {
  }

  /** A bLength of 0 stands for the length of the type; of the rest there is none. */
  lemma UsualLengths(d: Descriptor)
    requires |d| >= 2
    ensures d[0] > 0 ==> LengthOf(d) == d[0]
    ensures d[0] == 0 && d[1] == 1 ==> LengthOf(d) == 18
    ensures d[0] == 0 && d[1] in {2, 4} ==> LengthOf(d) == 9
    ensures d[0] == 0 && d[1] == 5 ==> LengthOf(d) == 7
    ensures d[0] == 0 && d[1] !in {1, 2, 4, 5} ==> LengthOf(d) == 0
  {
  }

  // ---- the other build steps -----------------------------------------------------------

  /** usbip_device_reserve_endpoint; address 0 when nothing could be claimed. */
  function Reserve(b: Build, want: byte): (r: (Build, byte))
    requires b.Shape()
    ensures r.0.Shape()
  {
    var n := Alloc(b.pipes, b.Owner(), want % 16, want >= 0x80);
    if b.cur < 0 || n < 0 then (b, 0)
    else (b.(pipes := Claim(b.pipes, b.Owner(), n, want >= 0x80)), Address(n, want >= 0x80))
  }

  function OnControl(b: Build, ifnum: int, handler: int): (c: Build)
    requires b.Shape()
    ensures c.Shape()
  {
    if ifnum < 0 then b.(routes := b.routes.(ctrlDefault := handler))
    else if ifnum < IFS then b.(routes := b.routes.(ctrl := b.routes.ctrl[ifnum := handler]))
    else b
  }

  function OnSetAlt(b: Build, ifnum: int, handler: int): (c: Build)
    requires b.Shape()
    ensures c.Shape()
  {
    if 0 <= ifnum < IFS then b.(routes := b.routes.(setAlt := b.routes.setAlt[ifnum := handler])) else b
  }

  /** A handler registered is found under its own interface number, the default under none, and
      no other handler is replaced. */
  lemma HandlerStep(b: Build, ifnum: int, handler: int)
    requires b.Shape()
    ensures var c := OnControl(b, ifnum, handler);
            && (forall i :: 0 <= i < 16 ==> c.routes.ctrl[i] == if i == ifnum then handler else b.routes.ctrl[i])
            && c.routes.ctrlDefault == (if ifnum < 0 then handler else b.routes.ctrlDefault)
            && c == b.(routes := c.routes) && c.routes.setAlt == b.routes.setAlt
    ensures var c := OnSetAlt(b, ifnum, handler);
            && (forall i :: 0 <= i < 16 ==> c.routes.setAlt[i] == if i == ifnum then handler else b.routes.setAlt[i])
            && c == b.(routes := c.routes) && c.routes.ctrl == b.routes.ctrl && c.routes.ctrlDefault == b.routes.ctrlDefault
  {
  }

  function MarkOf(b: Build): Mark {
    Mark(|b.blob|, |b.ifalts|, |b.pipes.eps|, b.nIfnums, b.cur, b.curAlt, b.present, b.pipes.reserved, b.routes)
  }

  function GroupBegin(b: Build): (c: Build)
    requires b.Shape()
    ensures c.Shape()
  {
    if |b.groups| >= MAX_GROUPS then b
    else b.(mark := MarkOf(b), groups := b.groups + [GroupRec(0, 0, |b.blob|)])
  }

  /** The slots whose holder is an endpoint from index `from` on, and not the mark's. */
  function Released(p: Pipes, from: nat): (holder: seq<Holder>)
    requires p.Shape()
    ensures |holder| == 32
  {
    seq(32, s requires 0 <= s < 32 => if p.holder[s].Held? && p.holder[s].ep >= from then Nobody else p.holder[s])
  }

  function GroupAbort(b: Build): (c: Build)
    requires b.Shape()
    ensures c.Shape()
  {
    if b.groups == [] then b
    else
      b.(groups := b.groups[..|b.groups| - 1],
         pipes := Pipes(b.pipes.eps[..b.mark.nEps], Released(b.pipes, b.mark.nEps), b.mark.reserved),
         blob := b.blob[..b.mark.blobLen], ifalts := b.ifalts[..b.mark.nIfalts], nIfnums := b.mark.nIfnums,
         cur := b.mark.cur, curAlt := b.mark.curAlt, present := b.mark.present, routes := b.mark.routes)
  }

  // ---- runs --------------------------------------------------------------------------

  datatype BuildStep =
    | Descr(d: Descriptor)
    | Claims(want: byte)
    | Control(ifnum: int, handler: int)
    | SetAlt(ifnum: int, handler: int)
    | Begin
    | Abort

  ghost predicate Legal(s: BuildStep) {
    s.Descr? ==> WellFormed(s.d)
  }

  function Stepped(b: Build, s: BuildStep): (c: Build)
    requires b.Shape() && Legal(s)
    ensures c.Shape()
  {
    match s
    case Descr(d) => if Append(b, d).Accepted? then Append(b, d).b else b
    case Claims(want) => Reserve(b, want).0
    case Control(ifnum, h) => OnControl(b, ifnum, h)
    case SetAlt(ifnum, h) => OnSetAlt(b, ifnum, h)
    case Begin => GroupBegin(b)
    case Abort => GroupAbort(b)
  }

  ghost function Built(b: Build, steps: seq<BuildStep>): (c: Build)
    requires b.Shape() && forall i :: 0 <= i < |steps| ==> Legal(steps[i])
    ensures c.Shape()
    decreases |steps|
  {
    if steps == [] then b else Built(Stepped(b, steps[0]), steps[1..])
  }
}
