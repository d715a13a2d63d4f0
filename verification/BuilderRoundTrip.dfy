/** What the builder serves is what parse_config reads back: every accepted descriptor, in
    order, with the address the allocator gave and the endpoint count the author left out. */
module BuilderRoundTrip {
  import opened Bytes
  import opened Allocation
  import opened ConfigParser
  import opened Builder

  // ---- sections ----------------------------------------------------------------------

  /** The last interface descriptor, or -1. */
  function LastIf(ds: seq<Descriptor>): (k: int)
    ensures k == -1 ==> forall i :: 0 <= i < |ds| ==> !IsInterface(ds[i])
    ensures k != -1 ==> 0 <= k < |ds| && IsInterface(ds[k]) && forall i :: k < i < |ds| ==> !IsInterface(ds[i])
  {
    if ds == [] then -1
    else if IsInterface(ds[|ds| - 1]) then |ds| - 1
    else LastIf(ds[..|ds| - 1])
  }

  /** What follows descriptor `i`, up to the next interface descriptor. */
  function Section(ds: seq<Descriptor>, i: nat): seq<Descriptor>
    requires i < |ds|
  {
    ds[i + 1..][..Lead(ds[i + 1..])]
  }

  lemma {:induction false} LeadSnoc(ds: seq<Descriptor>, x: Descriptor)
    ensures Lead(ds + [x]) == if Lead(ds) < |ds| || IsInterface(x) then Lead(ds) else |ds| + 1
  {
    if ds == [] {
      assert [] + [x] == [x] && [x][1..] == [];
    } else if !IsInterface(ds[0]) {
      assert (ds + [x])[1..] == ds[1..] + [x];
      LeadSnoc(ds[1..], x);
    }
  }

  lemma {:induction false} LeadPatch(ds: seq<Descriptor>, at: nat, x: Descriptor)
    requires at < |ds| && IsInterface(ds[at]) && IsInterface(x)
    ensures Lead(ds[at := x]) == Lead(ds) <= at
  {
    if at > 0 {
      assert ds[at := x][1..] == ds[1..][at - 1 := x];
      LeadPatch(ds[1..], at - 1, x);
    }
  }

  /** Whether descriptor `i` opens the last section. */
  predicate Open(ds: seq<Descriptor>, i: nat)
    requires i < |ds|
  {
    Lead(ds[i + 1..]) == |ds| - i - 1
  }

  lemma {:induction false} LeadAll(ds: seq<Descriptor>)
    ensures Lead(ds) == |ds| <==> LastIf(ds) == -1
  {
    if ds != [] {
      var front, x := ds[..|ds| - 1], ds[|ds| - 1];
      LeadAll(front);
      LeadSnoc(front, x);
      assert front + [x] == ds;
    }
  }

  lemma OpenIsLast(ds: seq<Descriptor>, i: nat)
    requires i < |ds| && IsInterface(ds[i])
    ensures Open(ds, i) <==> LastIf(ds) == i
  {
    var rest := ds[i + 1..];
    LeadAll(rest);
    if LastIf(rest) != -1 {
      assert IsInterface(ds[i + 1 + LastIf(rest)]);
    } else {
      forall j | i < j < |ds| ensures !IsInterface(ds[j]) {
        assert ds[j] == rest[j - i - 1];
      }
    }
  }

  /** A descriptor appended lengthens the open section. */
  lemma SectionSnoc(ds: seq<Descriptor>, x: Descriptor, i: nat)
    requires i < |ds|
    ensures Section(ds + [x], i) == if IsInterface(x) || !Open(ds, i) then Section(ds, i) else Section(ds, i) + [x]
  {
    var rest := ds[i + 1..];
    assert (ds + [x])[i + 1..] == rest + [x];
    LeadSnoc(rest, x);
  }

  lemma SectionPatch(ds: seq<Descriptor>, at: nat, x: Descriptor, i: nat)
    requires at < |ds| && i < |ds| && IsInterface(ds[at]) && IsInterface(x)
    ensures Section(ds[at := x], i) == Section(ds, i)
  {
    var rest := ds[i + 1..];
    if at <= i {
      assert ds[at := x][i + 1..] == rest;
    } else {
      assert ds[at := x][i + 1..] == rest[at - i - 1 := x];
      LeadPatch(rest, at - i - 1, x);
    }
  }

  lemma {:induction false} EndpointsSnoc(ds: seq<Descriptor>, x: Descriptor)
    ensures EndpointsIn(ds + [x]) == EndpointsIn(ds) + (if IsEndpoint(x) then [EndpointOf(x)] else [])
  {
    if ds != [] {
      assert (ds + [x])[1..] == ds[1..] + [x];
      EndpointsSnoc(ds[1..], x);
    } else {
      assert ([] + [x])[1..] == [];
    }
  }

  // ---- bytes -------------------------------------------------------------------------

  function Patch(d: Descriptor, k: nat, v: byte): (x: Descriptor)
    requires k < |d|
    ensures |x| == |d|
  {
    d[k := v]
  }

  /** Changing one byte of one descriptor changes that byte of the blob. */
  lemma FlattenPatch(ds: seq<Descriptor>, at: nat, k: nat, v: byte)
    requires at < |ds| && k < |ds[at]|
    ensures var off := |Flatten(ds[..at])|;
      off + k < |Flatten(ds)| && Flatten(ds)[off + k] == ds[at][k]
      && Flatten(ds[at := Patch(ds[at], k, v)]) == Flatten(ds)[off + k := v]
  {
    var x := Patch(ds[at], k, v);
    var before, after := ds[..at], ds[at + 1..];
    assert ds == before + ([ds[at]] + after);
    assert ds[at := x] == before + ([x] + after);
    FlattenAppend(before, [ds[at]] + after);
    FlattenAppend(before, [x] + after);
    assert ([ds[at]] + after)[1..] == after && ([x] + after)[1..] == after;
  }

  // ---- the trace ---------------------------------------------------------------------

  /** `d` is `g` as appended: only the length, an endpoint's address and an interface's
      bNumEndpoints may differ. */
  ghost predicate Placed(g: Descriptor, d: Descriptor) {
    && Standard(g) && Measured(d) && |d| == LengthOf(g) && d[1] == g[1]
    && forall k :: 2 <= k < |d| && !(k == 2 && g[1] == DT_ENDPOINT) && !(k == 4 && g[1] == DT_INTERFACE) ==> d[k] == g[k]
  }

  /** The addresses of the endpoint descriptors, in order. */
  function Addresses(ds: seq<Descriptor>): seq<byte> {
    if ds == [] then []
    else Addresses(ds[..|ds| - 1]) + (if IsEndpoint(ds[|ds| - 1]) then [ds[|ds| - 1][2]] else [])
  }

  function AddressesOf(eps: seq<EpRec>): seq<byte>
    requires forall i :: 0 <= i < |eps| ==> eps[i].number < 16
  {
    seq(|eps|, i requires 0 <= i < |eps| => Address(eps[i].number, eps[i].dirIn))
  }

  type Pair = (byte, byte)

  /** The first 64 different pairs of interface number and alternate setting, in order. */
  function Pairs(ds: seq<Descriptor>): (ps: seq<Pair>) {
    if ds == [] then []
    else
      var ps, d := Pairs(ds[..|ds| - 1]), ds[|ds| - 1];
      if IsInterface(d) then Noted(ps, d[2], d[3]) else ps
  }

  function Noted(ps: seq<Pair>, n: byte, a: byte): seq<Pair> {
    if (n, a) in ps || |ps| >= MAX_IFALTS then ps else ps + [(n, a)]
  }

  function PairsOf(ifalts: seq<IfAlt>): (ps: seq<Pair>)
    ensures |ps| == |ifalts|
  {
    seq(|ifalts|, i requires 0 <= i < |ifalts| => (ifalts[i].ifnum, ifalts[i].alt))
  }

  /** Interface descriptor `i` has a record: its pair is one of the first 64. */
  predicate HasRecord(ds: seq<Descriptor>, i: nat)
    requires i < |ds| && IsInterface(ds[i])
  {
    (ds[i][2], ds[i][3]) in Pairs(ds[..i + 1])
  }

  /** The bNumEndpoints byte is the author's value plus, if there is a record to find it by, the
      endpoints of the section. */
  ghost predicate CountedAt(gs: seq<Descriptor>, ds: seq<Descriptor>, i: nat)
    requires i < |gs| == |ds| && |gs[i]| > 4 && IsInterface(ds[i])
  {
    ds[i][4] == (gs[i][4] as nat + if HasRecord(ds, i) then |EndpointsIn(Section(ds, i))| else 0) % 256
  }

  ghost predicate Cursor(b: Build, ds: seq<Descriptor>) {
    var at := LastIf(ds);
    if at == -1 then b.cur == -1
    else
      && b.cur == ds[at][2] && b.curAlt == ds[at][3]
      && CountAt(b.ifalts, b.cur, b.curAlt) == if HasRecord(ds, at) then |Flatten(ds[..at])| + 4 else -1
  }

  /** The builder has accepted the descriptors `gs` and holds them as `ds`. */
  ghost predicate Traced(b: Build, gs: seq<Descriptor>, ds: seq<Descriptor>) {
    && b.Shape() && Counts(gs, ds) && b.blob == Flatten(ds)
    && Cursor(b, ds) && PairsOf(b.ifalts) == Pairs(ds)
    && (forall i :: 0 <= i < |b.pipes.eps| ==> b.pipes.eps[i].number < 16)
    && Addresses(ds) == AddressesOf(b.pipes.eps)
  }

  lemma AddressesSnoc(ds: seq<Descriptor>, x: Descriptor)
    ensures Addresses(ds + [x]) == Addresses(ds) + (if IsEndpoint(x) then [x[2]] else [])
    ensures LastIf(ds + [x]) == (if IsInterface(x) then |ds| else LastIf(ds))
    ensures Pairs(ds + [x]) == if IsInterface(x) then Noted(Pairs(ds), x[2], x[3]) else Pairs(ds)
  {
    assert (ds + [x])[..|ds|] == ds;
  }

  lemma RecordSnoc(ds: seq<Descriptor>, x: Descriptor, i: nat)
    requires i < |ds| && IsInterface(ds[i])
    ensures HasRecord(ds + [x], i) == HasRecord(ds, i)
  {
    assert (ds + [x])[..i + 1] == ds[..i + 1];
  }

  /** Counting an endpoint changes no pair. */
  lemma {:induction false} PairsPatch(ds: seq<Descriptor>, at: nat, x: Descriptor)
    requires at < |ds| && IsInterface(ds[at]) && IsInterface(x) && x[2] == ds[at][2] && x[3] == ds[at][3]
    ensures Pairs(ds[at := x]) == Pairs(ds)
  {
    var front := ds[..|ds| - 1];
    if at == |ds| - 1 {
      assert ds[at := x][..|ds| - 1] == front;
    } else {
      PairsPatch(front, at, x);
      assert ds[at := x][..|ds| - 1] == front[at := x];
    }
  }

  lemma RecordPatch(ds: seq<Descriptor>, at: nat, x: Descriptor, i: nat)
    requires at < |ds| && IsInterface(ds[at]) && IsInterface(x) && x[2] == ds[at][2] && x[3] == ds[at][3]
    requires i < |ds| && IsInterface(ds[i])
    ensures IsInterface(ds[at := x][i]) && HasRecord(ds[at := x], i) == HasRecord(ds, i)
  {
    if at <= i {
      assert ds[at := x][..i + 1] == ds[..i + 1][at := x];
      PairsPatch(ds[..i + 1], at, x);
    } else {
      assert ds[at := x][..i + 1] == ds[..i + 1];
    }
  }

  lemma {:induction false} AddressesPatch(ds: seq<Descriptor>, at: nat, x: Descriptor)
    requires at < |ds| && IsInterface(ds[at]) && IsInterface(x)
    ensures var es := ds[at := x]; Addresses(es) == Addresses(ds) && LastIf(es) == LastIf(ds)
  {
    var front := ds[..|ds| - 1];
    if at == |ds| - 1 {
      assert ds[at := x][..|ds| - 1] == front;
    } else {
      AddressesPatch(front, at, x);
      assert ds[at := x][..|ds| - 1] == front[at := x];
    }
  }

  /** What appending keeps of the counts, before any is bumped. */
  lemma CountsSnoc(gs: seq<Descriptor>, ds: seq<Descriptor>, g: Descriptor, x: Descriptor, i: nat)
    requires |gs| == |ds| && i < |ds| && Placed(gs[i], ds[i]) && IsInterface(ds[i]) && CountedAt(gs, ds, i)
    ensures var bump := IsEndpoint(x) && i == LastIf(ds);
      |EndpointsIn(Section(ds + [x], i))| == |EndpointsIn(Section(ds, i))| + if bump then 1 else 0
    ensures HasRecord(ds + [x], i) == HasRecord(ds, i)
    ensures !(IsEndpoint(x) && i == LastIf(ds)) || !HasRecord(ds, i) ==> CountedAt(gs + [g], ds + [x], i)
  {
    SectionSnoc(ds, x, i);
    OpenIsLast(ds, i);
    EndpointsSnoc(Section(ds, i), x);
    RecordSnoc(ds, x, i);
  }

  lemma NewCount(gs: seq<Descriptor>, ds: seq<Descriptor>, g: Descriptor)
    requires |gs| == |ds| && Standard(g) && g[1] == DT_INTERFACE
    ensures CountedAt(gs + [g], ds + [Normal(g)], |ds|)
  {
    assert (ds + [Normal(g)])[|ds| + 1..] == [];
  }

  ghost predicate Counts(gs: seq<Descriptor>, ds: seq<Descriptor>) {
    && |gs| == |ds| && (forall i :: 0 <= i < |ds| ==> Placed(gs[i], ds[i]))
    && (forall i :: 0 <= i < |ds| && IsInterface(ds[i]) ==> CountedAt(gs, ds, i))
  }

  /** Appending anything but an endpoint keeps every count right. */
  lemma AllCounts(gs: seq<Descriptor>, ds: seq<Descriptor>, g: Descriptor)
    requires Counts(gs, ds) && Standard(g) && g[1] != DT_ENDPOINT
    ensures Counts(gs + [g], ds + [Normal(g)])
  {
    var x := Normal(g);
    forall i | 0 <= i < |ds + [x]| && IsInterface((ds + [x])[i]) ensures CountedAt(gs + [g], ds + [x], i) {
      if i == |ds| {
        NewCount(gs, ds, g);
      } else {
        CountsSnoc(gs, ds, g, x, i);
      }
    }
  }

  // ---- each kind of step -----------------------------------------------------------------

  lemma TraceOther(b: Build, gs: seq<Descriptor>, ds: seq<Descriptor>, g: Descriptor)
    requires Traced(b, gs, ds) && Standard(g) && g[1] != DT_INTERFACE && g[1] != DT_ENDPOINT
    requires |b.blob| + LengthOf(g) <= MAX_BLOB
    ensures Traced(b.(blob := b.blob + Normal(g)), gs + [g], ds + [Normal(g)])
  {
    var x := Normal(g);
    FlattenSnoc(ds, x);
    AddressesSnoc(ds, x);
    AllCounts(gs, ds, g);
    KeepsCursor(b, ds, x);
  }

  lemma KeepsCursor(b: Build, ds: seq<Descriptor>, x: Descriptor)
    requires -1 <= b.cur < 256 && Cursor(b, ds) && !IsInterface(x)
    ensures Cursor(b, ds + [x])
  {
    AddressesSnoc(ds, x);
    var at := LastIf(ds);
    if at != -1 {
      assert (ds + [x])[..at] == ds[..at];
      RecordSnoc(ds, x, at);
    }
  }

  lemma FoundInPairs(ifalts: seq<IfAlt>, n: byte, a: byte)
    ensures FindAlt(ifalts, n, a) >= 0 <==> (n, a) in PairsOf(ifalts)
  {
    var k := FindAlt(ifalts, n, a);
    if k >= 0 {
      assert PairsOf(ifalts)[k] == (n, a);
    }
  }

  lemma RecordedAt(ifalts: seq<IfAlt>, n: byte, a: byte, off: nat)
    ensures var r := Recorded(ifalts, n, a, off);
      && PairsOf(r) == Noted(PairsOf(ifalts), n, a)
      && CountAt(r, n, a) == if (n, a) in PairsOf(r) then off + 4 else -1
  {
    var k, r := FindAlt(ifalts, n, a), Recorded(ifalts, n, a, off);
    FoundInPairs(ifalts, n, a);
    FoundInPairs(r, n, a);
    if k >= 0 {
      assert r[k] == IfAlt(n, a, off) && PairsOf(r) == PairsOf(ifalts);
    } else if |ifalts| < MAX_IFALTS {
      assert r[|ifalts|] == IfAlt(n, a, off) && PairsOf(r) == PairsOf(ifalts) + [(n, a)];
    }
  }

  lemma TraceInterface(b: Build, gs: seq<Descriptor>, ds: seq<Descriptor>, g: Descriptor)
    requires Traced(b, gs, ds) && Standard(g) && g[1] == DT_INTERFACE
    requires |b.blob| + LengthOf(g) <= MAX_BLOB
    ensures Traced(AppendInterface(b, g), gs + [g], ds + [Normal(g)])
  {
    var x := Normal(g);
    FlattenSnoc(ds, x);
    AddressesSnoc(ds, x);
    OpensCursor(b, ds, g);
    AllCounts(gs, ds, g);
  }

  lemma OpensCursor(b: Build, ds: seq<Descriptor>, g: Descriptor)
    requires b.Shape() && Standard(g) && g[1] == DT_INTERFACE && |b.blob| + LengthOf(g) <= MAX_BLOB
    requires PairsOf(b.ifalts) == Pairs(ds) && b.blob == Flatten(ds)
    ensures Cursor(AppendInterface(b, g), ds + [Normal(g)]) && PairsOf(AppendInterface(b, g).ifalts) == Pairs(ds + [Normal(g)])
  {
    var es := ds + [Normal(g)];
    AddressesSnoc(ds, Normal(g));
    RecordedAt(b.ifalts, g[2], g[3], |b.blob|);
    assert es[..|ds|] == ds && es[..|ds| + 1] == es;
  }

  function Bumped(d: Descriptor): Descriptor
    requires |d| > 4
  {
    Patch(d, 4, (d[4] as nat + 1) % 256)
  }

  /** The descriptors after an endpoint `x`: the open alternate counts it. */
  function WithEndpoint(ds: seq<Descriptor>, x: Descriptor): seq<Descriptor> {
    var at := LastIf(ds);
    if at == -1 || !HasRecord(ds, at) then ds + [x] else (ds + [x])[at := Bumped(ds[at])]
  }

  lemma EndpointBytes(b: Build, ds: seq<Descriptor>, x: Descriptor)
    requires -1 <= b.cur < 256 && b.blob == Flatten(ds) && Cursor(b, ds)
    ensures Counted(b.blob + x, CountAt(b.ifalts, b.cur, b.curAlt)) == Flatten(WithEndpoint(ds, x))
  {
    FlattenSnoc(ds, x);
    if LastIf(ds) != -1 && HasRecord(ds, LastIf(ds)) {
      CountBumped(ds, x, LastIf(ds));
    }
  }

  lemma CountBumped(ds: seq<Descriptor>, x: Descriptor, at: nat)
    requires at < |ds| && |ds[at]| > 4
    ensures var off := |Flatten(ds[..at])| + 4;
      off < |Flatten(ds + [x])| && Flatten(ds + [x])[off] == ds[at][4]
      && Flatten((ds + [x])[at := Bumped(ds[at])]) == Flatten<byte>(ds + [x])[off := (ds[at][4] as nat + 1) % 256]
  {
    var ds1 := ds + [x];
    assert ds1[..at] == ds[..at];
    FlattenPatch(ds1, at, 4, (ds[at][4] as nat + 1) % 256);
  }

  lemma EndpointCounts(gs: seq<Descriptor>, ds: seq<Descriptor>, g: Descriptor, x: Descriptor, i: nat)
    requires |gs| == |ds| && i < |ds| && Placed(gs[i], ds[i]) && IsInterface(ds[i]) && CountedAt(gs, ds, i) && IsEndpoint(x)
    ensures IsInterface(WithEndpoint(ds, x)[i]) && CountedAt(gs + [g], WithEndpoint(ds, x), i)
  {
    var at := LastIf(ds);
    CountsSnoc(gs, ds, g, x, i);
    if at != -1 && HasRecord(ds, at) {
      BumpedSection(ds, x, at, i);
      BumpedCount(gs, ds, g, x, at, i);
    }
  }

  lemma BumpedCount(gs: seq<Descriptor>, ds: seq<Descriptor>, g: Descriptor, x: Descriptor, at: nat, i: nat)
    requires |gs| == |ds| && i < |ds| && at < |ds| && |gs[i]| > 4 && IsInterface(ds[i]) && IsInterface(ds[at]) && HasRecord(ds, at)
    requires var es := (ds + [x])[at := Bumped(ds[at])];
      IsInterface(es[i]) && HasRecord(es, i) == HasRecord(ds, i) && Section(es, i) == Section(ds + [x], i)
    requires if i == at then CountedAt(gs, ds, i) && |EndpointsIn(Section(ds + [x], i))| == |EndpointsIn(Section(ds, i))| + 1
             else CountedAt(gs + [g], ds + [x], i) && HasRecord(ds + [x], i) == HasRecord(ds, i)
    ensures CountedAt(gs + [g], (ds + [x])[at := Bumped(ds[at])], i)
  {
    if i == at {
      OneMore(gs[i][4], |EndpointsIn(Section(ds, i))|, ds[i][4]);
    }
  }

  lemma BumpedSection(ds: seq<Descriptor>, x: Descriptor, at: nat, i: nat)
    requires at < |ds| && IsInterface(ds[at]) && i < |ds| && IsInterface(ds[i])
    ensures var es := (ds + [x])[at := Bumped(ds[at])];
      IsInterface(es[i]) && HasRecord(es, i) == HasRecord(ds, i) && Section(es, i) == Section(ds + [x], i)
  {
    SectionPatch(ds + [x], at, Bumped(ds[at]), i);
    RecordPatch(ds + [x], at, Bumped(ds[at]), i);
    RecordSnoc(ds, x, i);
  }

  lemma OneMore(given: nat, n: nat, now: nat)
    requires now == (given + n) % 256
    ensures (now + 1) % 256 == (given + (n + 1)) % 256
  {}

  lemma EndpointPlaced(gs: seq<Descriptor>, ds: seq<Descriptor>, g: Descriptor, x: Descriptor)
    requires |gs| == |ds| && (forall i :: 0 <= i < |ds| ==> Placed(gs[i], ds[i])) && Placed(g, x)
    ensures var es := WithEndpoint(ds, x);
      |es| == |gs| + 1 && forall i :: 0 <= i < |es| ==> Placed((gs + [g])[i], es[i])
  {
    var es, at := WithEndpoint(ds, x), LastIf(ds);
    forall i | 0 <= i < |es| ensures Placed((gs + [g])[i], es[i]) {
      if i < |ds| {
        assert Placed(gs[i], ds[i]);
      }
    }
  }

  lemma EndpointShape(ds: seq<Descriptor>, x: Descriptor)
    requires IsEndpoint(x)
    ensures var es := WithEndpoint(ds, x);
      && Addresses(es) == Addresses(ds) + [x[2]] && LastIf(es) == LastIf(ds) && Pairs(es) == Pairs(ds)
      && (forall i :: 0 <= i < |ds| ==> IsInterface(es[i]) == IsInterface(ds[i]))
  {
    AddressesSnoc(ds, x);
    var at := LastIf(ds);
    if at != -1 && HasRecord(ds, at) {
      BumpedShape(ds + [x], at);
    } else {
      assert WithEndpoint(ds, x) == ds + [x];
    }
  }

  lemma BumpedShape(ds: seq<Descriptor>, at: nat)
    requires at < |ds| && IsInterface(ds[at])
    ensures var es := ds[at := Bumped(ds[at])];
      && Addresses(es) == Addresses(ds) && LastIf(es) == LastIf(ds) && Pairs(es) == Pairs(ds)
      && (forall i :: 0 <= i < |ds| ==> IsInterface(es[i]) == IsInterface(ds[i]))
  {
    AddressesPatch(ds, at, Bumped(ds[at]));
    PairsPatch(ds, at, Bumped(ds[at]));
  }

  lemma EndpointCursor(b: Build, ds: seq<Descriptor>, x: Descriptor)
    requires -1 <= b.cur < 256 && Cursor(b, ds) && IsEndpoint(x) && LastIf(WithEndpoint(ds, x)) == LastIf(ds)
    ensures Cursor(b, WithEndpoint(ds, x))
  {
    var at := LastIf(ds);
    if at != -1 {
      assert WithEndpoint(ds, x)[..at] == ds[..at];
      RecordSnoc(ds, x, at);
      if HasRecord(ds, at) {
        RecordPatch(ds + [x], at, Bumped(ds[at]), at);
      }
    }
  }

  lemma AddressesOfSnoc(eps: seq<EpRec>, ep: EpRec)
    requires (forall i :: 0 <= i < |eps| ==> eps[i].number < 16) && ep.number < 16
    ensures AddressesOf(eps + [ep]) == AddressesOf(eps) + [Address(ep.number, ep.dirIn)]
  {}

  function EndpointPut(b: Build, g: Descriptor): Descriptor
    requires b.Shape() && Standard(g) && g[1] == DT_ENDPOINT && Alloc(b.pipes, b.Owner(), WantOf(g), DirInOf(g)) >= 0
  {
    Patch(Normal(g), 2, Address(Alloc(b.pipes, b.Owner(), WantOf(g), DirInOf(g)), DirInOf(g)))
  }

  lemma PutPlaced(b: Build, g: Descriptor)
    requires b.Shape() && Standard(g) && g[1] == DT_ENDPOINT && Alloc(b.pipes, b.Owner(), WantOf(g), DirInOf(g)) >= 0
    ensures Placed(g, EndpointPut(b, g)) && IsEndpoint(EndpointPut(b, g))
  {}

  lemma TraceEndpoint(b: Build, gs: seq<Descriptor>, ds: seq<Descriptor>, g: Descriptor)
    requires Traced(b, gs, ds) && Standard(g) && g[1] == DT_ENDPOINT && |b.blob| + LengthOf(g) <= MAX_BLOB
    requires AppendEndpoint(b, g).Accepted?
    ensures Traced(AppendEndpoint(b, g).b, gs + [g], WithEndpoint(ds, EndpointPut(b, g)))
  {
    var x, c := EndpointPut(b, g), AppendEndpoint(b, g).b;
    var es := WithEndpoint(ds, x);
    EndpointBytes(b, ds, x);
    PutPlaced(b, g);
    EndpointShape(ds, x);
    EndpointCursor(b, ds, x);
    EndpointAllCounts(gs, ds, g, x);
    AddressesOfSnoc(b.pipes.eps, RecOf(g, Alloc(b.pipes, b.Owner(), WantOf(g), DirInOf(g)), b.Owner()));
  }

  lemma EndpointAllCounts(gs: seq<Descriptor>, ds: seq<Descriptor>, g: Descriptor, x: Descriptor)
    requires Counts(gs, ds) && Placed(g, x) && IsEndpoint(x)
    ensures Counts(gs + [g], WithEndpoint(ds, x))
  {
    var es := WithEndpoint(ds, x);
    EndpointPlaced(gs, ds, g, x);
    EndpointShape(ds, x);
    forall i | 0 <= i < |es| && IsInterface(es[i]) ensures CountedAt(gs + [g], es, i) {
      EndpointCounts(gs, ds, g, x, i);
    }
  }

  // ---- what the host reads back ------------------------------------------------------------

  /** GET_DESCRIPTOR(CONFIGURATION): the nine-byte header and the blob. */
  function Served(b: Build): (s: seq<byte>)
    ensures |s| == 9 + |b.blob| && s[0] == 9 && s[1] == DT_CONFIG
  {
    Head(b) + b.blob
  }

  function Head(b: Build): (h: seq<byte>)
    ensures |h| == HEADER && h[0] == 9 && h[1] == DT_CONFIG
  {
    [9, DT_CONFIG] + PutLe16(9 + |b.blob|) + [b.nIfnums % 256, 1, 0, 0x80, 50]
  }

  lemma ServedParses(b: Build, gs: seq<Descriptor>, ds: seq<Descriptor>)
    requires Traced(b, gs, ds)
    ensures Walk(Served(b), HEADER, Walked([], [])) == Tree(ds)
  {
    forall i | 0 <= i < |ds| ensures Measured(ds[i]) {
      assert Placed(gs[i], ds[i]);
    }
    ServedWalk(b, ds);
  }

  lemma ServedWalk(b: Build, ds: seq<Descriptor>)
    requires b.blob == Flatten(ds) && forall i :: 0 <= i < |ds| ==> Measured(ds[i])
    ensures Walk(Served(b), HEADER, Walked([], [])) == Tree(ds)
  {
    WalkIsTree(Head(b), ds);
  }

  lemma {:induction false} AddressesCount(ds: seq<Descriptor>)
    ensures |Addresses(ds)| == |EndpointsIn(ds)|
  {
    if ds != [] {
      var front := ds[..|ds| - 1];
      AddressesCount(front);
      EndpointsSnoc(front, ds[|ds| - 1]);
      assert front + [ds[|ds| - 1]] == ds;
    }
  }

  lemma {:induction false} EndpointsSplit(a: seq<Descriptor>, b: seq<Descriptor>)
    ensures EndpointsIn(a + b) == EndpointsIn(a) + EndpointsIn(b)
  {
    if a == [] {
      assert a + b == b;
    } else {
      assert (a + b)[1..] == a[1..] + b;
      EndpointsSplit(a[1..], b);
      Assoc(if IsEndpoint(a[0]) then [EndpointOf(a[0])] else [], EndpointsIn(a[1..]), EndpointsIn(b));
    }
  }

  lemma SectionCount(ds: seq<Descriptor>, i: nat)
    requires i < |ds|
    ensures |EndpointsIn(Section(ds, i))| <= |Addresses(ds)|
  {
    var rest := ds[i + 1..];
    var body, after := Section(ds, i), rest[Lead(rest)..];
    assert ds == ds[..i + 1] + rest && rest == body + after;
    EndpointsSplit(ds[..i + 1], rest);
    EndpointsSplit(body, after);
    AddressesCount(ds);
  }

  /** Every descriptor is as given, but for what the builder fills in, and the endpoints have
      the addresses the allocator gave, in order. */
  ghost predicate Faithful(b: Build, gs: seq<Descriptor>, ds: seq<Descriptor>) {
    && |ds| == |gs| && (forall i :: 0 <= i < |ds| ==> Placed(gs[i], ds[i]))
    && (forall i :: 0 <= i < |b.pipes.eps| ==> b.pipes.eps[i].number < 16)
    && Addresses(ds) == AddressesOf(b.pipes.eps)
  }

  /** A bNumEndpoints left 0 is the number of endpoints that follow, if and only if the alternate
      has a record or there are none. */
  ghost predicate AutoCounted(gs: seq<Descriptor>, ds: seq<Descriptor>) {
    && |ds| == |gs|
    && forall i :: 0 <= i < |ds| && IsInterface(ds[i]) && |gs[i]| > 4 && gs[i][4] == 0 ==>
         (ds[i][4] as nat == |EndpointsIn(Section(ds, i))| <==> HasRecord(ds, i) || EndpointsIn(Section(ds, i)) == [])
  }

  /** What a host that reads the configuration sees: alternates by section, grouped. */
  ghost predicate HostSees(b: Build, ds: seq<Descriptor>) {
    && Alternates(AltsOf(ds))
    && Parsed(Served(b)) == Config(Served(b)[..9][4 := |Numbers(AltsOf(ds))| % 256],
                                   Interfaces(AltsOf(ds)), Flatten(ds[..Lead(ds)]))
  }

  lemma CountsAreExact(b: Build, gs: seq<Descriptor>, ds: seq<Descriptor>)
    requires Traced(b, gs, ds)
    ensures AutoCounted(gs, ds)
  {
    assert |Addresses(ds)| < 256;
    forall i | 0 <= i < |ds| && IsInterface(ds[i]) && |gs[i]| > 4 && gs[i][4] == 0
      ensures ds[i][4] as nat == |EndpointsIn(Section(ds, i))| <==> HasRecord(ds, i) || EndpointsIn(Section(ds, i)) == []
    {
      CountIsExact(gs, ds, i);
    }
  }

  lemma CountIsExact(gs: seq<Descriptor>, ds: seq<Descriptor>, i: nat)
    requires i < |gs| == |ds| && |gs[i]| > 4 && IsInterface(ds[i]) && gs[i][4] == 0 && CountedAt(gs, ds, i)
    requires |Addresses(ds)| < 256
    ensures ds[i][4] as nat == |EndpointsIn(Section(ds, i))| <==> HasRecord(ds, i) || EndpointsIn(Section(ds, i)) == []
  {
    SectionCount(ds, i);
  }

  lemma ParsesAsSections(b: Build, gs: seq<Descriptor>, ds: seq<Descriptor>)
    requires Traced(b, gs, ds)
    ensures HostSees(b, ds)
  {
    ServedParses(b, gs, ds);
    ParsedWalk(Served(b), Tree(ds));
  }

  // ---- descriptors shorter than their standard layout --------------------------------------------

  /** An endpoint's descriptors: those held, with the count of the open alternate, and its own. */
  lemma AppendedMeasured(gs: seq<Descriptor>, ds: seq<Descriptor>, x: Descriptor)
    requires Counts(gs, ds) && Measured(x)
    ensures forall i :: 0 <= i < |WithEndpoint(ds, x)| ==> Measured(WithEndpoint(ds, x)[i])
  {
    var es := WithEndpoint(ds, x);
    forall i | 0 <= i < |es| ensures Measured(es[i]) {
      if i < |ds| {
        assert Placed(gs[i], ds[i]);
      }
    }
  }

  /** How many endpoints the host has in its alternates. */
  function Seen(alts: seq<Alt>): nat {
    if alts == [] then 0 else |alts[0].eps| + Seen(alts[1..])
  }

  lemma {:induction false} SeenIs(ds: seq<Descriptor>)
    ensures Seen(AltsOf(ds)) == |EndpointsIn(ds[Lead(ds)..])|
  {
    if ds != [] {
      var rest := ds[1..];
      var n := Lead(rest);
      SeenIs(rest);
      if IsInterface(ds[0]) {
        var alt := AltOf(ds[0], rest[..n]);
        assert AltsOf(ds) == [alt] + AltsOf(rest) && ([alt] + AltsOf(rest))[1..] == AltsOf(rest);
        assert ds[0..] == ds && rest == rest[..n] + rest[n..];
        EndpointsSplit(rest[..n], rest[n..]);
      } else {
        assert ds[1 + n..] == rest[n..];
      }
    }
  }

  lemma {:induction false} EndpointsPatch(ds: seq<Descriptor>, at: nat, x: Descriptor)
    requires at < |ds| && IsInterface(ds[at]) && IsInterface(x)
    ensures EndpointsIn(ds[at := x]) == EndpointsIn(ds)
  {
    if at > 0 {
      assert ds[at := x][1..] == ds[1..][at - 1 := x];
      EndpointsPatch(ds[1..], at - 1, x);
    } else {
      assert ds[at := x][1..] == ds[1..];
    }
  }

  lemma SeenSnoc(ds: seq<Descriptor>, x: Descriptor)
    requires !IsInterface(x)
    ensures Seen(AltsOf(ds + [x])) == Seen(AltsOf(ds)) + if IsEndpoint(x) && LastIf(ds) != -1 then 1 else 0
  {
    SeenIs(ds);
    SeenIs(ds + [x]);
    LeadSnoc(ds, x);
    LeadAll(ds);
    var n := Lead(ds);
    if LastIf(ds) != -1 {
      assert (ds + [x])[n..] == ds[n..] + [x];
      EndpointsSnoc(ds[n..], x);
    } else {
      assert (ds + [x])[|ds| + 1..] == [] && ds[|ds|..] == [];
    }
  }

  lemma SeenPatch(ds: seq<Descriptor>, at: nat, x: Descriptor)
    requires at < |ds| && IsInterface(ds[at]) && IsInterface(x)
    ensures Seen(AltsOf(ds[at := x])) == Seen(AltsOf(ds))
  {
    SeenIs(ds);
    SeenIs(ds[at := x]);
    LeadPatch(ds, at, x);
    var n := Lead(ds);
    assert ds[at := x][n..] == ds[n..][at - n := x];
    EndpointsPatch(ds[n..], at - n, x);
  }

  /** The builder makes an endpoint of a descriptor of any length; the host sees one more in its
      alternates if and only if the descriptor is of the standard length and an interface was
      opened before it. */
  lemma EndpointSeenIff(b: Build, gs: seq<Descriptor>, ds: seq<Descriptor>, g: Descriptor)
    requires Traced(b, gs, ds) && WellFormed(g) && g[1] == DT_ENDPOINT && |b.blob| + LengthOf(g) <= MAX_BLOB
    requires AppendEndpoint(b, g).Accepted?
    ensures var before, after := Walk(Served(b), HEADER, Walked([], [])), Walk(Served(AppendEndpoint(b, g).b), HEADER, Walked([], []));
      Seen(after.alts) == Seen(before.alts) + 1 <==> LengthOf(g) >= 7 && b.cur >= 0
  {
    var n := Alloc(b.pipes, b.Owner(), WantOf(g), DirInOf(g));
    var x := Addressed(Normal(g), Address(n, DirInOf(g)));
    var at := LastIf(ds);
    ServedParses(b, gs, ds);
    EndpointBytes(b, ds, x);
    AppendedMeasured(gs, ds, x);
    ServedWalk(AppendEndpoint(b, g).b, WithEndpoint(ds, x));
    SeenSnoc(ds, x);
    if at != -1 && HasRecord(ds, at) {
      SeenPatch(ds + [x], at, Bumped(ds[at]));
    }
  }

  lemma {:induction false} AltsSnoc(ds: seq<Descriptor>, x: Descriptor)
    ensures |AltsOf(ds + [x])| == |AltsOf(ds)| + if IsInterface(x) then 1 else 0
    decreases |ds|
  {
    if ds == [] {
      assert [] + [x] == [x] && [x][1..] == [];
    } else {
      assert (ds + [x])[1..] == ds[1..] + [x];
      AltsSnoc(ds[1..], x);
    }
  }

  /** The builder opens an alternate for an interface descriptor of any length; the host sees
      one more if and only if it is of the standard length. */
  lemma InterfaceSeenIff(b: Build, gs: seq<Descriptor>, ds: seq<Descriptor>, g: Descriptor)
    requires Traced(b, gs, ds) && WellFormed(g) && g[1] == DT_INTERFACE && |b.blob| + LengthOf(g) <= MAX_BLOB
    ensures var before, after := Walk(Served(b), HEADER, Walked([], [])), Walk(Served(AppendInterface(b, g)), HEADER, Walked([], []));
      |after.alts| == |before.alts| + 1 <==> LengthOf(g) >= 9
  {
    var es := ds + [Normal(g)];
    FlattenSnoc(ds, Normal(g));
    forall i | 0 <= i < |es| ensures Measured(es[i]) {
      if i < |ds| {
        assert Placed(gs[i], ds[i]);
      }
    }
    ServedParses(b, gs, ds);
    ServedWalk(AppendInterface(b, g), es);
    AltsSnoc(ds, Normal(g));
  }
}
