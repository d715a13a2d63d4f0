/** What a host has read, in terms of the bytes served: every field from the byte the standard
    puts it in, without the functions that parse it. */
module HostView {
  import opened Bytes
  import opened Allocation
  import opened ConfigParser
  import opened Builder
  import opened BuilderRoundTrip

  /** An endpoint has the fields of its descriptor. */
  ghost predicate ReadFrom(e: Endpoint, d: Descriptor) {
    && |d| >= 7 && d[1] == 5
    && e.length == d[0] && e.address == d[2] && e.attributes == d[3]
    && e.mps == d[4] as nat + 256 * d[5] as nat && e.interval == d[6]
    && e.refresh == (if |d| >= 9 then d[7] else 0) && e.synch == (if |d| >= 9 then d[8] else 0)
  }

  /** The endpoint descriptors of at least 7 bytes, in order. */
  function EndpointDescs(ds: seq<Descriptor>): seq<Descriptor> {
    if ds == [] then []
    else (if |ds[0]| >= 7 && ds[0][1] == 5 then [ds[0]] else []) + EndpointDescs(ds[1..])
  }

  lemma {:induction false} EndpointsRead(ds: seq<Descriptor>)
    ensures var es, from := EndpointsIn(ds), EndpointDescs(ds);
      |es| == |from| && forall i :: 0 <= i < |es| ==> ReadFrom(es[i], from[i])
  {
    if ds != [] {
      EndpointsRead(ds[1..]);
    }
  }

  /** The bytes of the descriptors that are neither interfaces nor endpoints a host knows. */
  function OtherBytes(ds: seq<Descriptor>): seq<byte> {
    if ds == [] then []
    else (if |ds[0]| >= 7 && ds[0][1] == 5 then [] else ds[0]) + OtherBytes(ds[1..])
  }

  lemma {:induction false} ExtrasAreOther(ds: seq<Descriptor>)
    ensures ExtrasIn(ds) == OtherBytes(ds)
  {
    if ds != [] {
      ExtrasAreOther(ds[1..]);
    }
  }

  /** The alternates whose bInterfaceNumber, byte 2, is `n`, in order, with bNumEndpoints, byte 4,
      the number of endpoints found. */
  function Having(alts: seq<Alt>, n: byte): seq<Alt>
    requires Alternates(alts)
  {
    if alts == [] then []
    else (if alts[0].desc[2] == n then [alts[0].(desc := alts[0].desc[4 := |alts[0].eps| % 256])] else []) + Having(alts[1..], n)
  }

  lemma {:induction false} HavingSnoc(alts: seq<Alt>, a: Alt, n: byte)
    requires Alternates(alts) && |a.desc| == 9
    ensures Alternates(alts + [a])
    ensures Having(alts + [a], n)
         == Having(alts, n) + if a.desc[2] == n then [a.(desc := a.desc[4 := |a.eps| % 256])] else []
  {
    if alts != [] {
      assert (alts + [a])[1..] == alts[1..] + [a];
      HavingSnoc(alts[1..], a, n);
      Assoc(if alts[0].desc[2] == n then [alts[0].(desc := alts[0].desc[4 := |alts[0].eps| % 256])] else [],
            Having(alts[1..], n), if a.desc[2] == n then [a.(desc := a.desc[4 := |a.eps| % 256])] else []);
    } else {
      assert [] + [a] == [a] && [a][1..] == [];
    }
  }

  lemma {:induction false} GroupIsHaving(alts: seq<Alt>, n: byte)
    requires Alternates(alts)
    ensures Group(alts, n) == Having(alts, n)
  {
    if alts != [] {
      var front, a := alts[..|alts| - 1], alts[|alts| - 1];
      GroupIsHaving(front, n);
      HavingSnoc(front, a, n);
      assert front + [a] == alts;
    }
  }

  /** Each interface is all the alternates of one number; no two have the same number, and with
      less than 64 of them every alternate's number has one. */
  ghost predicate Grouped(alts: seq<Alt>, ifaces: seq<seq<Alt>>, nums: seq<byte>) {
    && Alternates(alts) && |nums| == |ifaces| <= 64
    && (forall k :: 0 <= k < |ifaces| ==> ifaces[k] == Having(alts, nums[k]))
    && (forall j, k :: 0 <= j < k < |nums| ==> nums[j] != nums[k])
    && (|nums| < 64 ==> forall i :: 0 <= i < |alts| ==> alts[i].desc[2] in nums)
  }

  lemma InterfacesAreGrouped(alts: seq<Alt>)
    requires Alternates(alts)
    ensures Grouped(alts, Interfaces(alts), Numbers(alts))
  {
    NumbersAreDistinct(alts);
    forall k | 0 <= k < |Numbers(alts)| ensures Interfaces(alts)[k] == Having(alts, Numbers(alts)[k]) {
      GroupIsHaving(alts, Numbers(alts)[k]);
    }
  }

  // ---- the same, byte by byte ------------------------------------------------------------------

  /** The positions of the interface descriptors of at least 9 bytes, from `from` on. */
  function Opens(ds: seq<Descriptor>, from: nat): (opens: seq<nat>)
    requires from <= |ds|
    ensures forall m :: 0 <= m < |opens| ==> from <= opens[m] < |ds|
    decreases |ds| - from
  {
    if from == |ds| then []
    else (if |ds[from]| >= 9 && ds[from][1] == 4 then [from] else []) + Opens(ds, from + 1)
  }

  /** The alternate has the first nine bytes of descriptor `i`, the endpoints described behind it
      and the other bytes there, up to the next interface descriptor. */
  ghost predicate AltIs(a: Alt, ds: seq<Descriptor>, i: nat) {
    && i < |ds| && |ds[i]| >= 9 && a.desc == ds[i][..9]
    && var from := EndpointDescs(Section(ds, i));
       && |a.eps| == |from| && (forall j :: 0 <= j < |from| ==> ReadFrom(a.eps[j], from[j]))
       && a.extra == OtherBytes(Section(ds, i))
  }

  ghost predicate AllAre(alts: seq<Alt>, ds: seq<Descriptor>, opens: seq<nat>) {
    |alts| == |opens| && forall m :: 0 <= m < |alts| ==> AltIs(alts[m], ds, opens[m])
  }

  lemma {:induction false} AltsAre(ds: seq<Descriptor>, from: nat)
    requires from <= |ds|
    ensures AllAre(AltsOf(ds[from..]), ds, Opens(ds, from))
    decreases |ds| - from
  {
    if from < |ds| {
      AltsAre(ds, from + 1);
      AltsStep(ds, from);
      if IsInterface(ds[from]) {
        AltIsHere(ds, from);
        OneMoreIs(AltOf(ds[from], Section(ds, from)), AltsOf(ds[from + 1..]), ds, from, Opens(ds, from + 1));
      }
    }
  }

  lemma AltsStep(ds: seq<Descriptor>, from: nat)
    requires from < |ds|
    ensures AltsOf(ds[from..])
         == if IsInterface(ds[from]) then [AltOf(ds[from], Section(ds, from))] + AltsOf(ds[from + 1..]) else AltsOf(ds[from + 1..])
    ensures Opens(ds, from) == if IsInterface(ds[from]) then [from] + Opens(ds, from + 1) else Opens(ds, from + 1)
  {
    var rest := ds[from..];
    assert rest[0] == ds[from] && rest[1..] == ds[from + 1..];
    assert [] + Opens(ds, from + 1) == Opens(ds, from + 1);
  }

  lemma OneMoreIs(a: Alt, alts: seq<Alt>, ds: seq<Descriptor>, i: nat, opens: seq<nat>)
    requires AltIs(a, ds, i) && AllAre(alts, ds, opens)
    ensures AllAre([a] + alts, ds, [i] + opens)
  {}

  lemma AltIsHere(ds: seq<Descriptor>, i: nat)
    requires i < |ds| && IsInterface(ds[i])
    ensures AltIs(AltOf(ds[i], Section(ds, i)), ds, i)
  {
    EndpointsRead(Section(ds, i));
    ExtrasAreOther(Section(ds, i));
  }

  /** The endpoints a host has, alternate by alternate. */
  function HostEndpoints(alts: seq<Alt>): seq<Endpoint> {
    if alts == [] then [] else alts[0].eps + HostEndpoints(alts[1..])
  }

  function AddressesIn(es: seq<Endpoint>): (s: seq<byte>)
    ensures |s| == |es|
  {
    seq(|es|, i requires 0 <= i < |es| => es[i].address)
  }

  lemma AddressesJoin(a: seq<Endpoint>, b: seq<Endpoint>)
    ensures AddressesIn(a + b) == AddressesIn(a) + AddressesIn(b)
  {}

  lemma {:induction false} HostEndpointsAre(ds: seq<Descriptor>)
    ensures HostEndpoints(AltsOf(ds)) == EndpointsIn(ds[Lead(ds)..])
  {
    if ds != [] {
      var rest := ds[1..];
      HostEndpointsAre(rest);
      if IsInterface(ds[0]) {
        assert ds == [ds[0]] + rest && ds[0..] == ds;
        SectionEndpoints(ds[0], rest);
      } else {
        assert ds[1 + Lead(rest)..] == rest[Lead(rest)..];
      }
    }
  }

  lemma SectionEndpoints(d: Descriptor, rest: seq<Descriptor>)
    requires IsInterface(d)
    ensures HostEndpoints(AltsOf([d] + rest)) == EndpointsIn(rest[..Lead(rest)]) + HostEndpoints(AltsOf(rest))
    ensures EndpointsIn([d] + rest) == EndpointsIn(rest[..Lead(rest)]) + EndpointsIn(rest[Lead(rest)..])
  {
    var n := Lead(rest);
    assert ([d] + rest)[1..] == rest && rest == rest[..n] + rest[n..];
    FirstEndpoints(AltOf(d, rest[..n]), AltsOf(rest));
    EndpointsSplit(rest[..n], rest[n..]);
  }

  lemma FirstEndpoints(a: Alt, more: seq<Alt>)
    ensures HostEndpoints([a] + more) == a.eps + HostEndpoints(more)
  {
    assert ([a] + more)[1..] == more;
  }

  /** The addresses in the descriptors are those the host parses out of them. */
  lemma {:induction false} AddressesParsed(ds: seq<Descriptor>)
    ensures Addresses(ds) == AddressesIn(EndpointsIn(ds))
  {
    if ds != [] {
      var front, x := ds[..|ds| - 1], ds[|ds| - 1];
      AddressesParsed(front);
      EndpointsSnoc(front, x);
      assert front + [x] == ds;
      if IsEndpoint(x) {
        OneEndpoint(x);
        AddressesJoin(EndpointsIn(front), [EndpointOf(x)]);
      }
    }
  }

  lemma OneEndpoint(x: Descriptor)
    requires IsEndpoint(x)
    ensures EndpointsIn([x]) == [EndpointOf(x)] && EndpointDescs([x]) == [x] && AddressesIn([EndpointOf(x)]) == [x[2]]
  {
    var one: seq<Descriptor> := [x];
    assert one[1..] == [];
    EndpointsRead(one);
    assert ReadFrom(EndpointsIn(one)[0], EndpointDescs(one)[0]);
  }

  /** The numbers the allocator gave, with bit 7 for IN. */
  ghost predicate Allocated(addresses: seq<byte>, eps: seq<EpRec>) {
    && |addresses| == |eps|
    && forall i :: 0 <= i < |eps| ==> addresses[i] as int == eps[i].number + (if eps[i].dirIn then 128 else 0)
  }

  /** The host has every alternate with its endpoints and extras, grouped by byte 2 of its
      descriptor, with the number of groups in the header, and what comes before them. */
  ghost predicate HostHasTree(served: seq<byte>, ds: seq<Descriptor>) {
    var cfg, alts, opens := Parsed(served), AltsOf(ds), Opens(ds, 0);
    && cfg.Config? && AllAre(alts, ds, opens)
    && Alternates(alts) && Grouped(alts, cfg.ifaces, Numbers(alts)) && |served| >= 9
    && cfg.header == [served[0], served[1], served[2], served[3], |cfg.ifaces|, served[5], served[6], served[7], served[8]]
    && cfg.extra == Flatten(ds[..Lead(ds)])
  }

  /** The addresses the host has are those allocated, but for endpoints before the first
      interface. */
  ghost predicate HostHasAddresses(eps: seq<EpRec>, ds: seq<Descriptor>) {
    var addresses := AddressesIn(HostEndpoints(AltsOf(ds)));
    && |addresses| <= |eps| && Allocated(addresses, eps[|eps| - |addresses|..])
    && (ds != [] && |ds[0]| >= 9 && ds[0][1] == 4 ==> |addresses| == |eps|)
  }

  lemma HostTreeIs(b: Build, ds: seq<Descriptor>)
    requires HostSees(b, ds)
    ensures HostHasTree(Served(b), ds)
  {
    AltsAre(ds, 0);
    assert ds[0..] == ds;
    InterfacesAreGrouped(AltsOf(ds));
    HeaderIs(Served(b), |Numbers(AltsOf(ds))|);
  }

  /** parse_config of a nine-byte configuration header and any measured descriptors behind it. */
  lemma ParsesBytes(head: seq<byte>, ds: seq<Descriptor>)
    requires |head| == 9 && head[0] == 9 && head[1] == 2 && forall i :: 0 <= i < |ds| ==> Measured(ds[i])
    ensures HostHasTree(head + Flatten(ds), ds)
  {
    var s := head + Flatten(ds);
    WalkIsTree(head, ds);
    ParsedWalk(s, Tree(ds));
    AltsAre(ds, 0);
    assert ds[0..] == ds;
    InterfacesAreGrouped(AltsOf(ds));
    HeaderIs(s, |Numbers(AltsOf(ds))|);
  }

  lemma HeaderIs(s: seq<byte>, n: nat)
    requires |s| >= 9 && n <= 64
    ensures s[..9][4 := n % 256] == [s[0], s[1], s[2], s[3], n, s[5], s[6], s[7], s[8]]
  {}

  lemma HostAddressesAllocated(eps: seq<EpRec>, ds: seq<Descriptor>)
    requires (forall i :: 0 <= i < |eps| ==> eps[i].number < 16) && Addresses(ds) == AddressesOf(eps)
    ensures HostHasAddresses(eps, ds)
  {
    var n := Lead(ds);
    var front, last := EndpointsIn(ds[..n]), EndpointsIn(ds[n..]);
    assert ds == ds[..n] + ds[n..];
    HostEndpointsAre(ds);
    AddressesParsed(ds);
    EndpointsSplit(ds[..n], ds[n..]);
    AddressesJoin(front, last);
    AllocatedLast(eps, AddressesIn(front), AddressesIn(last));
  }

  lemma AllocatedLast(eps: seq<EpRec>, front: seq<byte>, last: seq<byte>)
    requires (forall i :: 0 <= i < |eps| ==> eps[i].number < 16) && front + last == AddressesOf(eps)
    ensures |last| + |front| == |eps| && Allocated(last, eps[|eps| - |last|..])
  {
    forall i | 0 <= i < |last| ensures last[i] as int == eps[|front| + i].number + (if eps[|front| + i].dirIn then 128 else 0) {
      assert (front + last)[|front| + i] == last[i];
    }
  }

  /** The header served: nine bytes, type 2, the total length at bytes 2 and 3, the number of
      interfaces at byte 4, configuration value 1, and the power attributes. */
  lemma ServedHead(b: Build)
    requires 9 + |b.blob| < TWO16
    ensures var s := Served(b);
      && s[0] == 9 && s[1] == 2 && s[2] as nat + 256 * s[3] as nat == |s| && s[4] == b.nIfnums % 256
      && s[5..9] == [1, 0, 0x80, 50] && s[9..] == b.blob
  {
    WordValues(PutLe16(9 + |b.blob|) + [0, 0]);
  }
}
