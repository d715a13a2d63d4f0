/** The entropy-coded scan of a JPEG image: what the encoder writes after its headers decodes
    to exactly the coefficients it was given. */
module JpegScan {
  import opened Bytes
  import opened Bits
  import opened Huffman
  import opened ZigZag
  import opened BitWriter
  import opened EntropyCoder

  /** The coefficients of one 8x8 macroblock, each block in natural order. */
  datatype Mcu = Mcu(y: seq<int>, cb: seq<int>, cr: seq<int>)

  /** The DC value each component predicts its next block from. */
  datatype Dc = Dc(y: int, cb: int, cr: int)

  datatype Tables = Tables(dcl: Table, acl: Table, dcc: Table, acc: Table) {
    ghost predicate Shape() {
      dcl.Shape() && acl.Shape() && dcc.Shape() && acc.Shape()
    }

    ghost predicate Good() {
      DcTable(dcl) && AcTable(acl) && DcTable(dcc) && AcTable(acc)
    }
  }

  ghost predicate BlockInRange(coef: seq<int>, prev: int) {
    |coef| == 64 && InRange(Ordered(coef), prev)
  }

  ghost predicate McuInRange(m: Mcu, prev: Dc) {
    BlockInRange(m.y, prev.y) && BlockInRange(m.cb, prev.cb) && BlockInRange(m.cr, prev.cr)
  }

  function Next(m: Mcu): Dc
    requires |m.y| == |m.cb| == |m.cr| == 64
  {
    Dc(m.y[0], m.cb[0], m.cr[0])
  }

  ghost predicate ScanInRange(mcus: seq<Mcu>, prev: Dc) {
    mcus == [] || (McuInRange(mcus[0], prev) && ScanInRange(mcus[1..], Next(mcus[0])))
  }

  ghost function CoefBits(dc: Table, ac: Table, coef: seq<int>, prev: int): seq<bool>
    requires dc.Shape() && ac.Shape() && BlockInRange(coef, prev)
  {
    BlockBits(dc, ac, Ordered(coef), prev)
  }

  ghost function McuBits(t: Tables, m: Mcu, prev: Dc): seq<bool>
    requires t.Shape() && McuInRange(m, prev)
  {
    CoefBits(t.dcl, t.acl, m.y, prev.y) + CoefBits(t.dcc, t.acc, m.cb, prev.cb)
      + CoefBits(t.dcc, t.acc, m.cr, prev.cr)
  }

  ghost function ScanBits(t: Tables, mcus: seq<Mcu>, prev: Dc): seq<bool>
    requires t.Shape() && ScanInRange(mcus, prev)
  {
    if mcus == [] then [] else McuBits(t, mcus[0], prev) + ScanBits(t, mcus[1..], Next(mcus[0]))
  }

  // ---- tables with the same codes ----------------------------------------------------------

  ghost predicate SameCodes(a: Table, b: Table) {
    a.Shape() && b.Shape() && forall sym: byte :: a.Bits(sym) == b.Bits(sym)
  }

  /** As a decoder has them that rebuilt them from the same lists. */
  ghost predicate SameTables(t: Tables, d: Tables) {
    SameCodes(t.dcl, d.dcl) && SameCodes(t.acl, d.acl) && SameCodes(t.dcc, d.dcc) && SameCodes(t.acc, d.acc)
  }

  /** Tables of one list have the same codes. */
  lemma CanonicalSame(a: Table, b: Table, sizes: seq<nat>, vals: seq<byte>)
    requires Canonical(a, sizes, vals) && Canonical(b, sizes, vals)
    ensures SameCodes(a, b)
  {
    forall sym: byte ensures a.Bits(sym) == b.Bits(sym) {
      if sym in Names(vals, |sizes|) {
        var k := NamedAt(vals, |sizes|, sym);
        SameStart(a.code[sym], b.code[sym], Weight(sizes[k]));
      } else {
        assert a.size[sym] == 0 && b.size[sym] == 0;
      }
    }
  }

  lemma SameStart(x: nat, y: nat, w: nat)
    requires w > 0 && x * w == y * w
    ensures x == y
  {
    if x < y {
      MulLess(x, y, w);
    } else if y < x {
      MulLess(y, x, w);
    }
  }

  lemma MulLess(x: nat, y: nat, w: nat)
    requires x < y && w > 0
    ensures x * w < y * w
  {}

  lemma {:induction false} AcBitsSame(a: Table, b: Table, z: seq<int>, k: nat, run: nat)
    requires SameCodes(a, b) && |z| == 64 && 1 <= k <= 64 && forall i :: 1 <= i < 64 ==> Category(z[i]) <= 10
    ensures AcBits(a, z, k, run) == AcBits(b, z, k, run)
    decreases 64 - k, run
  {
    if k < 64 {
      if z[k] == 0 {
        AcBitsSame(a, b, z, k + 1, run + 1);
      } else if run > 15 {
        AcBitsSame(a, b, z, k, run - 16);
      } else {
        AcBitsSame(a, b, z, k + 1, 0);
      }
    }
  }

  lemma CoefBitsSame(dc: Table, dc': Table, ac: Table, ac': Table, coef: seq<int>, prev: int)
    requires SameCodes(dc, dc') && SameCodes(ac, ac') && BlockInRange(coef, prev)
    ensures CoefBits(dc, ac, coef, prev) == CoefBits(dc', ac', coef, prev)
  {
    AcBitsSame(ac, ac', Ordered(coef), FIRST, 0);
  }

  lemma {:induction false} ScanBitsSame(t: Tables, d: Tables, mcus: seq<Mcu>, prev: Dc)
    requires SameTables(t, d) && ScanInRange(mcus, prev)
    ensures ScanBits(t, mcus, prev) == ScanBits(d, mcus, prev)
    decreases |mcus|
  {
    if mcus != [] {
      CoefBitsSame(t.dcl, d.dcl, t.acl, d.acl, mcus[0].y, prev.y);
      CoefBitsSame(t.dcc, d.dcc, t.acc, d.acc, mcus[0].cb, prev.cb);
      CoefBitsSame(t.dcc, d.dcc, t.acc, d.acc, mcus[0].cr, prev.cr);
      ScanBitsSame(t, d, mcus[1..], Next(mcus[0]));
    }
  }

  // ---- decoding ----------------------------------------------------------------------

  function DecodeCoef(dc: Table, ac: Table, stream: seq<bool>, prev: int): Decoded<seq<int>>
    requires dc.Shape() && ac.Shape()
  {
    match DecodeBlock(dc, ac, stream, prev)
    case Bad => Bad
    case Decoded(z, rest) => if |z| == 64 then Decoded(Placed(z), rest) else Bad
  }

  function DecodeMcu(t: Tables, stream: seq<bool>, prev: Dc): Decoded<Mcu>
    requires t.Shape()
  {
    var y := DecodeCoef(t.dcl, t.acl, stream, prev.y);
    if y.Bad? then Bad else
    var cb := DecodeCoef(t.dcc, t.acc, y.rest, prev.cb);
    if cb.Bad? then Bad else
    var cr := DecodeCoef(t.dcc, t.acc, cb.rest, prev.cr);
    if cr.Bad? then Bad else Decoded(Mcu(y.value, cb.value, cr.value), cr.rest)
  }

  function DecodeScan(t: Tables, n: nat, stream: seq<bool>, prev: Dc): Decoded<seq<Mcu>>
    requires t.Shape()
  {
    if n == 0 then Decoded([], stream) else
    var first := DecodeMcu(t, stream, prev);
    if first.Bad? || |first.value.y| != 64 || |first.value.cb| != 64 || |first.value.cr| != 64 then Bad else
    Prefixed([first.value], DecodeScan(t, n - 1, first.rest, Next(first.value)))
  }

  lemma CoefRoundTrip(dc: Table, ac: Table, coef: seq<int>, prev: int, rest: seq<bool>)
    requires DcTable(dc) && AcTable(ac) && BlockInRange(coef, prev)
    ensures DecodeCoef(dc, ac, CoefBits(dc, ac, coef, prev) + rest, prev) == Decoded(coef, rest)
  {
    BlockRoundTrip(dc, ac, Ordered(coef), prev, rest);
    PlacedOrdered(coef);
  }

  lemma McuRoundTrip(t: Tables, m: Mcu, prev: Dc, rest: seq<bool>)
    requires t.Good() && McuInRange(m, prev)
    ensures DecodeMcu(t, McuBits(t, m, prev) + rest, prev) == Decoded(m, rest)
  {
    var y, cb, cr := CoefBits(t.dcl, t.acl, m.y, prev.y), CoefBits(t.dcc, t.acc, m.cb, prev.cb), CoefBits(t.dcc, t.acc, m.cr, prev.cr);
    Regrouped(y, cb, cr, rest);
    CoefRoundTrip(t.dcl, t.acl, m.y, prev.y, cb + (cr + rest));
    CoefRoundTrip(t.dcc, t.acc, m.cb, prev.cb, cr + rest);
    CoefRoundTrip(t.dcc, t.acc, m.cr, prev.cr, rest);
  }

  /** Every scan decodes to itself: block by block, with each component's own prediction. */
  lemma {:induction false} ScanRoundTrip(t: Tables, mcus: seq<Mcu>, prev: Dc, rest: seq<bool>)
    requires t.Good() && ScanInRange(mcus, prev)
    ensures DecodeScan(t, |mcus|, ScanBits(t, mcus, prev) + rest, prev) == Decoded(mcus, rest)
  {
    if mcus == [] {
      assert [] + rest == rest;
    } else {
      var bits, more := McuBits(t, mcus[0], prev), ScanBits(t, mcus[1..], Next(mcus[0]));
      McuRoundTrip(t, mcus[0], prev, more + rest);
      ScanRoundTrip(t, mcus[1..], Next(mcus[0]), rest);
      Assoc(bits, more, rest);
      DecodesFirst(t, mcus, bits + (more + rest), prev, more + rest, rest);
    }
  }

  lemma DecodesFirst(t: Tables, mcus: seq<Mcu>, stream: seq<bool>, prev: Dc, after: seq<bool>, rest: seq<bool>)
    requires t.Shape() && mcus != [] && DecodeMcu(t, stream, prev) == Decoded(mcus[0], after)
    requires |mcus[0].y| == |mcus[0].cb| == |mcus[0].cr| == 64
    requires DecodeScan(t, |mcus[1..]|, after, Next(mcus[0])) == Decoded(mcus[1..], rest)
    ensures DecodeScan(t, |mcus|, stream, prev) == Decoded(mcus, rest)
  {
    PrefixedFirst(mcus, mcus[0], DecodeScan(t, |mcus[1..]|, after, Next(mcus[0])));
  }

  // ---- encode_block and the macroblock loop --------------------------------------------

  ghost predicate Short(t: Table) {
    t.Shape() && forall sym: byte :: t.size[sym] <= 16
  }

  method PutSymbol(w: BitWriter, t: Table, sym: byte)
    requires t.Shape() && t.size[sym] <= 16 && w.Valid()
    modifies w, w.out
    ensures w.Valid() && w.Bits() == old(w.Bits()) + t.Bits(sym) && w.base == old(w.base)
    ensures w.ok ==> old(w.ok)
  {
    w.PutBits(t.code[sym], t.size[sym]);
  }

  method PutValue(w: BitWriter, t: Table, sym: byte, value: int)
    requires t.Shape() && t.size[sym] <= 16 && w.Valid() && Category(value) <= 11
    modifies w, w.out
    ensures w.Valid() && w.Bits() == old(w.Bits()) + (t.Bits(sym) + MagnitudeBits(value)) && w.base == old(w.base)
    ensures w.ok ==> old(w.ok)
  {
    var category, word := Magnitude(value);
    PutSymbol(w, t, sym);
    w.PutBits(word, category);
    Assoc(old(w.Bits()), t.Bits(sym), MagnitudeBits(value));
  }

  method PutDc(w: BitWriter, dc: Table, diff: int)
    requires Short(dc) && w.Valid() && Category(diff) <= 11
    modifies w, w.out
    ensures w.Valid() && w.Bits() == old(w.Bits()) + DcBits(dc, diff) && w.base == old(w.base)
    ensures w.ok ==> old(w.ok)
  {
    var category, word := Magnitude(diff);
    PutSymbol(w, dc, category);
    ghost var sent := w.Bits();
    if category > 0 {
      w.PutBits(word, category);
    }
    assert w.Bits() == sent + MagnitudeBits(diff);
    Assoc(old(w.Bits()), dc.Bits(category), MagnitudeBits(diff));
  }

  /** A coefficient that is not zero, after the ZRL symbols its run needs. */
  method PutAc(w: BitWriter, ac: Table, ghost z: seq<int>, k: nat, count: nat, value: int)
    requires Short(ac) && w.Valid() && |z| == 64 && 1 <= k < 64 && value == z[k] != 0
    requires forall i :: 1 <= i < 64 ==> Category(z[i]) <= 10
    modifies w, w.out
    ensures w.Valid() && w.base == old(w.base) && (w.ok ==> old(w.ok))
    ensures w.Bits() + AcBits(ac, z, k + 1, 0) == old(w.Bits()) + AcBits(ac, z, k, count)
  {
    var run := count;
    while run > 15
      invariant w.Valid() && w.base == old(w.base) && (w.ok ==> old(w.ok))
      invariant w.Bits() + AcBits(ac, z, k, run) == old(w.Bits()) + AcBits(ac, z, k, count)
    {
      Assoc(w.Bits(), ac.Bits(Zrl()), AcBits(ac, z, k, run - 16));
      PutSymbol(w, ac, Zrl());
      run := run - 16;
    }
    ghost var sent := w.Bits();
    PutValue(w, ac, RunSize(run, Category(value)), value);
    Assoc(sent, ac.Bits(RunSize(run, Category(value))) + MagnitudeBits(value), AcBits(ac, z, k + 1, 0));
  }

  /** One coefficient: a zero lengthens the run, anything else is sent. */
  method PutNext(w: BitWriter, ac: Table, ghost z: seq<int>, k: nat, run: nat, value: int) returns (next: nat)
    requires Short(ac) && w.Valid() && |z| == 64 && 1 <= k < 64 && value == z[k]
    requires forall i :: 1 <= i < 64 ==> Category(z[i]) <= 10
    modifies w, w.out
    ensures w.Valid() && w.base == old(w.base) && (w.ok ==> old(w.ok))
    ensures w.Bits() + AcBits(ac, z, k + 1, next) == old(w.Bits()) + AcBits(ac, z, k, run)
  {
    if value == 0 {
      next := run + 1;
    } else {
      PutAc(w, ac, z, k, run, value);
      next := 0;
    }
  }

  method PutEob(w: BitWriter, ac: Table, ghost z: seq<int>, run: nat)
    requires Short(ac) && w.Valid() && |z| == 64 && forall i :: 1 <= i < 64 ==> Category(z[i]) <= 10
    modifies w, w.out
    ensures w.Valid() && w.base == old(w.base) && (w.ok ==> old(w.ok))
    ensures w.Bits() == old(w.Bits()) + AcBits(ac, z, 64, run)
  {
    if run > 0 {
      PutSymbol(w, ac, Eob());
    }
  }

  /** The AC loop of encode_block. */
  method PutAcs(w: BitWriter, ac: Table, coef: seq<int>)
    requires Short(ac) && w.Valid() && |coef| == 64
    requires forall i :: 1 <= i < 64 ==> Category(Ordered(coef)[i]) <= 10
    modifies w, w.out
    ensures w.Valid() && w.base == old(w.base) && (w.ok ==> old(w.ok))
    ensures w.Bits() == old(w.Bits()) + AcBits(ac, Ordered(coef), FIRST, 0)
  {
    ghost var z := Ordered(coef);
    var k: nat, run: nat := 1, 0;
    while k < 64
      invariant 1 <= k <= 64 && w.Valid() && w.base == old(w.base) && (w.ok ==> old(w.ok))
      invariant w.Bits() + AcBits(ac, z, k, run) == old(w.Bits()) + AcBits(ac, z, FIRST, 0)
    {
      run := PutNext(w, ac, z, k, run, coef[ZZ(k)]);
      k := k + 1;
    }
    PutEob(w, ac, z, run);
  }

  /** encode_block, from the quantised coefficients on. */
  method EncodeBlock(w: BitWriter, dc: Table, ac: Table, coef: seq<int>, prev: int) returns (next: int)
    requires Short(dc) && Short(ac) && w.Valid() && BlockInRange(coef, prev)
    modifies w, w.out
    ensures w.Valid() && w.base == old(w.base) && (w.ok ==> old(w.ok)) && next == coef[0]
    ensures w.Bits() == old(w.Bits()) + CoefBits(dc, ac, coef, prev)
  {
    OrderedFirst(coef);
    PutDc(w, dc, coef[0] - prev);
    PutAcs(w, ac, coef);
    Assoc(old(w.Bits()), DcBits(dc, coef[0] - prev), AcBits(ac, Ordered(coef), FIRST, 0));
    next := coef[0];
  }

  method EncodeMcu(w: BitWriter, t: Tables, m: Mcu, prev: Dc) returns (next: Dc)
    requires ShortTables(t) && w.Valid() && McuInRange(m, prev)
    modifies w, w.out
    ensures w.Valid() && w.base == old(w.base) && (w.ok ==> old(w.ok)) && next == Next(m)
    ensures w.Bits() == old(w.Bits()) + McuBits(t, m, prev)
  {
    var y := EncodeBlock(w, t.dcl, t.acl, m.y, prev.y);
    var cb := EncodeBlock(w, t.dcc, t.acc, m.cb, prev.cb);
    var cr := EncodeBlock(w, t.dcc, t.acc, m.cr, prev.cr);
    Regrouped(old(w.Bits()), CoefBits(t.dcl, t.acl, m.y, prev.y), CoefBits(t.dcc, t.acc, m.cb, prev.cb),
      CoefBits(t.dcc, t.acc, m.cr, prev.cr));
    Assoc(CoefBits(t.dcl, t.acl, m.y, prev.y), CoefBits(t.dcc, t.acc, m.cb, prev.cb),
      CoefBits(t.dcc, t.acc, m.cr, prev.cr));
    next := Dc(y, cb, cr);
  }

  ghost predicate ShortTables(t: Tables) {
    Short(t.dcl) && Short(t.acl) && Short(t.dcc) && Short(t.acc)
  }

  lemma GoodAreShort(t: Tables)
    requires t.Good()
    ensures ShortTables(t)
  {
    forall sym: byte
      ensures t.dcl.size[sym] <= 16 && t.acl.size[sym] <= 16 && t.dcc.size[sym] <= 16 && t.acc.size[sym] <= 16
    {
      CodesFit(t.dcl, sym);
      CodesFit(t.acl, sym);
      CodesFit(t.dcc, sym);
      CodesFit(t.acc, sym);
    }
  }

  /** The macroblock loop. */
  method PutScan(w: BitWriter, t: Tables, mcus: seq<Mcu>, prev: Dc)
    requires ShortTables(t) && w.Valid() && ScanInRange(mcus, prev)
    modifies w, w.out
    ensures w.Valid() && w.base == old(w.base) && (w.ok ==> old(w.ok))
    ensures w.Bits() == old(w.Bits()) + ScanBits(t, mcus, prev)
  {
    var i, dc := 0, prev;
    while i < |mcus|
      invariant 0 <= i <= |mcus| && ScanInRange(mcus[i..], dc)
      invariant w.Valid() && w.base == old(w.base) && (w.ok ==> old(w.ok))
      invariant w.Bits() + ScanBits(t, mcus[i..], dc) == old(w.Bits()) + ScanBits(t, mcus, prev)
    {
      assert mcus[i..][1..] == mcus[i + 1..];
      Assoc(w.Bits(), McuBits(t, mcus[i], dc), ScanBits(t, mcus[i + 1..], Next(mcus[i])));
      dc := EncodeMcu(w, t, mcus[i], dc);
      i := i + 1;
    }
  }

  /** What a decoder reads between the headers and the EOI marker. */
  function Segment(written: seq<byte>, header: nat): (s: seq<byte>)
    requires header <= |written|
  {
    written[header..header + NextMarker(written[header..])]
  }

  /** Where the first marker is: an 0xFF not followed by a stuffed zero. */
  function NextMarker(s: seq<byte>): (n: nat)
    ensures n <= |s|
  {
    if |s| < 2 then |s|
    else if s[0] == 0xFF then (if s[1] == 0 then 2 + NextMarker(s[2..]) else 0)
    else 1 + NextMarker(s[1..])
  }

  const EOI: seq<byte> := [0xFF, 0xD9]

  /** No stuffed segment holds a marker: the first one is the EOI after it. */
  lemma {:induction false} MarkerIsAfterSegment(bs: seq<byte>)
    ensures NextMarker(Stuff(bs) + EOI) == |Stuff(bs)|
  {
    if bs == [] {
      assert Stuff(bs) + EOI == EOI;
    } else {
      StuffFront(bs);
      MarkerIsAfterSegment(bs[1..]);
      var rest := Stuff(bs[1..]) + EOI;
      assert Stuff(bs) + EOI == StuffByte(bs[0]) + rest;
      assert (StuffByte(bs[0]) + rest)[|StuffByte(bs[0])|..] == rest;
    }
  }

  function Ones(n: nat): (b: seq<bool>)
    ensures |b| == n
  {
    if n == 0 then [] else Ones(n - 1) + [true]
  }

  lemma {:induction false} PadIsOnes(n: nat)
    ensures BitsOf(Pow2(n) - 1, n) == Ones(n)
  {
    if n > 0 {
      PadIsOnes(n - 1);
      assert (Pow2(n) - 1) / 2 == Pow2(n - 1) - 1;
    }
  }

  /** A decoder that reads on from the headers to the first marker, unstuffs and decodes gets
      these coefficients, and nothing but padding ones after them. */
  ghost predicate Recovers(t: Tables, entropy: seq<byte>, mcus: seq<Mcu>)
    requires t.Shape()
  {
    exists pad: nat :: pad < 8 &&
      DecodeScan(t, |mcus|, Unpack(Unstuff(entropy)), Dc(0, 0, 0)) == Decoded(mcus, Ones(pad))
  }

  lemma SegmentDecodes(t: Tables, mcus: seq<Mcu>, sent: seq<byte>, pad: nat)
    requires t.Good() && ScanInRange(mcus, Dc(0, 0, 0)) && pad < 8
    requires Unpack(sent) == ScanBits(t, mcus, Dc(0, 0, 0)) + BitsOf(Pow2(pad) - 1, pad)
    ensures Recovers(t, Stuff(sent), mcus)
  {
    UnstuffStuff(sent);
    PadIsOnes(pad);
    ScanRoundTrip(t, mcus, Dc(0, 0, 0), Ones(pad));
  }

  lemma SegmentFound(base: seq<byte>, sent: seq<byte>)
    ensures Segment(base + Stuff(sent) + EOI, |base|) == Stuff(sent)
  {
    assert (base + Stuff(sent) + EOI)[|base|..] == Stuff(sent) + EOI;
    MarkerIsAfterSegment(sent);
    assert (base + Stuff(sent) + EOI)[|base|..|base| + |Stuff(sent)|] == Stuff(sent);
  }

  method PutEoi(w: BitWriter)
    requires w.Valid()
    modifies w, w.out
    ensures w.written == old(w.written) + EOI && w.base == old(w.base)
    ensures w.len == |w.written| && (w.ok ==> old(w.ok) && w.len <= w.out.Length && w.out[..w.len] == w.written)
  {
    w.PutByte(0xFF);
    w.PutByte(0xD9);
  }

  method PutAll(w: BitWriter, t: Tables, mcus: seq<Mcu>) returns (ghost pad: nat)
    requires ShortTables(t) && w.Valid() && w.Bits() == [] && ScanInRange(mcus, Dc(0, 0, 0))
    modifies w, w.out
    ensures w.Valid() && w.base == old(w.base) && (w.ok ==> old(w.ok)) && pad < 8
    ensures Unpack(w.packed) == ScanBits(t, mcus, Dc(0, 0, 0)) + BitsOf(Pow2(pad) - 1, pad)
  {
    PutScan(w, t, mcus, Dc(0, 0, 0));
    NothingBefore(ScanBits(t, mcus, Dc(0, 0, 0)));
    assert w.Bits() == ScanBits(t, mcus, Dc(0, 0, 0));
    pad := w.Flush();
    NothingAfter(Unpack(w.packed));
  }

  lemma NothingBefore(b: seq<bool>)
    ensures [] + b == b
  {}

  lemma NothingAfter(b: seq<bool>)
    ensures b + [] == b
  {}

  /** After the headers already in `w`: the macroblocks, the flush and EOI. */
  method EncodeScan(w: BitWriter, t: Tables, mcus: seq<Mcu>)
    requires t.Good() && w.Valid() && w.Bits() == [] && ScanInRange(mcus, Dc(0, 0, 0))
    modifies w, w.out
    ensures w.len == |w.written| && (w.ok ==> old(w.ok) && w.len <= w.out.Length && w.out[..w.len] == w.written)
    ensures |w.base| <= |w.written| && w.base == old(w.base)
    ensures w.written == w.base + Segment(w.written, |w.base|) + [0xFF, 0xD9]
    ensures Recovers(t, Segment(w.written, |w.base|), mcus)
    ensures forall d: Tables :: d.Good() && SameTables(t, d) ==> Recovers(d, Segment(w.written, |w.base|), mcus)
  {
    GoodAreShort(t);
    ghost var pad := PutAll(w, t, mcus);
    SegmentDecodes(t, mcus, w.packed, pad);
    forall d: Tables | d.Good() && SameTables(t, d) ensures Recovers(d, Stuff(w.packed), mcus) {
      ScanBitsSame(t, d, mcus, Dc(0, 0, 0));
      SegmentDecodes(d, mcus, w.packed, pad);
    }
    SegmentFound(w.base, w.packed);
    PutEoi(w);
  }
}
