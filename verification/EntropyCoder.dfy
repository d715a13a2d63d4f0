/** encode_block of jpeg.c on integer coefficients, and the decoder of Annex F of ITU-T T.81
    that gives every block back. */
module EntropyCoder {
  import opened Bytes
  import opened Bits
  import opened Huffman
  import opened BitWriter

  // ---- magnitudes --------------------------------------------------------------------

  function Abs(v: int): nat {
    if v < 0 then -v else v
  }

  /** The number of magnitude bits. */
  function BitLength(n: nat): (k: nat)
    ensures n < Pow2(k)
    ensures n > 0 ==> k > 0 && Pow2(k - 1) <= n
  {
    if n == 0 then 0 else 1 + BitLength(n / 2)
  }

  function Category(v: int): nat {
    BitLength(Abs(v))
  }

  /** The 16-bit word whose low bits are sent: one's complement for negatives. */
  function Amplitude(v: int): nat {
    (if v < 0 then v - 1 else v) % TWO16
  }

  method Magnitude(value: int) returns (n: nat, word: nat)
    ensures n == Category(value) && word == Amplitude(value)
  {
    var left: nat := if value < 0 then -value else value;
    n := 0;
    while left > 0
      invariant n + BitLength(left) == Category(value)
    {
      left := left / 2;
      n := n + 1;
    }
    word := (if value < 0 then value - 1 else value) % TWO16;
  }

  /** EXTEND of Annex F.2.2.1: the value of `n` received bits. */
  function Extend(received: nat, n: nat): int {
    if n > 0 && received < Pow2(n - 1) then received - (Pow2(n) - 1) else received
  }

  function MagnitudeBits(v: int): seq<bool> {
    BitsOf(Amplitude(v), Category(v))
  }

  lemma WordPower(n: nat) returns (q: nat)
    requires n <= 16
    ensures q * Pow2(n) == TWO16
  {
    q := Pow2(16 - n);
    Pow2Add(16 - n, n);
    Window();
  }

  lemma AmplitudeLow(v: int, n: nat)
    requires n <= 16 && n == Category(v)
    ensures Amplitude(v) % Pow2(n) == if v < 0 then v - 1 + Pow2(n) else v
  {
    var q := WordPower(n);
    PowerDivides(q, Pow2(n));
    if v < 0 {
      NegativeLow(v, Pow2(n), q);
    } else {
      ModUnique(v, Pow2(n), 0, v);
    }
  }

  lemma PowerDivides(q: nat, p: nat)
    requires q * p == TWO16
    ensures 0 < p <= TWO16 && q > 0
  {
    if q > 0 && p > 0 {
      MulAtLeast(q, p);
    }
  }

  lemma NegativeLow(v: int, p: nat, q: nat)
    requires v < 0 && -v < p <= TWO16 && q > 0 && q * p == TWO16
    ensures Amplitude(v) == v - 1 + TWO16 && Amplitude(v) % p == v - 1 + p
  {
    assert (q - 1) * p == q * p - p;
    ModUnique(v - 1 + TWO16, p, q - 1, v - 1 + p);
  }

  /** What is sent for a value is what EXTEND turns back into it. */
  lemma ExtendAmplitude(v: int)
    requires Category(v) <= 16
    ensures Extend(Value(MagnitudeBits(v)), Category(v)) == v
  {
    ValueOfBits(Amplitude(v), Category(v));
    AmplitudeLow(v, Category(v));
  }

  // ---- one block ---------------------------------------------------------------------

  function Zrl(): byte { 0xF0 }
  function Eob(): byte { 0x00 }

  /** The symbol of a run of at most 15 zeros before a value. */
  function RunSize(run: nat, category: nat): byte
    requires run < 16 && category < 16
  {
    16 * run + category
  }

  ghost predicate Decodable(t: Table) {
    t.Shape() && exists sizes, vals :: Canonical(t, sizes, vals)
  }

  /** A DC table has every category up to 11. */
  ghost predicate DcTable(t: Table) {
    Decodable(t) && forall c: byte :: c <= 11 ==> t.Has(c)
  }

  /** An AC table has EOB, ZRL and every run with every category from 1 to 10. */
  ghost predicate AcTable(t: Table) {
    && Decodable(t) && t.Has(Eob()) && t.Has(Zrl())
    && forall run, category :: 0 <= run < 16 && 1 <= category <= 10 ==> t.Has(RunSize(run, category))
  }

  lemma CodesFit(t: Table, sym: byte)
    requires Decodable(t)
    ensures t.size[sym] <= 16
  {
    var sizes, vals :| Canonical(t, sizes, vals);
    if t.Has(sym) {
      var k := NamedAt(vals, |sizes|, sym);
    }
  }

  lemma GetsSymbol(t: Table, sym: byte, rest: seq<bool>)
    requires Decodable(t) && t.Has(sym)
    ensures DecodeSymbol(t, t.Bits(sym) + rest) == Symbol(sym, rest)
  {
    var sizes, vals :| Canonical(t, sizes, vals);
    SymbolRoundTrip(t, sizes, vals, sym, rest);
  }

  /** The coefficients the tables cover. */
  ghost predicate InRange(z: seq<int>, prev: int) {
    && |z| == 64 && Category(z[0] - prev) <= 11
    && forall k :: 1 <= k < 64 ==> Category(z[k]) <= 10
  }

  function DcBits(dc: Table, diff: int): seq<bool>
    requires dc.Shape() && Category(diff) <= 11
  {
    dc.Bits(Category(diff)) + MagnitudeBits(diff)
  }

  /** The position of the first AC coefficient. */
  const FIRST: nat := 1

  /** The AC coefficients from `k` on, after a run of `run` zeros not yet sent. */
  function AcBits(ac: Table, z: seq<int>, k: nat, run: nat): seq<bool>
    requires ac.Shape() && |z| == 64 && 1 <= k <= 64
    requires forall i :: 1 <= i < 64 ==> Category(z[i]) <= 10
    decreases 64 - k, run
  {
    if k == 64 then if run > 0 then ac.Bits(Eob()) else []
    else if z[k] == 0 then AcBits(ac, z, k + 1, run + 1)
    else if run > 15 then ac.Bits(Zrl()) + AcBits(ac, z, k, run - 16)
    else ac.Bits(RunSize(run, Category(z[k]))) + MagnitudeBits(z[k]) + AcBits(ac, z, k + 1, 0)
  }

  function BlockBits(dc: Table, ac: Table, z: seq<int>, prev: int): seq<bool>
    requires dc.Shape() && ac.Shape() && InRange(z, prev)
  {
    DcBits(dc, z[0] - prev) + AcBits(ac, z, FIRST, 0)
  }

  // ---- decoding ----------------------------------------------------------------------

  datatype Decoded<T> = Bad | Decoded(value: T, rest: seq<bool>)

  function NoValues(n: nat): (z: seq<int>)
    ensures |z| == n
  {
    seq(n, _ => 0)
  }

  /** RECEIVE and EXTEND. */
  function ReceiveExtend(stream: seq<bool>, n: nat): Decoded<int> {
    if |stream| < n then Bad else Decoded(Extend(Value(stream[..n]), n), stream[n..])
  }

  function DecodeDc(dc: Table, stream: seq<bool>): Decoded<int>
    requires dc.Shape()
  {
    match DecodeSymbol(dc, stream)
    case NoSymbol => Bad
    case Symbol(category, rest) => ReceiveExtend(rest, category)
  }

  function Prefixed<T>(front: seq<T>, d: Decoded<seq<T>>): Decoded<seq<T>> {
    if d.Bad? then Bad else Decoded(front + d.value, d.rest)
  }

  /** What a decoder takes as the end of the block and as sixteen zeros: Table F.1 of ITU-T T.81. */
  function EndOfBlock(): byte { 0x00 }
  function SixteenZeros(): byte { 0xF0 }

  /** The AC coefficients from position `k` to 63. */
  function DecodeAc(ac: Table, stream: seq<bool>, k: nat): Decoded<seq<int>>
    requires ac.Shape() && k <= 64
    decreases 64 - k, 1
  {
    if k == 64 then Decoded([], stream)
    else match DecodeSymbol(ac, stream)
      case NoSymbol => Bad
      case Symbol(rs, rest) =>
        var run, category := rs / 16, rs % 16;
        if rs == EndOfBlock() then Decoded(NoValues(64 - k), rest)
        else if rs == SixteenZeros() then
          if k + 16 > 64 then Bad else Prefixed(NoValues(16), DecodeAc(ac, rest, k + 16))
        else if k + run >= 64 then Bad
        else AcAfter(ac, ReceiveExtend(rest, category), k, run)
  }

  /** A run of zeros, the value after it, and the rest. */
  function AcAfter(ac: Table, d: Decoded<int>, k: nat, run: nat): Decoded<seq<int>>
    requires ac.Shape() && k + run < 64
    decreases 64 - k, 0
  {
    if d.Bad? then Bad else Prefixed(NoValues(run) + [d.value], DecodeAc(ac, d.rest, k + run + 1))
  }

  function DecodeBlock(dc: Table, ac: Table, stream: seq<bool>, prev: int): Decoded<seq<int>>
    requires dc.Shape() && ac.Shape()
  {
    match DecodeDc(dc, stream)
    case Bad => Bad
    case Decoded(diff, rest) => Prefixed([prev + diff], DecodeAc(ac, rest, FIRST))
  }

  lemma Received(v: int, rest: seq<bool>)
    requires Category(v) <= 16
    ensures ReceiveExtend(MagnitudeBits(v) + rest, Category(v)) == Decoded(v, rest)
  {
    var stream := MagnitudeBits(v) + rest;
    assert stream[..Category(v)] == MagnitudeBits(v);
    assert stream[Category(v)..] == rest;
    ExtendAmplitude(v);
  }

  lemma DcRoundTrip(dc: Table, diff: int, rest: seq<bool>)
    requires DcTable(dc) && Category(diff) <= 11
    ensures DecodeDc(dc, DcBits(dc, diff) + rest) == Decoded(diff, rest)
  {
    assert DcBits(dc, diff) + rest == dc.Bits(Category(diff)) + (MagnitudeBits(diff) + rest);
    GetsSymbol(dc, Category(diff), MagnitudeBits(diff) + rest);
    Received(diff, rest);
  }

  /** The `run` coefficients before `k` are the zeros counted and not yet sent. */
  ghost predicate ZeroRun(z: seq<int>, k: nat, run: nat) {
    run <= k <= |z| && z[k - run..k] == NoValues(run)
  }

  lemma DecodesValue(ac: Table, stream: seq<bool>, k: nat, run: nat, v: int, rest: seq<bool>, after: seq<bool>, next: nat)
    requires ac.Shape() && run < 16 && k + run < 64 && 1 <= Category(v) <= 10 && next == k + run + 1
    requires DecodeSymbol(ac, stream) == Symbol(RunSize(run, Category(v)), rest)
    requires ReceiveExtend(rest, Category(v)) == Decoded(v, after)
    ensures DecodeAc(ac, stream, k) == Prefixed(NoValues(run) + [v], DecodeAc(ac, after, next))
  {
    DecodesRunSize(ac, stream, k, run, Category(v), rest);
    AfterValue(ac, v, after, k, run, next);
  }

  lemma DecodesRunSize(ac: Table, stream: seq<bool>, k: nat, run: nat, category: nat, rest: seq<bool>)
    requires ac.Shape() && run < 16 && k + run < 64 && 1 <= category <= 10
    requires DecodeSymbol(ac, stream) == Symbol(RunSize(run, category), rest)
    ensures DecodeAc(ac, stream, k) == AcAfter(ac, ReceiveExtend(rest, category), k, run)
  {
    RunSizeParts(run, category);
  }

  lemma AfterValue(ac: Table, v: int, after: seq<bool>, k: nat, run: nat, next: nat)
    requires ac.Shape() && k + run < 64 && next == k + run + 1
    ensures AcAfter(ac, Decoded(v, after), k, run) == Prefixed(NoValues(run) + [v], DecodeAc(ac, after, next))
  {}

  lemma RunSizeParts(run: nat, category: nat)
    requires run < 16 && 1 <= category <= 10
    ensures RunSize(run, category) / 16 == run && RunSize(run, category) % 16 == category
    ensures RunSize(run, category) != Eob() && RunSize(run, category) != Zrl()
  {
    ModUnique(16 * run + category, 16, run, category);
  }

  lemma AcValue(ac: Table, v: int, run: nat, k: nat, more: seq<bool>, stream: seq<bool>, next: nat)
    requires AcTable(ac) && run <= 15 && k + run < 64 && v != 0 && Category(v) <= 10 && next == k + run + 1
    requires stream == ac.Bits(RunSize(run, Category(v))) + (MagnitudeBits(v) + more)
    ensures DecodeAc(ac, stream, k) == Prefixed(NoValues(run) + [v], DecodeAc(ac, more, next))
  {
    var rest := ValueReceived(ac, v, run, more, stream);
    DecodesValue(ac, stream, k, run, v, rest, more, next);
  }

  lemma ValueReceived(ac: Table, v: int, run: nat, more: seq<bool>, stream: seq<bool>) returns (rest: seq<bool>)
    requires AcTable(ac) && run <= 15 && v != 0 && Category(v) <= 10
    requires stream == ac.Bits(RunSize(run, Category(v))) + (MagnitudeBits(v) + more)
    ensures DecodeSymbol(ac, stream) == Symbol(RunSize(run, Category(v)), rest) && ReceiveExtend(rest, Category(v)) == Decoded(v, more)
  {
    rest := MagnitudeBits(v) + more;
    GetsSymbol(ac, RunSize(run, Category(v)), MagnitudeBits(v) + more);
    Received(v, more);
  }

  lemma AcEnd(ac: Table, z: seq<int>, run: nat, rest: seq<bool>)
    requires AcTable(ac) && |z| == 64 && ZeroRun(z, 64, run)
    requires forall i :: 1 <= i < 64 ==> Category(z[i]) <= 10
    ensures DecodeAc(ac, AcBits(ac, z, 64, run) + rest, 64 - run) == Decoded(z[64 - run..], rest)
  {
    assert z[64 - run..] == z[64 - run..64];
    if run > 0 {
      GetsSymbol(ac, Eob(), rest);
    } else {
      assert [] + rest == rest;
    }
  }

  lemma AcZrl(ac: Table, z: seq<int>, k: nat, run: nat, rest: seq<bool>, from: nat)
    requires AcTable(ac) && |z| == 64 && 15 < run < k < 64 && from == k - run && ZeroRun(z, k, run) && z[k] != 0
    requires forall i :: 1 <= i < 64 ==> Category(z[i]) <= 10
    requires DecodeAc(ac, AcBits(ac, z, k, run - 16) + rest, from + 16) == Decoded(z[from + 16..], rest)
    ensures DecodeAc(ac, AcBits(ac, z, k, run) + rest, from) == Decoded(z[from..], rest)
  {
    var more := AcBits(ac, z, k, run - 16) + rest;
    Assoc(ac.Bits(Zrl()), AcBits(ac, z, k, run - 16), rest);
    GetsSymbol(ac, Zrl(), more);
    DecodesZrl(ac, ac.Bits(Zrl()) + more, from, more);
    SkipRun(z, k, run);
  }

  lemma DecodesZrl(ac: Table, stream: seq<bool>, k: nat, more: seq<bool>)
    requires ac.Shape() && k + 16 <= 64 && DecodeSymbol(ac, stream) == Symbol(Zrl(), more)
    ensures DecodeAc(ac, stream, k) == Prefixed(NoValues(16), DecodeAc(ac, more, k + 16))
  {}

  lemma LongerRun(z: seq<int>, k: nat, run: nat)
    requires k < |z| && z[k] == 0 && ZeroRun(z, k, run)
    ensures ZeroRun(z, k + 1, run + 1)
  {
    assert z[k - run..k + 1] == z[k - run..k] + [0];
  }

  lemma Rejoin(z: seq<int>, i: nat, k: nat)
    requires i <= k < |z|
    ensures z[i..] == z[i..k] + [z[k]] + z[k + 1..]
  {}

  lemma Regrouped(a: seq<bool>, b: seq<bool>, c: seq<bool>, d: seq<bool>)
    ensures a + b + c + d == a + (b + (c + d))
  {}

  lemma AcBitsOfValue(ac: Table, z: seq<int>, k: nat, run: nat, rest: seq<bool>)
    requires ac.Shape() && |z| == 64 && run <= 15 && 1 <= k < 64 && z[k] != 0
    requires forall i :: 1 <= i < 64 ==> Category(z[i]) <= 10
    ensures AcBits(ac, z, k, run) + rest
         == ac.Bits(RunSize(run, Category(z[k]))) + (MagnitudeBits(z[k]) + (AcBits(ac, z, k + 1, 0) + rest))
  {
    Regrouped(ac.Bits(RunSize(run, Category(z[k]))), MagnitudeBits(z[k]), AcBits(ac, z, k + 1, 0), rest);
  }

  lemma AcShortRun(ac: Table, z: seq<int>, k: nat, run: nat, rest: seq<bool>, from: nat)
    requires AcTable(ac) && |z| == 64 && run <= 15 && run < k < 64 && from == k - run && ZeroRun(z, k, run) && z[k] != 0
    requires forall i :: 1 <= i < 64 ==> Category(z[i]) <= 10
    requires DecodeAc(ac, AcBits(ac, z, k + 1, 0) + rest, k + 1) == Decoded(z[k + 1..], rest)
    ensures DecodeAc(ac, AcBits(ac, z, k, run) + rest, from) == Decoded(z[from..], rest)
  {
    AcBitsOfValue(ac, z, k, run, rest);
    ValueDecodes(ac, z, k, run, AcBits(ac, z, k + 1, 0) + rest, AcBits(ac, z, k, run) + rest, rest, k + 1, from);
  }

  lemma ValueDecodes(ac: Table, z: seq<int>, k: nat, run: nat, more: seq<bool>, stream: seq<bool>, rest: seq<bool>, next: nat, from: nat)
    requires AcTable(ac) && |z| == 64 && run <= 15 && k < 64 && ZeroRun(z, k, run) && z[k] != 0 && Category(z[k]) <= 10
    requires stream == ac.Bits(RunSize(run, Category(z[k]))) + (MagnitudeBits(z[k]) + more)
    requires next == k + 1 && from == k - run && DecodeAc(ac, more, next) == Decoded(z[next..], rest)
    ensures DecodeAc(ac, stream, from) == Decoded(z[from..], rest)
  {
    AcValue(ac, z[k], run, from, more, stream, next);
    ValuesJoin(z, k, run, rest, DecodeAc(ac, more, next));
  }

  lemma ValuesJoin(z: seq<int>, k: nat, run: nat, rest: seq<bool>, d: Decoded<seq<int>>)
    requires k < |z| && ZeroRun(z, k, run) && d == Decoded(z[k + 1..], rest)
    ensures Prefixed(NoValues(run) + [z[k]], d) == Decoded(z[k - run..], rest)
  {
    Rejoin(z, k - run, k);
  }

  /** `from` is where the run not sent yet begins. */
  lemma {:induction false} AcRoundTrip(ac: Table, z: seq<int>, k: nat, run: nat, rest: seq<bool>, from: nat)
    requires AcTable(ac) && |z| == 64 && 1 <= k <= 64 && run < k && from == k - run && ZeroRun(z, k, run)
    requires forall i :: 1 <= i < 64 ==> Category(z[i]) <= 10
    ensures DecodeAc(ac, AcBits(ac, z, k, run) + rest, from) == Decoded(z[from..], rest)
    decreases 64 - k, run
  {
    if k == 64 {
      AcEnd(ac, z, run, rest);
    } else if z[k] == 0 {
      LongerRun(z, k, run);
      AcRoundTrip(ac, z, k + 1, run + 1, rest, from);
      AcZero(ac, z, k, run, rest, k + 1, run + 1, from);
    } else if run > 15 {
      SkipRun(z, k, run);
      AcRoundTrip(ac, z, k, run - 16, rest, from + 16);
      AcZrl(ac, z, k, run, rest, from);
    } else {
      assert z[k + 1..k + 1] == NoValues(0);
      AcRoundTrip(ac, z, k + 1, 0, rest, k + 1);
      AcShortRun(ac, z, k, run, rest, from);
    }
  }

  lemma AcZero(ac: Table, z: seq<int>, k: nat, run: nat, rest: seq<bool>, next: nat, longer: nat, from: nat)
    requires ac.Shape() && |z| == 64 && 1 <= k < 64 && z[k] == 0 && forall i :: 1 <= i < 64 ==> Category(z[i]) <= 10
    requires next == k + 1 && longer == run + 1 && run <= k && from == k - run
    requires DecodeAc(ac, AcBits(ac, z, next, longer) + rest, from) == Decoded(z[from..], rest)
    ensures DecodeAc(ac, AcBits(ac, z, k, run) + rest, from) == Decoded(z[from..], rest)
  {
    assert AcBits(ac, z, k, run) == AcBits(ac, z, next, longer);
  }

  lemma SkipRun(z: seq<int>, k: nat, run: nat)
    requires |z| == 64 && run > 15 && ZeroRun(z, k, run)
    ensures ZeroRun(z, k, run - 16) && z[k - run..] == NoValues(16) + z[k - run + 16..]
  {
    var zs := z[k - run..k];
    assert zs[..16] == NoValues(16) && zs[16..] == NoValues(run - 16);
    assert zs[16..] == z[k - run + 16..k];
    assert z[k - run..] == zs[..16] + z[k - run + 16..];
  }

  lemma AcAll(ac: Table, z: seq<int>, rest: seq<bool>)
    requires AcTable(ac) && |z| == 64 && forall i :: 1 <= i < 64 ==> Category(z[i]) <= 10
    ensures DecodeAc(ac, AcBits(ac, z, FIRST, 0) + rest, FIRST) == Decoded(z[1..], rest)
  {
    assert z[1..1] == NoValues(0);
    AcRoundTrip(ac, z, FIRST, 0, rest, FIRST);
  }

  lemma PrefixedFirst<T>(z: seq<T>, first: T, d: Decoded<seq<T>>)
    requires |z| > 0 && first == z[0] && d.Decoded? && d.value == z[1..]
    ensures Prefixed([first], d) == Decoded(z, d.rest)
  {
    assert z == [first] + z[1..];
  }

  lemma DecodesBlock(dc: Table, ac: Table, stream: seq<bool>, prev: int, more: seq<bool>, z: seq<int>, rest: seq<bool>)
    requires dc.Shape() && ac.Shape() && |z| == 64 && DecodeDc(dc, stream) == Decoded(z[0] - prev, more)
    requires DecodeAc(ac, more, FIRST) == Decoded(z[1..], rest)
    ensures DecodeBlock(dc, ac, stream, prev) == Decoded(z, rest)
  {
    PrefixedFirst(z, prev + (z[0] - prev), DecodeAc(ac, more, FIRST));
  }

  lemma BlockSplit(dc: Table, ac: Table, z: seq<int>, prev: int, rest: seq<bool>)
    requires dc.Shape() && ac.Shape() && InRange(z, prev)
    ensures BlockBits(dc, ac, z, prev) + rest == DcBits(dc, z[0] - prev) + (AcBits(ac, z, FIRST, 0) + rest)
  {
    Assoc(DcBits(dc, z[0] - prev), AcBits(ac, z, FIRST, 0), rest);
  }

  lemma BlockParts(dc: Table, ac: Table, z: seq<int>, prev: int, rest: seq<bool>)
    returns (stream: seq<bool>, more: seq<bool>)
    requires DcTable(dc) && AcTable(ac) && InRange(z, prev)
    ensures stream == BlockBits(dc, ac, z, prev) + rest
    ensures DecodeDc(dc, stream) == Decoded(z[0] - prev, more)
    ensures DecodeAc(ac, more, FIRST) == Decoded(z[1..], rest)
  {
    stream, more := BlockBits(dc, ac, z, prev) + rest, AcBits(ac, z, FIRST, 0) + rest;
    BlockSplit(dc, ac, z, prev, rest);
    DcRoundTrip(dc, z[0] - prev, more);
    AcAll(ac, z, rest);
  }

  /** Every block in range decodes to itself, whatever follows it. */
  lemma BlockRoundTrip(dc: Table, ac: Table, z: seq<int>, prev: int, rest: seq<bool>)
    requires DcTable(dc) && AcTable(ac) && InRange(z, prev)
    ensures DecodeBlock(dc, ac, BlockBits(dc, ac, z, prev) + rest, prev) == Decoded(z, rest)
  {
    var stream, more := BlockParts(dc, ac, z, prev, rest);
    DecodesBlock(dc, ac, stream, prev, more, z, rest);
  }
}
