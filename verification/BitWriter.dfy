/** The JPEG bit writer: put_bits and bit_flush refine appending to a bit string, which leaves
    as bytes with a zero stuffed after every 0xFF. */
module BitWriter {
  import opened Bytes
  import opened Bits

  // ---- bytes, stuffing ---------------------------------------------------------------

  function Stuff(bs: seq<byte>): seq<byte> {
    if bs == [] then [] else Stuff(bs[..|bs| - 1]) + StuffByte(bs[|bs| - 1])
  }

  function StuffByte(b: byte): seq<byte> {
    if b == 0xFF then [0xFF, 0x00] else [b]
  }

  /** What a decoder does to the entropy-coded segment: the byte after each 0xFF goes. */
  function Unstuff(bs: seq<byte>): seq<byte> {
    if bs == [] then []
    else [bs[0]] + Unstuff(if bs[0] == 0xFF && |bs| > 1 then bs[2..] else bs[1..])
  }

  lemma UnstuffCons(b: byte, rest: seq<byte>)
    ensures Unstuff(StuffByte(b) + rest) == [b] + Unstuff(rest)
  {
    assert (StuffByte(b) + rest)[|StuffByte(b)|..] == rest;
  }

  lemma {:induction false} StuffFront(bs: seq<byte>)
    ensures bs != [] ==> Stuff(bs) == StuffByte(bs[0]) + Stuff(bs[1..])
  {
    if |bs| == 1 {
      assert bs[..0] == [] && bs[1..] == [];
    } else if |bs| > 1 {
      var front, last := bs[..|bs| - 1], bs[|bs| - 1];
      StuffFront(front);
      assert front[1..] == bs[1..][..|bs| - 2] && bs[1..][|bs| - 2] == last;
      Assoc(StuffByte(bs[0]), Stuff(front[1..]), StuffByte(last));
    }
  }

  /** Removing the stuffed bytes undoes stuffing. */
  lemma {:induction false} UnstuffStuff(bs: seq<byte>)
    ensures Unstuff(Stuff(bs)) == bs
  {
    if bs != [] {
      StuffFront(bs);
      UnstuffCons(bs[0], Stuff(bs[1..]));
      UnstuffStuff(bs[1..]);
    }
  }

  function Unpack(bs: seq<byte>): (b: seq<bool>)
    ensures |b| == 8 * |bs|
  {
    if bs == [] then [] else Unpack(bs[..|bs| - 1]) + BitsOf(bs[|bs| - 1], 8)
  }

  lemma UnpackSnoc(bs: seq<byte>, b: byte)
    ensures Unpack(bs + [b]) == Unpack(bs) + BitsOf(b, 8)
  {
    assert (bs + [b])[..|bs|] == bs;
  }

  lemma StuffSnoc(bs: seq<byte>, b: byte)
    ensures Stuff(bs + [b]) == Stuff(bs) + StuffByte(b)
  {
    assert (bs + [b])[..|bs|] == bs;
  }

  lemma StuffedBehind(base: seq<byte>, bs: seq<byte>, b: byte)
    ensures base + Stuff(bs + [b]) == base + Stuff(bs) + StuffByte(b)
    ensures b == 0xFF ==> base + Stuff(bs + [b]) == base + Stuff(bs) + [0xFF] + [0x00]
  {
    StuffSnoc(bs, b);
    Assoc(base, Stuff(bs), StuffByte(b));
    if b == 0xFF {
      Assoc(base + Stuff(bs), [0xFF], [0x00]);
      assert StuffByte(b) == [0xFF] + [0x00];
    }
  }

  // ---- the accumulator ---------------------------------------------------------------

  const TWO24 := 0x100_0000

  function BitOr(a: nat, b: nat): nat
    decreases a + b
  {
    if a == 0 && b == 0 then 0
    else 2 * BitOr(a / 2, b / 2) + if a % 2 == 1 || b % 2 == 1 then 1 else 0
  }

  lemma {:induction false} OrZero(b: nat)
    ensures BitOr(0, b) == b
  {
    if b > 0 {
      OrZero(b / 2);
    }
  }

  /** OR of bits that do not overlap is addition. */
  lemma {:induction false} OrDisjoint(a: nat, x: nat, k: nat, y: nat)
    requires a == x * Pow2(k) && y < Pow2(k)
    ensures BitOr(a, y) == a + y
  {
    if k == 0 {
      OrLow(a);
    } else {
      Double(x, Pow2(k - 1));
      OrDisjoint(a / 2, x, k - 1, y / 2);
    }
  }

  lemma {:induction false} OrLow(a: nat)
    ensures BitOr(a, 0) == a
  {
    if a > 0 {
      OrLow(a / 2);
    }
  }

  lemma InWindow(acc: nat, v: nat, y: nat, q: nat, p: nat)
    requires q * p == TWO24 && acc % TWO24 == v * p && v < q && y < p
    ensures acc == (acc / TWO24 * q + v) * p && (acc + y) % TWO24 == v * p + y
  {
    var g := acc / TWO24;
    Spread(g, v, q, p);
    assert acc == g * TWO24 + v * p;
    Below2(v, y, q, p);
    assert acc + y == g * TWO24 + (v * p + y);
  }

  /** Adding `size` code bits below the `n` bits already at the top of a 24-bit window. */
  lemma OrIn(acc: nat, v: nat, n: nat, c: nat, size: nat, sum: nat, y: nat)
    requires n + size <= 24 && v < Pow2(n) && c < Pow2(size) && acc % TWO24 == v * Pow2(24 - n)
    requires sum == v * Pow2(size) + c && y == c * Pow2(24 - n - size)
    ensures BitOr(acc, y) % TWO24 == sum * Pow2(24 - n - size)
  {
    var k := Pow2(24 - n - size);
    Pow2Add(size, 24 - n - size);
    Below(c, Pow2(size), k);
    OrIsSum(acc, v, n, y);
    Split(v, c, Pow2(size), k, sum);
  }

  /** OR below the bits at the top of the window. */
  lemma OrIsSum(acc: nat, v: nat, n: nat, y: nat)
    requires n <= 24 && v < Pow2(n) && acc % TWO24 == v * Pow2(24 - n) && y < Pow2(24 - n)
    ensures BitOr(acc, y) % TWO24 == v * Pow2(24 - n) + y
  {
    Window();
    Pow2Add(n, 24 - n);
    OrNumbers(acc, v, y, 24 - n, Pow2(24 - n), Pow2(n));
  }

  lemma OrNumbers(acc: nat, v: nat, y: nat, k: nat, p: nat, q: nat)
    requires p == Pow2(k) && q * p == TWO24 && acc % TWO24 == v * p && v < q && y < p
    ensures BitOr(acc, y) % TWO24 == v * p + y
  {
    InWindow(acc, v, y, q, p);
    OrDisjoint(acc, acc / TWO24 * q + v, k, y);
  }

  lemma Window()
    ensures Pow2(24) == TWO24 && Pow2(16) == TWO16 && Pow2(8) == 256
  {
    assert Pow2(8) == 256;
    Pow2Add(8, 8);
    Pow2Add(8, 16);
  }

  lemma Below(c: nat, q: nat, p: nat)
    requires c < q && p > 0
    ensures c * p < q * p
  {
    MulAtLeast(q - c, p);
    assert (q - c) * p == q * p - c * p;
  }

  lemma Below2(v: nat, y: nat, q: nat, p: nat)
    requires v < q && y < p
    ensures v * p + y < q * p
  {
    Below(v, q, p);
    MulAtLeast(q - v, p);
    assert (q - v) * p == q * p - v * p;
  }

  lemma Spread(g: nat, v: nat, q: nat, p: nat)
    ensures (g * q + v) * p == g * (q * p) + v * p
  {}

  lemma Split(v: nat, c: nat, q: nat, p: nat, sum: nat)
    requires sum == v * q + c
    ensures sum * p == v * (q * p) + c * p
  {}

  /** Taking the top 8 of the window's 24 bits and shifting them out. */
  lemma ShiftOut(acc: nat, p: seq<bool>)
    requires 8 <= |p| <= 24 && acc % TWO24 == Value(p) * Pow2(24 - |p|)
    ensures acc / TWO16 % 256 == Value(p[..8])
    ensures acc * 256 % TWO32 % TWO24 == Value(p[8..]) * Pow2(24 - (|p| - 8))
  {
    var top, low, k := Value(p[..8]), Value(p[8..]), 24 - |p|;
    assert p == p[..8] + p[8..];
    ValueAppend(p[..8], p[8..]);
    Pow2Add(|p| - 8, k);
    Pow2Add(8, k);
    Window();
    Split(top, low, Pow2(|p| - 8), Pow2(k), Value(p));
    ShiftNumber(acc, top, low, Pow2(|p| - 8), Pow2(k));
  }

  lemma ShiftNumber(acc: nat, top: nat, low: nat, q: nat, p: nat)
    requires q * p == TWO16 && low < q && acc % TWO24 == top * TWO16 + low * p
    ensures acc / TWO16 % 256 == top
    ensures acc * 256 % TWO32 % TWO24 == low * (256 * p)
  {
    Below2(low, 0, q, p);
    var rest := low * p;
    assert 0 <= rest < TWO16;
    ShiftConst(acc, top, rest);
  }

  lemma ShiftConst(acc: nat, top: nat, rest: int)
    requires acc % TWO24 == top * TWO16 + rest && 0 <= rest < TWO16
    ensures acc / TWO16 % 256 == top
    ensures acc * 256 % TWO32 % TWO24 == rest * 256
  {
    var g := acc / TWO24;
    assert acc == g * TWO24 + top * TWO16 + rest && top < 256;
    ModUnique(acc, TWO16, g * 256 + top, rest);
    ModUnique(g * 256 + top, 256, g, top);
    ModUnique(acc * 256, TWO32, g, top * TWO24 + rest * 256);
    ModUnique(top * TWO24 + rest * 256, TWO24, top, rest * 256);
  }

  // ---- the writer --------------------------------------------------------------------

  function ZeroBits(n: nat): (z: seq<bool>)
    ensures |z| == n
  {
    if n == 0 then [] else ZeroBits(n - 1) + [false]
  }

  lemma {:induction false} ZerosValue(n: nat)
    ensures Value(ZeroBits(n)) == 0
  {
    if n > 0 {
      ZerosValue(n - 1);
      ValueSnoc(ZeroBits(n - 1), false);
    }
  }

  /** The accumulator holds exactly the bits `pending`, at the top of its 24-bit window. */
  ghost predicate Holds(acc: nat, nbits: nat, pending: seq<bool>) {
    nbits == |pending| <= 24 && acc % TWO24 == AtTop(pending)
  }

  /** `pending` read as a number, at the top of the window. */
  function AtTop(pending: seq<bool>): nat
    requires |pending| <= 24
  {
    Value(pending + ZeroBits(24 - |pending|))
  }

  lemma AtTopProduct(pending: seq<bool>, k: nat)
    requires |pending| + k == 24
    ensures AtTop(pending) == Value(pending) * Pow2(k)
  {
    ValueAppend(pending, ZeroBits(k));
    ZerosValue(k);
  }

  /** `code & ((1 << size) - 1)` */
  function Low(code: nat, size: nat): (c: nat)
    ensures c < Pow2(size)
  {
    code % Pow2(size)
  }

  function Shl(c: nat, k: nat): nat {
    c * Pow2(k)
  }

  lemma AppendedValue(pending: seq<bool>, code: nat, size: nat)
    ensures Value(pending + BitsOf(code, size)) == Value(pending) * Pow2(size) + Low(code, size)
  {
    ValueOfBits(code, size);
    ValueAppend(pending, BitsOf(code, size));
  }

  lemma HoldsMore(acc: nat, pending: seq<bool>, code: nat, size: nat)
    requires Holds(acc, |pending|, pending) && |pending| + size <= 24
    ensures Holds(BitOr(acc, Shl(Low(code, size), 24 - |pending| - size)), |pending| + size, pending + BitsOf(code, size))
  {
    var c, k := Low(code, size), 24 - |pending| - size;
    var bits := BitsOf(code, size);
    AtTopProduct(pending, 24 - |pending|);
    AppendedValue(pending, code, size);
    OrIn(acc, Value(pending), |pending|, c, size, Value(pending + bits), Shl(c, k));
    AtTopProduct(pending + bits, k);
  }

  lemma HoldsLess(acc: nat, pending: seq<bool>)
    requires Holds(acc, |pending|, pending) && |pending| >= 8
    ensures acc / TWO16 % 256 == Value(pending[..8])
    ensures Holds(acc * 256 % TWO32, |pending| - 8, pending[8..])
  {
    AtTopProduct(pending, 24 - |pending|);
    ShiftOut(acc, pending);
    AtTopProduct(pending[8..], 32 - |pending|);
  }

  /** Moving the first octet of `pending` out to `packed`. */
  lemma OctetOut(packed: seq<byte>, pending: seq<bool>, b: byte)
    requires |pending| >= 8 && b == Value(pending[..8])
    ensures Unpack(packed + [b]) + pending[8..] == Unpack(packed) + pending
  {
    UnpackSnoc(packed, b);
    BitsOfValue(pending[..8]);
    Assoc(Unpack(packed), pending[..8], pending[8..]);
    assert pending[..8] + pending[8..] == pending;
  }

  class BitWriter {
    const out: array<byte>
    var len: nat
    var ok: bool
    var acc: nat
    var nbits: nat
    /** History: every byte written; the header before the entropy-coded segment; the whole
        octets sent since, before stuffing; and the bits still in the accumulator. */
    ghost var written: seq<byte>
    ghost var base: seq<byte>
    ghost var packed: seq<byte>
    ghost var pending: seq<bool>

    /** The array holds what was written, as far as it reaches. */
    ghost predicate Stored()
      reads this, out
    {
      && len == |written|
      && (ok ==> len <= out.Length)
      && (forall i :: 0 <= i < len && i < out.Length ==> out[i] == written[i])
      && written == base + Stuff(packed)
    }

    ghost predicate Valid()
      reads this, out
    {
      Stored() && Holds(acc, nbits, pending) && |pending| < 8
    }

    /** Every bit put so far. */
    ghost function Bits(): seq<bool>
      reads this
    {
      Unpack(packed) + pending
    }

    constructor (cap: nat)
      ensures Valid() && fresh(out) && out.Length == cap && ok && base == [] && Bits() == []
    {
      out := new byte[cap];
      len, ok, acc, nbits := 0, true, 0, 0;
      written, base, packed, pending := [], [], [], [];
      new;
      ZerosValue(24);
      assert [] + ZeroBits(24) == ZeroBits(24);
    }

    method PutByte(value: byte)
      requires len == |written| && (ok ==> len <= out.Length)
      requires forall i :: 0 <= i < len && i < out.Length ==> out[i] == written[i]
      modifies this`len, this`ok, this`written, out
      ensures len == |written| && written == old(written) + [value]
      ensures ok == (old(ok) && old(len) < out.Length) && (ok ==> len <= out.Length)
      ensures forall i :: 0 <= i < len && i < out.Length ==> out[i] == written[i]
    {
      if len < out.Length {
        out[len] := value;
      } else {
        ok := false;
      }
      len := len + 1;
      written := written + [value];
    }

    /** A header byte: only before the entropy-coded segment. */
    method PutHeader(value: byte)
      requires Valid() && packed == []
      modifies this`len, this`ok, this`written, this`base, out
      ensures Valid() && base == old(base) + [value]
      ensures ok == (old(ok) && old(len) < out.Length)
    {
      PutByte(value);
      base := base + [value];
    }

    /** One octet of the entropy-coded segment: a zero is stuffed after 0xFF. */
    method PutStuffed(b: byte)
      requires Stored()
      modifies this`len, this`ok, this`written, this`packed, out
      ensures Stored() && packed == old(packed) + [b] && (ok ==> old(ok))
    {
      PutByte(b);
      if b == 0xFF {
        PutByte(0x00);
      }
      StuffedBehind(base, packed, b);
      packed := packed + [b];
    }

    /** Sends the first octet of the pending bits. */
    method SendOctet()
      requires Stored() && Holds(acc, nbits, pending) && nbits >= 8
      modifies this, out
      ensures Stored() && Holds(acc, nbits, pending) && nbits == old(nbits) - 8
      ensures Bits() == old(Bits()) && base == old(base) && (ok ==> old(ok))
    {
      HoldsLess(acc, pending);
      var b: byte := acc / TWO16 % 256;
      OctetOut(packed, pending, b);
      PutStuffed(b);
      acc := acc * 256 % TWO32;
      nbits := nbits - 8;
      pending := pending[8..];
    }

    /** put_bits: the low `size` bits of `code`, most significant first. */
    method PutBits(code: nat, size: nat)
      requires Valid() && size <= 16
      modifies this, out
      ensures Valid() && Bits() == old(Bits()) + BitsOf(code, size) && base == old(base)
      ensures ok ==> old(ok)
    {
      HoldsMore(acc, pending, code, size);
      acc := BitOr(acc, Shl(Low(code, size), 24 - nbits - size));
      nbits := nbits + size;
      pending := pending + BitsOf(code, size);
      assert Bits() == old(Bits()) + BitsOf(code, size);
      while nbits >= 8
        invariant Stored() && Holds(acc, nbits, pending)
        invariant Bits() == old(Bits()) + BitsOf(code, size) && base == old(base)
        invariant ok ==> old(ok)
      {
        SendOctet();
      }
    }

    /** bit_flush: pad to a byte boundary with ones. */
    method Flush() returns (ghost pad: nat)
      requires Valid()
      modifies this, out
      ensures Valid() && pending == [] && base == old(base) && (ok ==> old(ok))
      ensures pad < 8 && Bits() == old(Bits()) + BitsOf(Pow2(pad) - 1, pad)
    {
      pad := 0;
      if nbits > 0 {
        var n := 8 - nbits;
        pad := n;
        PutBits(Pow2(n) - 1, n);
      }
    }
  }
}
