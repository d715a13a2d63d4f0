/** Canonical Huffman tables as jpeg.c builds them from Annex C lists: how many codes of each
    length, and the symbols in order. Code k owns an interval of the 16-bit space; the
    intervals of a Kraft-feasible list are disjoint, so no code is a prefix of another. */
module Huffman {
  import opened Bytes
  import opened Bits

  const MAX_LEN := 16

  /** The code length of every symbol in order (HUFFSIZE of Annex C), lengths 1 to `upto`. */
  function Sizes(bits: seq<nat>, upto: nat): (s: seq<nat>)
    requires upto < |bits|
    ensures forall i :: 0 <= i < |s| ==> 1 <= s[i] <= upto
  {
    if upto == 0 then [] else Sizes(bits, upto - 1) + seq(bits[upto], _ => upto)
  }

  /** How much of the 16-bit space the first `k` codes use. */
  function Used(sizes: seq<nat>, k: nat): nat
    requires k <= |sizes|
  {
    if k == 0 then 0 else Used(sizes, k - 1) + Weight(sizes[k - 1])
  }

  /** The share of the 16-bit space a code of length `n` owns. */
  function Weight(n: nat): nat {
    if n <= MAX_LEN then Pow2(MAX_LEN - n) else 0
  }

  /** `code`, scaled up to 16 bits, is where the codes before the k-th end. */
  ghost predicate Starts(code: nat, sizes: seq<nat>, k: nat)
    requires k < |sizes|
  {
    code * Weight(sizes[k]) == Used(sizes, k)
  }

  /** The first `k` symbols of the list. */
  function Names(vals: seq<byte>, k: nat): set<byte>
    requires k <= |vals|
  {
    if k == 0 then {} else Names(vals, k - 1) + {vals[k - 1]}
  }

  lemma {:induction false} NamedAt(vals: seq<byte>, k: nat, sym: byte) returns (i: nat)
    requires k <= |vals| && sym in Names(vals, k)
    ensures i < k && vals[i] == sym
  {
    if vals[k - 1] == sym {
      i := k - 1;
    } else {
      i := NamedAt(vals, k - 1, sym);
    }
  }

  ghost predicate Kraft(sizes: seq<nat>) {
    && (forall i :: 0 <= i < |sizes| ==> 1 <= sizes[i] <= MAX_LEN)
    && Used(sizes, |sizes|) <= Pow2(MAX_LEN)
  }

  /** sym -> (code, length); length 0 for a symbol the table does not have. */
  datatype Table = Table(code: seq<nat>, size: seq<nat>) {
    ghost predicate Shape() {
      |code| == 256 && |size| == 256
    }

    function Bits(sym: byte): seq<bool>
      requires |code| == 256 && |size| == 256
    {
      BitsOf(code[sym], size[sym])
    }

    predicate Has(sym: byte)
      requires |size| == 256
    {
      size[sym] > 0
    }
  }

  /** Symbol k of the list has length sizes[k] and the code that starts where the k codes
      before it end; nothing else is in the table. */
  ghost predicate Canonical(t: Table, sizes: seq<nat>, vals: seq<byte>) {
    && t.Shape() && Kraft(sizes) && |sizes| <= |vals|
    && (forall k :: 0 <= k < |sizes| ==>
         t.size[vals[k]] == sizes[k] && Starts(t.code[vals[k]], sizes, k))
    && (forall sym: byte :: t.size[sym] > 0 ==> sym in Names(vals, |sizes|))
  }

  lemma {:induction false} UsedMonotone(sizes: seq<nat>, i: nat, j: nat)
    requires i <= j <= |sizes|
    ensures Used(sizes, i) <= Used(sizes, j)
    ensures i < j ==> Used(sizes, i) + Weight(sizes[i]) <= Used(sizes, j)
  {
    if i < j {
      UsedMonotone(sizes, i, j - 1);
    }
  }

  /** A code fits its length. */
  lemma CodeFits(t: Table, sizes: seq<nat>, vals: seq<byte>, k: nat)
    requires Canonical(t, sizes, vals) && k < |sizes|
    ensures t.code[vals[k]] < Pow2(sizes[k])
  {
    UsedMonotone(sizes, k, |sizes|);
    UsedMonotone(sizes, k + 1, |sizes|);
    Pow2Add(sizes[k], MAX_LEN - sizes[k]);
    Fits(t.code[vals[k]], Pow2(sizes[k]), Weight(sizes[k]), Pow2(MAX_LEN));
  }

  lemma Fits(c: nat, q: nat, p: nat, total: nat)
    requires p > 0 && c * p + p <= total == q * p
    ensures c < q
  {
    assert (c - q) * p == c * p - q * p;
    MulAtLeast(c - q + 1, p);
    assert (c - q + 1) * p == (c - q) * p + p;
  }

  lemma Succ(c: nat, p: nat)
    ensures (c + 1) * p == c * p + p
  {}

  /** A code that is a prefix of a bit string starts the string inside its own interval. */
  lemma PrefixInterval(c: nat, n: nat, w: seq<bool>)
    requires n <= |w| && c < Pow2(n) && BitsOf(c, n) <= w
    ensures c * Pow2(|w| - n) <= Value(w) < (c + 1) * Pow2(|w| - n)
  {
    var tail := w[n..];
    assert w == BitsOf(c, n) + tail;
    ValueAppend(BitsOf(c, n), tail);
    ValueOfCode(c, n);
    Succ(c, Pow2(|tail|));
  }

  lemma ValueOfCode(c: nat, n: nat)
    requires c < Pow2(n)
    ensures Value(BitsOf(c, n)) == c
  {
    ValueOfBits(c, n);
    ModUnique(c, Pow2(n), 0, c);
  }

  /** Two codes that both start the same bits are the same code. */
  lemma PrefixFree(t: Table, sizes: seq<nat>, vals: seq<byte>, a: byte, b: byte, stream: seq<bool>)
    requires Canonical(t, sizes, vals) && t.Has(a) && t.Has(b)
    requires t.Bits(a) <= stream && t.Bits(b) <= stream
    ensures a == b
  {
    var i := NamedAt(vals, |sizes|, a);
    var j := NamedAt(vals, |sizes|, b);
    if sizes[i] <= sizes[j] {
      PrefixFreeOrdered(t, sizes, vals, i, j, stream);
    } else {
      PrefixFreeOrdered(t, sizes, vals, j, i, stream);
    }
  }

  /** A code that is a prefix of another owns an interval around it. */
  lemma Nested(ci: nat, cj: nat, n: nat, m: nat)
    requires n <= m <= MAX_LEN && ci < Pow2(n) && cj < Pow2(m) && BitsOf(ci, n) <= BitsOf(cj, m)
    ensures ci * Weight(n) <= cj * Weight(m) && cj * Weight(m) + Weight(m) <= ci * Weight(n) + Weight(n)
  {
    PrefixInterval(ci, n, BitsOf(cj, m));
    ValueOfCode(cj, m);
    Pow2Add(m - n, MAX_LEN - m);
    Scale(ci, cj, Pow2(m - n), Weight(m));
  }

  lemma BothPrefixes(a: seq<bool>, b: seq<bool>, stream: seq<bool>)
    requires a <= stream && b <= stream && |a| <= |b|
    ensures a <= b
  {}

  lemma PrefixFreeOrdered(t: Table, sizes: seq<nat>, vals: seq<byte>, i: nat, j: nat, stream: seq<bool>)
    requires Canonical(t, sizes, vals) && i < |sizes| && j < |sizes|
    requires sizes[i] <= sizes[j] && t.Bits(vals[i]) <= stream && t.Bits(vals[j]) <= stream
    ensures i == j
  {
    CodeFits(t, sizes, vals, i);
    CodeFits(t, sizes, vals, j);
    BothPrefixes(t.Bits(vals[i]), t.Bits(vals[j]), stream);
    Nested(t.code[vals[i]], t.code[vals[j]], sizes[i], sizes[j]);
    if i != j {
      Apart(sizes, i, j);
    }
  }

  /** Different codes own disjoint intervals. */
  lemma Apart(sizes: seq<nat>, i: nat, j: nat)
    requires i < |sizes| && j < |sizes| && i != j
    ensures Used(sizes, j) + Weight(sizes[j]) <= Used(sizes, i)
         || Used(sizes, i) + Weight(sizes[i]) <= Used(sizes, j)
  {
    if i < j {
      UsedMonotone(sizes, i, j);
    } else {
      UsedMonotone(sizes, j, i);
    }
  }

  lemma Scale(ci: nat, cj: nat, q: nat, p: nat)
    requires p > 0 && ci * q <= cj < (ci + 1) * q
    ensures ci * (q * p) <= cj * p && cj * p + p <= ci * (q * p) + q * p
  {
    MulMonotone(ci * q, cj, p);
    MulMonotone(cj + 1, (ci + 1) * q, p);
    TimesAssoc(ci, q, p);
    TimesAssoc(ci + 1, q, p);
    Succ(ci, q * p);
    Succ(cj, p);
  }

  lemma MulMonotone(a: nat, b: nat, p: nat)
    requires a <= b
    ensures a * p <= b * p
  {
    assert (b - a) * p >= 0;
    assert (b - a) * p == b * p - a * p;
  }

  lemma TimesAssoc(a: nat, b: nat, c: nat)
    ensures a * b * c == a * (b * c)
  {}

  // ---- decoding ----------------------------------------------------------------------

  datatype Symbol = NoSymbol | Symbol(sym: byte, rest: seq<bool>)

  /** The first symbol at or after `from` whose code starts `stream`. */
  function FindFrom(t: Table, stream: seq<bool>, from: nat): Symbol
    requires |t.code| == 256 && |t.size| == 256 && from <= 256
    decreases 256 - from
  {
    if from == 256 then NoSymbol
    else if t.Has(from) && t.Bits(from) <= stream then Symbol(from, stream[t.size[from]..])
    else FindFrom(t, stream, from + 1)
  }

  function DecodeSymbol(t: Table, stream: seq<bool>): Symbol
    requires |t.code| == 256 && |t.size| == 256
  {
    FindFrom(t, stream, 0)
  }

  lemma {:induction false} FindsIt(t: Table, sizes: seq<nat>, vals: seq<byte>, sym: byte, rest: seq<bool>, from: nat)
    requires Canonical(t, sizes, vals) && t.Has(sym) && from <= sym
    ensures FindFrom(t, t.Bits(sym) + rest, from) == Symbol(sym, rest)
    decreases 256 - from
  {
    var stream := t.Bits(sym) + rest;
    if t.Has(from) && t.Bits(from) <= stream {
      PrefixFree(t, sizes, vals, from, sym, stream);
    } else {
      FindsIt(t, sizes, vals, sym, rest, from + 1);
    }
  }

  /** Whatever follows a code, decoding gives back its symbol and what follows. */
  lemma SymbolRoundTrip(t: Table, sizes: seq<nat>, vals: seq<byte>, sym: byte, rest: seq<bool>)
    requires Canonical(t, sizes, vals) && t.Has(sym)
    ensures DecodeSymbol(t, t.Bits(sym) + rest) == Symbol(sym, rest)
  {
    FindsIt(t, sizes, vals, sym, rest, 0);
  }

  // ---- huff_build --------------------------------------------------------------------

  ghost predicate Distinct(vals: seq<byte>, n: nat)
    requires n <= |vals|
  {
    n > 0 ==> Distinct(vals, n - 1) && vals[n - 1] !in Names(vals, n - 1)
  }

  lemma {:induction false} NotEarlier(vals: seq<byte>, n: nat, i: nat, k: nat)
    requires i < k < n <= |vals| && Distinct(vals, n)
    ensures vals[i] != vals[k]
  {
    if k == n - 1 {
      NamedIf(vals, k, i);
    } else {
      NotEarlier(vals, n - 1, i, k);
    }
  }

  lemma {:induction false} NamedIf(vals: seq<byte>, k: nat, i: nat)
    requires i < k <= |vals|
    ensures vals[i] in Names(vals, k)
  {
    if i < k - 1 {
      NamedIf(vals, k - 1, i);
    }
  }

  /** The tables being filled hold the first `k` codes, and `code` is the next one's value. */
  ghost predicate Filled(t: Table, sizes: seq<nat>, vals: seq<byte>, k: nat) {
    && t.Shape() && k <= |sizes| <= |vals|
    && (forall i :: 0 <= i < k ==>
         t.size[vals[i]] == sizes[i] && Starts(t.code[vals[i]], sizes, i))
    && (forall sym: byte :: t.size[sym] > 0 ==> sym in Names(vals, k))
  }

  function Set(t: Table, sym: byte, code: nat, size: nat): Table
    requires |t.code| == 256 && |t.size| == 256
  {
    Table(t.code[sym := code], t.size[sym := size])
  }

  lemma FillOne(t: Table, sizes: seq<nat>, vals: seq<byte>, k: nat, code: nat)
    requires Filled(t, sizes, vals, k) && k < |sizes| && Distinct(vals, |sizes|)
    requires sizes[k] > 0 && Starts(code, sizes, k)
    ensures Filled(Set(t, vals[k], code, sizes[k]), sizes, vals, k + 1)
  {
    var sym := vals[k];
    var t' := Set(t, sym, code, sizes[k]);
    forall i | 0 <= i < k + 1 ensures t'.size[vals[i]] == sizes[i] && Starts(t'.code[vals[i]], sizes, i) {
      if i < k {
        NotEarlier(vals, |sizes|, i, k);
      }
    }
  }

  /** The running code of Annex C when `k` codes are out and the length is `len`: one up after
      each code, doubled for each step in length. */
  function Running(sizes: seq<nat>, k: nat, len: nat): nat
    requires k <= |sizes|
  {
    if k == 0 then 0
    else (Running(sizes, k - 1, sizes[k - 1]) + 1) * Pow2(if len < sizes[k - 1] then 0 else len - sizes[k - 1])
  }

  ghost predicate AtMost(sizes: seq<nat>, k: nat, len: nat)
    requires k <= |sizes|
  {
    k > 0 ==> sizes[k - 1] <= len && AtMost(sizes, k - 1, sizes[k - 1])
  }

  lemma {:induction false} RunningIsUsed(sizes: seq<nat>, k: nat, len: nat)
    requires k <= |sizes| && AtMost(sizes, k, len) && len <= MAX_LEN
    ensures Running(sizes, k, len) * Weight(len) == Used(sizes, k)
  {
    if k > 0 {
      var m := sizes[k - 1];
      RunningIsUsed(sizes, k - 1, m);
      Pow2Add(len - m, MAX_LEN - len);
      Regroup(Running(sizes, k - 1, m), Pow2(len - m), Weight(len));
    }
  }

  lemma Regroup(c: nat, q: nat, p: nat)
    ensures ((c + 1) * q) * p == c * (q * p) + q * p
  {}

  lemma RunningSteps(sizes: seq<nat>, k: nat, len: nat)
    requires k <= |sizes| && AtMost(sizes, k, len) && len <= MAX_LEN
    ensures Running(sizes, k, len + 1) == 2 * Running(sizes, k, len) && AtMost(sizes, k, len + 1)
    ensures k < |sizes| && sizes[k] == len ==>
      Running(sizes, k + 1, len) == Running(sizes, k, len) + 1 && AtMost(sizes, k + 1, len)
  {
    if k > 0 {
      Double(Running(sizes, k - 1, sizes[k - 1]) + 1, Pow2(len - sizes[k - 1]));
    }
  }

  /** A code still to be handed out is below 2^len, so a uint16_t holds it. */
  lemma NextFits(sizes: seq<nat>, k: nat, len: nat)
    requires Kraft(sizes) && k < |sizes| && sizes[k] == len && AtMost(sizes, k, len)
    ensures Running(sizes, k, len) % TWO16 == Running(sizes, k, len)
    ensures Starts(Running(sizes, k, len), sizes, k)
    ensures AtMost(sizes, k + 1, len)
    ensures (Running(sizes, k, len) % TWO16 + 1) % TWO16 == Running(sizes, k + 1, len) % TWO16
  {
    RunningSteps(sizes, k, len);
    RunningIsUsed(sizes, k, len);
    UsedMonotone(sizes, k + 1, |sizes|);
    Pow2Add(len, MAX_LEN - len);
    Fits(Running(sizes, k, len), Pow2(len), Weight(len), Pow2(MAX_LEN));
    Pow2Monotone(len, MAX_LEN);
    Pow2Of16();
  }

  lemma Wrap(x: nat)
    ensures x % TWO16 * 2 % TWO16 == 2 * x % TWO16
  {}

  class HuffTable {
    const code: array<nat>
    const size: array<nat>

    constructor ()
      ensures code.Length == size.Length == 256 && fresh(code) && fresh(size) && code != size
    {
      code := new nat[256];
      size := new nat[256];
    }

    ghost function View(): Table
      reads code, size
    {
      Table(code[..], size[..])
    }

    /** One symbol's entry, and the code after it. */
    method OneCode(ghost sizes: seq<nat>, vals: seq<byte>, k: nat, len: nat, next: nat) returns (after: nat)
      requires code.Length == size.Length == 256 && code != size && Filled(View(), sizes, vals, k)
      requires Kraft(sizes) && Distinct(vals, |sizes|) && k < |sizes| && sizes[k] == len
      requires AtMost(sizes, k, len) && next == Running(sizes, k, len) % TWO16
      modifies code, size
      ensures Filled(View(), sizes, vals, k + 1)
      ensures AtMost(sizes, k + 1, len) && after == Running(sizes, k + 1, len) % TWO16
    {
      NextFits(sizes, k, len);
      FillOne(View(), sizes, vals, k, next);
      code[vals[k]] := next;
      size[vals[k]] := len;
      after := (next + 1) % TWO16;
    }

    method Clear()
      requires code.Length == size.Length == 256 && code != size
      modifies code, size
      ensures forall j :: 0 <= j < 256 ==> code[j] == 0 && size[j] == 0
    {
      for i := 0 to 256
        invariant forall j :: 0 <= j < i ==> code[j] == 0 && size[j] == 0
      {
        code[i], size[i] := 0, 0;
      }
    }

    /** The `count` symbols of one length, the first of them at `start`. */
    method FillLength(ghost sizes: seq<nat>, vals: seq<byte>, count: nat, len: nat, start: nat, first: nat)
      returns (next: nat, k: nat)
      requires code.Length == size.Length == 256 && code != size && Filled(View(), sizes, vals, start)
      requires Kraft(sizes) && Distinct(vals, |sizes|) && start + count <= |sizes| && 0 < len <= MAX_LEN
      requires forall j :: start <= j < start + count ==> sizes[j] == len
      requires AtMost(sizes, start, len) && first == Running(sizes, start, len) % TWO16
      modifies code, size
      ensures k == start + count && Filled(View(), sizes, vals, k)
      ensures AtMost(sizes, k, len) && next == Running(sizes, k, len) % TWO16
    {
      next, k := first, start;
      while k < start + count
        invariant start <= k <= start + count
        invariant AtMost(sizes, k, len) && next == Running(sizes, k, len) % TWO16
        invariant Filled(View(), sizes, vals, k)
      {
        next := OneCode(sizes, vals, k, len, next);
        k := k + 1;
      }
    }

    /** Fills the tables from `bits` and `vals`. The running code is a uint16_t: it can wrap to
        0, but only once every code of a Kraft-feasible list has been handed out. */
    method Build(bits: seq<nat>, vals: seq<byte>)
      requires code.Length == size.Length == 256 && code != size
      requires |bits| == 17 && |Sizes(bits, MAX_LEN)| <= |vals| && Distinct(vals, |Sizes(bits, MAX_LEN)|)
      requires Kraft(Sizes(bits, MAX_LEN))
      modifies code, size
      ensures Canonical(View(), Sizes(bits, MAX_LEN), vals)
    {
      Clear();
      ghost var longest: nat := MAX_LEN;
      FillAll(bits, vals, Sizes(bits, MAX_LEN), longest);
    }

    /** The loop over the lengths. The longest length is a ghost variable here, so that a proof
        about one length does not spell out the list of all sixteen. */
    method FillAll(bits: seq<nat>, vals: seq<byte>, ghost sizes: seq<nat>, ghost longest: nat)
      requires code.Length == size.Length == 256 && code != size
      requires |bits| == 17 && longest == MAX_LEN && sizes == Sizes(bits, longest) && |sizes| <= |vals|
      requires Distinct(vals, |sizes|) && Kraft(sizes) && Filled(View(), sizes, vals, 0)
      modifies code, size
      ensures Canonical(View(), sizes, vals)
    {
      var next: nat, k: nat, len: nat := 0, 0, 1;
      while len <= 16
        invariant 1 <= len <= 17 && k == |Sizes(bits, len - 1)| <= |sizes|
        invariant len == 17 ==> k == |sizes|
        invariant AtMost(sizes, k, len) && next == Running(sizes, k, len) % TWO16
        invariant Filled(View(), sizes, vals, k)
      {
        next, k := NextLength(bits, vals, sizes, longest, len, k, next);
        len := len + 1;
      }
    }

    /** The symbols of one length, and the shift to the next. */
    method NextLength(bits: seq<nat>, vals: seq<byte>, ghost sizes: seq<nat>, ghost longest: nat, len: nat, start: nat, first: nat)
      returns (next: nat, k: nat)
      requires code.Length == size.Length == 256 && code != size
      requires |bits| == 17 && longest == MAX_LEN && sizes == Sizes(bits, longest) && |sizes| <= |vals|
      requires Distinct(vals, |sizes|) && Kraft(sizes) && 1 <= len <= 16 && start == |Sizes(bits, len - 1)| <= |sizes|
      requires AtMost(sizes, start, len) && first == Running(sizes, start, len) % TWO16 && Filled(View(), sizes, vals, start)
      modifies code, size
      ensures k == |Sizes(bits, len)| <= |sizes| && Filled(View(), sizes, vals, k)
      ensures AtMost(sizes, k, len + 1) && next == Running(sizes, k, len + 1) % TWO16
    {
      SizesPrefix(bits, len, longest);
      next, k := FillLength(sizes, vals, bits[len], len, start, first);
      RunningSteps(sizes, k, len);
      Wrap(Running(sizes, k, len));
      next := next * 2 % TWO16;
    }
  }

  lemma {:induction false} SizesPrefix(bits: seq<nat>, len: nat, top: nat)
    requires |bits| == 17 && 1 <= len <= top <= 16
    ensures var all := Sizes(bits, top);
      && Sizes(bits, len) <= all && |Sizes(bits, len)| == |Sizes(bits, len - 1)| + bits[len]
      && forall j :: |Sizes(bits, len - 1)| <= j < |Sizes(bits, len)| ==> all[j] == len
    decreases top - len
  {
    if len < top {
      SizesPrefix(bits, len + 1, top);
    }
  }
}
