/** The Annex K tables jpeg.c carries: every list is Kraft-feasible, names no symbol twice and
    names every symbol the entropy coder sends. */
module AnnexK {
  import opened Bytes
  import opened Bits
  import opened Huffman
  import opened EntropyCoder
  import opened JpegScan
  import opened BitWriter

  const DCL_BITS: seq<nat> := [0, 0, 1, 5, 1, 1, 1, 1, 1, 1, 0, 0, 0, 0, 0, 0, 0]
  const DCC_BITS: seq<nat> := [0, 0, 3, 1, 1, 1, 1, 1, 1, 1, 1, 1, 0, 0, 0, 0, 0]
  const ACL_BITS: seq<nat> := [0, 0, 2, 1, 3, 3, 2, 4, 3, 5, 5, 4, 4, 0, 0, 1, 0x7d]
  const ACC_BITS: seq<nat> := [0, 0, 2, 1, 2, 4, 4, 3, 4, 7, 5, 4, 4, 0, 1, 2, 0x77]

  /** DCL_VAL and DCC_VAL. */
  function DcVal(): seq<byte> {
    seq(12, i requires 0 <= i < 12 => i)
  }

  /** How ACL_VAL and ACC_VAL start. The rest of each is every other symbol, ascending. */
  const ACL_HEAD: seq<seq<byte>> := [
    [0x01, 0x02, 0x03, 0x00, 0x04, 0x11, 0x05, 0x12],
    [0x21, 0x31, 0x41, 0x06, 0x13, 0x51, 0x61, 0x07],
    [0x22, 0x71, 0x14, 0x32, 0x81, 0x91, 0xa1, 0x08],
    [0x23, 0x42, 0xb1, 0xc1, 0x15, 0x52, 0xd1, 0xf0],
    [0x24, 0x33, 0x62, 0x72, 0x82]]

  const ACC_HEAD: seq<seq<byte>> := [
    [0x00, 0x01, 0x02, 0x03, 0x11, 0x04, 0x05, 0x21],
    [0x31, 0x06, 0x12, 0x41, 0x51, 0x07, 0x61, 0x71],
    [0x13, 0x22, 0x32, 0x81, 0x08, 0x14, 0x42, 0x91],
    [0xa1, 0xb1, 0xc1, 0x09, 0x23, 0x33, 0x52, 0xf0],
    [0x15, 0x62, 0x72, 0xd1, 0x0a, 0x16, 0x24, 0x34],
    [0xe1, 0x25, 0xf1]]

  predicate Needed(sym: byte) {
    sym == 0 || sym == 0xF0 || 1 <= sym % 16 <= 10
  }

  /** Where a symbol is in the head of ACL_VAL. */
  function PlaceInAcl(sym: byte): nat {
    match sym
    case 0x01 => 0 case 0x02 => 1 case 0x03 => 2 case 0x00 => 3 case 0x04 => 4 case 0x11 => 5
    case 0x05 => 6 case 0x12 => 7 case 0x21 => 8 case 0x31 => 9 case 0x41 => 10 case 0x06 => 11
    case 0x13 => 12 case 0x51 => 13 case 0x61 => 14 case 0x07 => 15 case 0x22 => 16 case 0x71 => 17
    case 0x14 => 18 case 0x32 => 19 case 0x81 => 20 case 0x91 => 21 case 0xa1 => 22 case 0x08 => 23
    case 0x23 => 24 case 0x42 => 25 case 0xb1 => 26 case 0xc1 => 27 case 0x15 => 28 case 0x52 => 29
    case 0xd1 => 30 case 0xf0 => 31 case 0x24 => 32 case 0x33 => 33 case 0x62 => 34 case 0x72 => 35
    case 0x82 => 36
    case _ => 37
  }

  predicate AclRow(r: nat, n: nat) {
    n == 0 || (AclRow(r, n - 1) && AclAt(r, n - 1))
  }

  predicate AclAt(r: nat, c: nat) {
    && r < |ACL_HEAD| && c < |ACL_HEAD[r]|
    && PlaceInAcl(ACL_HEAD[r][c]) == 8 * r + c && Needed(ACL_HEAD[r][c])
  }

  lemma AclRow0() ensures AclRow(0, 8) {}
  lemma AclRow1() ensures AclRow(1, 8) {}
  lemma AclRow2() ensures AclRow(2, 8) {}
  lemma AclRow3() ensures AclRow(3, 8) {}
  lemma AclRow4() ensures AclRow(4, 5) {}

  lemma {:induction false} AclFrom(r: nat, c: nat, n: nat)
    requires c < n && AclRow(r, n)
    ensures AclAt(r, c)
  {
    if c < n - 1 {
      AclFrom(r, c, n - 1);
    }
  }

  lemma AclListed(i: nat)
    requires i < 37
    ensures AclAt(i / 8, i % 8)
  {
    match i / 8
    case 0 => AclRow0();
    case 1 => AclRow1();
    case 2 => AclRow2();
    case 3 => AclRow3();
    case 4 => AclRow4();
    AclFrom(i / 8, i % 8, if i / 8 == 4 then 5 else 8);
  }

  /** Where a symbol is in the head of ACC_VAL. */
  function PlaceInAcc(sym: byte): nat {
    match sym
    case 0x00 => 0 case 0x01 => 1 case 0x02 => 2 case 0x03 => 3 case 0x11 => 4 case 0x04 => 5
    case 0x05 => 6 case 0x21 => 7 case 0x31 => 8 case 0x06 => 9 case 0x12 => 10 case 0x41 => 11
    case 0x51 => 12 case 0x07 => 13 case 0x61 => 14 case 0x71 => 15 case 0x13 => 16 case 0x22 => 17
    case 0x32 => 18 case 0x81 => 19 case 0x08 => 20 case 0x14 => 21 case 0x42 => 22 case 0x91 => 23
    case 0xa1 => 24 case 0xb1 => 25 case 0xc1 => 26 case 0x09 => 27 case 0x23 => 28 case 0x33 => 29
    case 0x52 => 30 case 0xf0 => 31 case 0x15 => 32 case 0x62 => 33 case 0x72 => 34 case 0xd1 => 35
    case 0x0a => 36 case 0x16 => 37 case 0x24 => 38 case 0x34 => 39 case 0xe1 => 40 case 0x25 => 41
    case 0xf1 => 42
    case _ => 43
  }

  predicate AccRow(r: nat, n: nat) {
    n == 0 || (AccRow(r, n - 1) && AccAt(r, n - 1))
  }

  predicate AccAt(r: nat, c: nat) {
    && r < |ACC_HEAD| && c < |ACC_HEAD[r]|
    && PlaceInAcc(ACC_HEAD[r][c]) == 8 * r + c && Needed(ACC_HEAD[r][c])
  }

  lemma AccRow0Half() ensures AccRow(0, 4) {}
  lemma AccRow0() ensures AccRow(0, 8)
  {
    AccRow0Half();
    assert AccAt(0, 4) && AccAt(0, 5);
    assert AccAt(0, 6) && AccAt(0, 7);
    assert AccRow(0, 6);
  }
  lemma AccRow1() ensures AccRow(1, 8) {}
  lemma AccRow2() ensures AccRow(2, 8) {}
  lemma AccRow3() ensures AccRow(3, 8) {}
  lemma AccRow4() ensures AccRow(4, 8) {}
  lemma AccRow5() ensures AccRow(5, 3) {}

  lemma {:induction false} AccFrom(r: nat, c: nat, n: nat)
    requires c < n && AccRow(r, n)
    ensures AccAt(r, c)
  {
    if c < n - 1 {
      AccFrom(r, c, n - 1);
    }
  }

  lemma AccListed(i: nat)
    requires i < 43
    ensures AccAt(i / 8, i % 8)
  {
    match i / 8
    case 0 => AccRow0();
    case 1 => AccRow1();
    case 2 => AccRow2();
    case 3 => AccRow3();
    case 4 => AccRow4();
    case 5 => AccRow5();
    AccFrom(i / 8, i % 8, if i / 8 == 5 then 3 else 8);
  }

  // ---- whole lists ---------------------------------------------------------------------

  function AclHead(): (h: seq<byte>) {
    seq(37, i requires 0 <= i < 37 => AclListed(i); ACL_HEAD[i / 8][i % 8])
  }

  function AccHead(): (h: seq<byte>) {
    seq(43, i requires 0 <= i < 43 => AccListed(i); ACC_HEAD[i / 8][i % 8])
  }

  /** The needed symbols below `n` that are not in `head`, ascending. */
  function Rest(head: seq<byte>, n: nat): seq<byte>
    requires n <= 256
  {
    if n == 0 then [] else Rest(head, n - 1) + if Needed(n - 1) && n - 1 !in head then [n - 1] else []
  }

  function Listing(head: seq<byte>): seq<byte> {
    head + Rest(head, 256)
  }

  lemma {:induction false} NamesAre(vals: seq<byte>, n: nat)
    requires n <= |vals|
    ensures forall sym: byte :: sym in Names(vals, n) <==> sym in vals[..n]
  {
    if n > 0 {
      NamesAre(vals, n - 1);
      assert vals[..n] == vals[..n - 1] + [vals[n - 1]];
    }
  }

  lemma {:induction false} RestIs(head: seq<byte>, n: nat)
    requires n <= 256
    ensures forall sym: byte :: sym in Rest(head, n) <==> sym < n && Needed(sym) && sym !in head
  {
    if n > 0 {
      RestIs(head, n - 1);
    }
  }

  lemma {:induction false} DistinctPrefix(a: seq<byte>, b: seq<byte>, n: nat)
    requires n <= |a| && Distinct(a, n)
    ensures Distinct(a + b, n)
  {
    if n > 0 {
      DistinctPrefix(a, b, n - 1);
      NamesAre(a, n - 1);
      NamesAre(a + b, n - 1);
      assert (a + b)[..n - 1] == a[..n - 1];
    }
  }

  /** A new symbol at the end keeps a list distinct. */
  lemma DistinctSnoc(a: seq<byte>, sym: byte)
    requires Distinct(a, |a|) && sym !in a
    ensures Distinct(a + [sym], |a| + 1)
  {
    DistinctPrefix(a, [sym], |a|);
    NamesAre(a + [sym], |a|);
    assert (a + [sym])[..|a|] == a;
  }

  lemma {:induction false} RestDistinct(head: seq<byte>, n: nat)
    requires n <= 256 && Distinct(head, |head|)
    ensures Distinct(head + Rest(head, n), |head + Rest(head, n)|)
  {
    if n == 0 {
      assert head + [] == head;
    } else {
      RestDistinct(head, n - 1);
      RestIs(head, n - 1);
      var before := head + Rest(head, n - 1);
      if Needed(n - 1) && n - 1 !in head {
        DistinctSnoc(before, n - 1);
        assert head + Rest(head, n) == before + [n - 1];
      } else {
        assert Rest(head, n) == Rest(head, n - 1);
      }
    }
  }

  /** The largest category of an AC coefficient, and how many run lengths a symbol tells apart. */
  const LARGEST: nat := 10
  const RUNS: nat := 16

  /** The symbols 16 * r + 1 to 16 * r + 10 of the runs below `r`, with EOB and ZRL. */
  function Symbols(r: nat): set<byte>
    requires r <= 16
  {
    if r == 0 then {0, 0xF0} else Symbols(r - 1) + Row(16 * (r - 1), LARGEST)
  }

  function Row(low: nat, w: nat): set<byte>
    requires low + w < 256
  {
    if w == 0 then {} else Row(low, w - 1) + {low + w}
  }

  lemma {:induction false} RowCount(low: nat, w: nat)
    requires low + w < 256
    ensures |Row(low, w)| == w && forall sym: byte :: sym in Row(low, w) <==> low < sym <= low + w
  {
    if w > 0 {
      RowCount(low, w - 1);
    }
  }

  predicate Below(sym: byte, r: nat) {
    sym < 16 * r && 1 <= sym % 16 <= 10
  }

  lemma InRow(sym: byte, r: nat)
    requires r < 16
    ensures 16 * r < sym <= 16 * r + 10 <==> Below(sym, r + 1) && !Below(sym, r)
  {
    if 16 * r <= sym < 16 * (r + 1) {
      assert sym % 16 == sym - 16 * r;
    }
  }

  lemma {:induction false} SymbolsAre(sym: byte, r: nat)
    requires r <= 16
    ensures sym in Symbols(r) <==> sym == 0 || sym == 0xF0 || Below(sym, r)
  {
    if r > 0 {
      SymbolsAre(sym, r - 1);
      RowCount(16 * (r - 1), LARGEST);
      InRow(sym, r - 1);
    }
  }

  lemma Union(a: set<byte>, b: set<byte>)
    requires forall x :: x in a ==> x !in b
    ensures |a + b| == |a| + |b|
  {
    assert a * b == {};
  }

  lemma {:induction false} SymbolsCount(r: nat)
    requires r <= 16
    ensures |Symbols(r)| == 2 + LARGEST * r
  {
    if r > 0 {
      SymbolsCount(r - 1);
      NextRow(r - 1);
    }
  }

  lemma NextRow(r: nat)
    requires r < 16
    ensures |Symbols(r + 1)| == |Symbols(r)| + LARGEST
  {
    var row := Row(16 * r, LARGEST);
    RowCount(16 * r, LARGEST);
    forall sym: byte | sym in Symbols(r) ensures sym !in row {
      SymbolsAre(sym, r);
    }
    Union(Symbols(r), row);
  }

  lemma AllNeeded() returns (all: set<byte>)
    ensures |all| == 162 && forall sym: byte :: sym in all <==> Needed(sym)
  {
    all := Symbols(RUNS);
    SymbolsCount(RUNS);
    forall sym: byte ensures sym in all <==> Needed(sym) {
      SymbolsAre(sym, RUNS);
    }
  }

  lemma {:induction false} NamesCount(vals: seq<byte>, n: nat)
    requires n <= |vals| && Distinct(vals, n)
    ensures |Names(vals, n)| == n
  {
    if n > 0 {
      NamesCount(vals, n - 1);
    }
  }

  /** A distinct head of needed symbols and the rest list all 162 of them once. */
  lemma ListsAll(head: seq<byte>)
    requires Distinct(head, |head|) && forall sym :: sym in head ==> Needed(sym)
    ensures var v := Listing(head); |v| == 162 && Distinct(v, 162) && (forall sym: byte :: Needed(sym) <==> sym in Names(v, 162))
  {
    var v := Listing(head);
    RestDistinct(head, 256);
    ListingNames(head);
    var all := AllNeeded();
    assert Names(v, |v|) == all;
    NamesCount(v, |v|);
  }

  lemma ListingNames(head: seq<byte>)
    requires forall sym :: sym in head ==> Needed(sym)
    ensures var v := Listing(head); forall sym: byte :: Needed(sym) <==> sym in Names(v, |v|)
  {
    var v := Listing(head);
    RestIs(head, 256);
    NamesAre(v, |v|);
    assert v[..|v|] == v;
  }

  // ---- feasibility -------------------------------------------------------------------

  /** How many of the codes of length `n` are used or have a used prefix. */
  function Taken(bits: seq<nat>, n: nat): nat
    requires n < |bits|
  {
    if n == 0 then 0 else 2 * Taken(bits, n - 1) + bits[n]
  }

  function Copies(n: nat, m: nat): seq<nat> {
    seq(m, _ => n)
  }

  lemma {:induction false} UsedCopies(sizes: seq<nat>, n: nat, m: nat)
    ensures Used(sizes + Copies(n, m), |sizes| + m) == Used(sizes, |sizes|) + m * Weight(n)
  {
    if m == 0 {
      assert sizes + Copies(n, m) == sizes;
    } else {
      UsedCopies(sizes, n, m - 1);
      UsedPrefix(sizes + Copies(n, m - 1), sizes + Copies(n, m), |sizes| + m - 1);
      Succ(m - 1, Weight(n));
    }
  }

  lemma {:induction false} UsedPrefix(a: seq<nat>, b: seq<nat>, k: nat)
    requires a <= b && k <= |a|
    ensures Used(a, k) == Used(b, k)
  {
    if k > 0 {
      UsedPrefix(a, b, k - 1);
    }
  }

  lemma {:induction false} UsedIsTaken(bits: seq<nat>, n: nat)
    requires n < |bits| && n <= 16
    ensures Used(Sizes(bits, n), |Sizes(bits, n)|) == Taken(bits, n) * Pow2(16 - n)
  {
    if n > 0 {
      UsedIsTaken(bits, n - 1);
      UsedCopies(Sizes(bits, n - 1), n, bits[n]);
      assert Sizes(bits, n) == Sizes(bits, n - 1) + Copies(n, bits[n]);
      Level(Taken(bits, n - 1), bits[n], Pow2(16 - n));
    }
  }

  lemma Level(taken: nat, count: nat, p: nat)
    ensures (2 * taken + count) * p == taken * (2 * p) + count * p
  {}

  /** A list is Kraft-feasible exactly when its codes of the full length fit in 16 bits. */
  lemma FeasibleIff(bits: seq<nat>)
    requires |bits| == 17
    ensures Kraft(Sizes(bits, MAX_LEN)) <==> Taken(bits, MAX_LEN) <= TWO16
  {
    Pow2Of16();
    UsedIsTaken(bits, MAX_LEN);
    assert Pow2(MAX_LEN - MAX_LEN) == 1;
  }

  function Total(bits: seq<nat>, n: nat): nat
    requires n < |bits|
  {
    if n == 0 then 0 else Total(bits, n - 1) + bits[n]
  }

  lemma {:induction false} SizesTotal(bits: seq<nat>, n: nat)
    requires n < |bits|
    ensures |Sizes(bits, n)| == Total(bits, n)
  {
    if n > 0 {
      SizesTotal(bits, n - 1);
    }
  }

  lemma FullSizes(bits: seq<nat>, total: nat)
    requires |bits| == 17 && Total(bits, 16) == total && Taken(bits, 16) <= TWO16
    ensures Kraft(Sizes(bits, MAX_LEN)) && |Sizes(bits, MAX_LEN)| == total
  {
    SizesTotal(bits, MAX_LEN);
    FeasibleIff(bits);
  }

  lemma DclShort()
    ensures |DCL_BITS| == 17 && Total(DCL_BITS, 8) == 11 && Taken(DCL_BITS, 8) == 255
  {
    assert Total(DCL_BITS, 4) == 7 && Taken(DCL_BITS, 4) == 15;
  }

  lemma DclCounts()
    ensures |DCL_BITS| == 17 && Total(DCL_BITS, 16) == 12 && Taken(DCL_BITS, 16) == 65408
  {
    DclShort();
    assert Total(DCL_BITS, 12) == 12 && Taken(DCL_BITS, 12) == 4088;
  }

  lemma DclSizes()
    ensures Kraft(Sizes(DCL_BITS, MAX_LEN)) && |Sizes(DCL_BITS, MAX_LEN)| == 12
  {
    DclCounts();
    FullSizes(DCL_BITS, 12);
  }

  lemma DccShort()
    ensures |DCC_BITS| == 17 && Total(DCC_BITS, 8) == 9 && Taken(DCC_BITS, 8) == 255
  {
    assert Total(DCC_BITS, 4) == 5 && Taken(DCC_BITS, 4) == 15;
  }

  lemma DccCounts()
    ensures |DCC_BITS| == 17 && Total(DCC_BITS, 16) == 12 && Taken(DCC_BITS, 16) == 65504
  {
    DccShort();
    assert Total(DCC_BITS, 12) == 12 && Taken(DCC_BITS, 12) == 4094;
  }

  lemma DccSizes()
    ensures Kraft(Sizes(DCC_BITS, MAX_LEN)) && |Sizes(DCC_BITS, MAX_LEN)| == 12
  {
    DccCounts();
    FullSizes(DCC_BITS, 12);
  }

  lemma AclShort()
    ensures |ACL_BITS| == 17 && Total(ACL_BITS, 8) == 18 && Taken(ACL_BITS, 8) == 251
  {
    assert Total(ACL_BITS, 4) == 6 && Taken(ACL_BITS, 4) == 13;
  }

  lemma AclCounts()
    ensures |ACL_BITS| == 17 && Total(ACL_BITS, 16) == 162 && Taken(ACL_BITS, 16) == 65535
  {
    AclShort();
    assert Total(ACL_BITS, 12) == 36 && Taken(ACL_BITS, 12) == 4088;
  }

  lemma AclSizes()
    ensures Kraft(Sizes(ACL_BITS, MAX_LEN)) && |Sizes(ACL_BITS, MAX_LEN)| == 162
  {
    AclCounts();
    FullSizes(ACL_BITS, 162);
  }

  lemma AccShort()
    ensures |ACC_BITS| == 17 && Total(ACC_BITS, 8) == 20 && Taken(ACC_BITS, 8) == 250
  {
    assert Total(ACC_BITS, 4) == 5 && Taken(ACC_BITS, 4) == 12;
  }

  lemma AccCounts()
    ensures |ACC_BITS| == 17 && Total(ACC_BITS, 16) == 162 && Taken(ACC_BITS, 16) == 65535
  {
    AccShort();
    assert Total(ACC_BITS, 12) == 40 && Taken(ACC_BITS, 12) == 4088;
  }

  lemma AccSizes()
    ensures Kraft(Sizes(ACC_BITS, MAX_LEN)) && |Sizes(ACC_BITS, MAX_LEN)| == 162
  {
    AccCounts();
    FullSizes(ACC_BITS, 162);
  }

  lemma {:induction false} DcDistinct(n: nat)
    requires n <= 12
    ensures Distinct(DcVal(), n) && forall sym: byte :: sym in Names(DcVal(), n) <==> sym < n
  {
    if n > 0 {
      DcDistinct(n - 1);
    }
  }

  lemma {:induction false} AclDistinct(n: nat)
    requires n <= 37
    ensures Distinct(AclHead(), n)
  {
    if n > 0 {
      AclDistinct(n - 1);
      AclListed(n - 1);
      if AclHead()[n - 1] in Names(AclHead(), n - 1) {
        var i := NamedAt(AclHead(), n - 1, AclHead()[n - 1]);
        AclListed(i);
      }
    }
  }

  lemma {:induction false} AccDistinct(n: nat)
    requires n <= 43
    ensures Distinct(AccHead(), n)
  {
    if n > 0 {
      AccDistinct(n - 1);
      AccListed(n - 1);
      if AccHead()[n - 1] in Names(AccHead(), n - 1) {
        var i := NamedAt(AccHead(), n - 1, AccHead()[n - 1]);
        AccListed(i);
      }
    }
  }

  lemma HeadsNeeded()
    ensures forall i :: 0 <= i < 37 ==> Needed(AclHead()[i])
    ensures forall i :: 0 <= i < 43 ==> Needed(AccHead()[i])
  {
    forall i | 0 <= i < 37 ensures Needed(AclHead()[i]) {
      AclListed(i);
    }
    forall i | 0 <= i < 43 ensures Needed(AccHead()[i]) {
      AccListed(i);
    }
  }

  lemma HasNamed(t: Table, sizes: seq<nat>, vals: seq<byte>, sym: byte)
    requires Canonical(t, sizes, vals) && sym in Names(vals, |sizes|)
    ensures t.Has(sym)
  {
    var k := NamedAt(vals, |sizes|, sym);
  }

  lemma DcGood(t: Table, sizes: seq<nat>)
    requires Canonical(t, sizes, DcVal()) && |sizes| == 12
    ensures DcTable(t)
  {
    DcDistinct(12);
    forall c: byte | c <= 11 ensures t.Has(c) {
      HasNamed(t, sizes, DcVal(), c);
    }
  }

  lemma HasNeeded(t: Table, sizes: seq<nat>, head: seq<byte>)
    requires Distinct(head, |head|) && forall sym :: sym in head ==> Needed(sym)
    requires Canonical(t, sizes, Listing(head)) && |sizes| == 162
    ensures forall sym: byte :: Needed(sym) ==> t.Has(sym)
  {
    ListsAll(head);
    forall sym: byte | Needed(sym) ensures t.Has(sym) {
      HasNamed(t, sizes, Listing(head), sym);
    }
  }

  lemma NeedsRunSize(run: nat, category: nat)
    requires run < 16 && 1 <= category <= 10
    ensures Needed(RunSize(run, category))
  {
    assert (16 * run + category) % 16 == category;
  }

  lemma AcGood(t: Table, sizes: seq<nat>, head: seq<byte>)
    requires Distinct(head, |head|) && forall sym :: sym in head ==> Needed(sym)
    requires Canonical(t, sizes, Listing(head)) && |sizes| == 162
    ensures AcTable(t)
  {
    HasNeeded(t, sizes, head);
    forall run, category | 0 <= run < 16 && 1 <= category <= 10 ensures t.Has(RunSize(run, category)) {
      NeedsRunSize(run, category);
    }
  }

  method BuildOne(bits: seq<nat>, vals: seq<byte>) returns (t: Table)
    requires |bits| == 17 && Kraft(Sizes(bits, MAX_LEN)) && |Sizes(bits, MAX_LEN)| == |vals| && Distinct(vals, |vals|)
    ensures Canonical(t, Sizes(bits, MAX_LEN), vals)
  {
    var h := new HuffTable();
    h.Build(bits, vals);
    t := Table(h.code[..], h.size[..]);
  }

  /** Each table is the canonical code of its own Annex K list: what a decoder rebuilds from the
      lists the headers carry. */
  ghost predicate OfAnnexK(t: Tables) {
    && Canonical(t.dcl, Sizes(DCL_BITS, MAX_LEN), DcVal()) && Canonical(t.acl, Sizes(ACL_BITS, MAX_LEN), Listing(AclHead()))
    && Canonical(t.dcc, Sizes(DCC_BITS, MAX_LEN), DcVal()) && Canonical(t.acc, Sizes(ACC_BITS, MAX_LEN), Listing(AccHead()))
  }

  lemma AnnexKGood(t: Tables)
    requires OfAnnexK(t)
    ensures t.Good()
  {
    DclSizes();
    DccSizes();
    AclSizes();
    AccSizes();
    HeadsNeeded();
    AclDistinct(37);
    AccDistinct(43);
    DcGood(t.dcl, Sizes(DCL_BITS, MAX_LEN));
    AcGood(t.acl, Sizes(ACL_BITS, MAX_LEN), AclHead());
    DcGood(t.dcc, Sizes(DCC_BITS, MAX_LEN));
    AcGood(t.acc, Sizes(ACC_BITS, MAX_LEN), AccHead());
  }

  lemma AnnexKSame(t: Tables, d: Tables)
    requires OfAnnexK(t) && OfAnnexK(d)
    ensures SameTables(t, d)
  {
    CanonicalSame(t.dcl, d.dcl, Sizes(DCL_BITS, MAX_LEN), DcVal());
    CanonicalSame(t.acl, d.acl, Sizes(ACL_BITS, MAX_LEN), Listing(AclHead()));
    CanonicalSame(t.dcc, d.dcc, Sizes(DCC_BITS, MAX_LEN), DcVal());
    CanonicalSame(t.acc, d.acc, Sizes(ACC_BITS, MAX_LEN), Listing(AccHead()));
  }

  /** The four tables jpeg_encode_yuyv builds: each from its own list, with every code the scan
      needs. */
  method BuildTables() returns (t: Tables)
    ensures OfAnnexK(t) && t.Good()
  {
    DclSizes();
    DccSizes();
    AclSizes();
    AccSizes();
    HeadsNeeded();
    DcDistinct(12);
    AclDistinct(37);
    AccDistinct(43);
    ListsAll(AclHead());
    ListsAll(AccHead());
    var dcl := BuildOne(DCL_BITS, DcVal());
    var acl := BuildOne(ACL_BITS, Listing(AclHead()));
    var dcc := BuildOne(DCC_BITS, DcVal());
    var acc := BuildOne(ACC_BITS, Listing(AccHead()));
    t := Tables(dcl, acl, dcc, acc);
    AnnexKGood(t);
  }

  /** jpeg_encode_yuyv from the Huffman tables on, for coefficients within the tables: every
      decoder that has rebuilt the tables from the Annex K lists recovers the coefficients. */
  method EncodeImage(w: BitWriter, mcus: seq<Mcu>) returns (t: Tables)
    requires w.Valid() && w.Bits() == [] && ScanInRange(mcus, Dc(0, 0, 0))
    modifies w, w.out
    ensures w.len == |w.written| && (w.ok ==> old(w.ok) && w.len <= w.out.Length && w.out[..w.len] == w.written)
    ensures OfAnnexK(t) && t.Good() && w.base == old(w.base) && |w.base| <= |w.written|
    ensures w.written == w.base + Segment(w.written, |w.base|) + [0xFF, 0xD9]
    ensures forall d: Tables :: OfAnnexK(d) ==> d.Good() && Recovers(d, Segment(w.written, |w.base|), mcus)
  {
    t := BuildTables();
    EncodeScan(w, t, mcus);
    forall d: Tables | OfAnnexK(d) ensures d.Good() && Recovers(d, Segment(w.written, |w.base|), mcus) {
      AnnexKGood(d);
      AnnexKSame(t, d);
    }
  }
}
