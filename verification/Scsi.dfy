/** The SCSI half of msc.c: what each command does to the logical units, and whether it
    answers with data, with status alone, refuses, or waits for write data. */
module Scsi {
  import opened Bytes

  datatype Sense = Sense(key: byte, asc: byte, ascq: byte)

  const SENSE_OK := Sense(0x00, 0x00, 0x00)
  const UNRECOVERED_READ := Sense(0x03, 0x11, 0x00)
  const INVALID_COMMAND := Sense(0x05, 0x20, 0x00)
  const LBA_RANGE := Sense(0x05, 0x21, 0x00)
  const INVALID_FIELD := Sense(0x05, 0x24, 0x00)
  const LUN_NOT_SUPPORTED := Sense(0x05, 0x25, 0x00)
  const WRITE_PROTECT := Sense(0x07, 0x27, 0x00)

  /** A unit: its medium as one run of bytes, its block size and what it last complained of. */
  datatype Lun = Lun(disk: seq<byte>, bs: nat, readOnly: bool, cdrom: bool, sense: Sense) {
    ghost predicate Valid() {
      bs > 0 && |disk| % bs == 0 && |disk| < TWO32
    }

    /** num_blocks() */
    function Blocks(): nat
      requires bs > 0
    {
      |disk| / bs
    }
  }

  /** What the backend does with one read or write: a failing write may leave anything. */
  datatype Backend = Works | Fails(after: seq<byte>)

  datatype Outcome =
    | Status
    | Data(bytes: seq<byte>)
    | Refuse(sense: Sense)
    | AwaitData(lba: nat, count: nat, need: nat)

  /** Replies that carry no state: INQUIRY and its pages, mode pages, format capacities, ... */
  type Text = (nat, seq<byte>) -> seq<byte>

  /** uint32_t multiplication */
  function Mul32(a: nat, b: nat): nat {
    a * b % TWO32
  }

  predicate Reads(op: byte) { op == 0x28 || op == 0xA8 }

  predicate Writes(op: byte) { op == 0x2A || op == 0xAA }

  /** TEST UNIT READY, PREVENT/ALLOW, START/STOP, SYNC CACHE, REZERO, SEEK, VERIFY */
  predicate StatusOnly(op: byte) {
    op in {0x00, 0x1E, 0x1B, 0x35, 0x01, 0x2B, 0x2F}
  }

  /** READ FORMAT CAPACITIES, MODE SENSE(6)/(10), GET EVENT STATUS */
  predicate Described(op: byte) {
    op in {0x23, 0x1A, 0x5A, 0x4A}
  }

  function Lba(cdb: seq<byte>): nat
    requires |cdb| == 16
  {
    Be32(cdb[2..6])
  }

  function Count(cdb: seq<byte>): nat
    requires |cdb| == 16
  {
    if cdb[0] == 0xA8 || cdb[0] == 0xAA then Be32(cdb[6..10]) else Be16(cdb[7..9])
  }

  function SenseReply(s: Sense): seq<byte> {
    [0x70, 0, s.key, 0, 0, 0, 0, 10, 0, 0, 0, 0, s.asc, s.ascq, 0, 0, 0, 0]
  }

  /** The bytes of blocks [lba, lba + count). */
  function ReadBlocks(l: Lun, lba: nat, count: nat): seq<byte>
    requires l.bs > 0 && (lba + count) * l.bs <= |l.disk|
  {
    assert lba * l.bs <= (lba + count) * l.bs;
    l.disk[lba * l.bs..(lba + count) * l.bs]
  }

  function WriteBlocks(l: Lun, lba: nat, count: nat, data: seq<byte>): Lun
    requires l.bs > 0 && (lba + count) * l.bs <= |l.disk|
  {
    assert lba * l.bs <= (lba + count) * l.bs;
    l.(disk := l.disk[..lba * l.bs] + data + l.disk[(lba + count) * l.bs..])
  }

  lemma InRange(l: Lun, lba: nat, count: nat)
    requires l.Valid() && lba + count <= l.Blocks()
    ensures 0 <= lba * l.bs <= (lba + count) * l.bs <= |l.disk|
    ensures (lba + count) * l.bs - lba * l.bs == count * l.bs == Mul32(count, l.bs)
  {
    RangeNumbers(lba, count, l.Blocks(), l.bs);
    assert |l.disk| == l.Blocks() * l.bs;
    assert 0 <= count * l.bs <= |l.disk| < TWO32;
  }

  lemma RangeNumbers(lba: nat, count: nat, nb: nat, bs: nat)
    requires lba + count <= nb
    ensures 0 <= lba * bs <= (lba + count) * bs <= nb * bs
    ensures (lba + count) * bs - lba * bs == count * bs
    ensures 0 <= count * bs <= nb * bs
  {
    MulGap(lba, lba + count, bs);
    MulGap(lba + count, nb, bs);
    MulGap(count, nb, bs);
    MulGap(0, lba, bs);
    assert lba + count - lba == count;
  }

  /** What the command in `cdb` comes to on unit `l`. */
  function Execute(l: Lun, i: nat, cdb: seq<byte>, io: Backend, text: Text): Outcome
    requires l.Valid() && |cdb| == 16
  {
    var op := cdb[0];
    if StatusOnly(op) then Status
    else if op == 0x04 then (if l.readOnly then Refuse(WRITE_PROTECT) else Status)
    else if op == 0x12 then
      if cdb[1] % 2 == 1 && cdb[2] != 0x00 && cdb[2] != 0x80 then Refuse(INVALID_FIELD)
      else Data(text(i, cdb))
    else if Described(op) then Data(text(i, cdb))
    else if op == 0x43 || op == 0x46 then (if l.cdrom then Data(text(i, cdb)) else Refuse(INVALID_COMMAND))
    else if op == 0x25 then Data(PutBe32((l.Blocks() - 1) % TWO32) + PutBe32(l.bs))
    else if op == 0x9E then
      if cdb[1] % 0x20 == 0x10 then
        Data([0, 0, 0, 0] + PutBe32((l.Blocks() - 1) % TWO32) + PutBe32(l.bs) + seq(20, _ => 0))
      else Refuse(INVALID_COMMAND)
    else if op == 0x03 then Data(SenseReply(l.sense))
    else if Reads(op) then
      if Lba(cdb) + Count(cdb) > l.Blocks() then Refuse(LBA_RANGE)
      else if io.Fails? then Refuse(UNRECOVERED_READ)
      else
        InRange(l, Lba(cdb), Count(cdb));
        Data(ReadBlocks(l, Lba(cdb), Count(cdb)))
    else if Writes(op) then
      if l.readOnly then Refuse(WRITE_PROTECT)
      else if Lba(cdb) + Count(cdb) > l.Blocks() then Refuse(LBA_RANGE)
      else AwaitData(Lba(cdb), Count(cdb), Mul32(Count(cdb), l.bs))
    else Refuse(INVALID_COMMAND)
  }

  /** The unit once the command has been answered: sense is set by a refusal and cleared
      once reported. */
  function Settle(l: Lun, cdb: seq<byte>, o: Outcome): Lun
    requires |cdb| == 16
  {
    if o.Refuse? then l.(sense := o.sense)
    else if cdb[0] == 0x03 then l.(sense := SENSE_OK)
    else l
  }

  /** The unit after the backend was handed a completed write. */
  function Store(l: Lun, lba: nat, count: nat, data: seq<byte>, io: Backend): (l': Lun)
    requires l.Valid() && lba + count <= l.Blocks() && |data| == Mul32(count, l.bs)
    ensures l'.Valid() && l'.(disk := l.disk) == l && |l'.disk| == |l.disk|
  {
    InRange(l, lba, count);
    match io
    case Works => WriteBlocks(l, lba, count, data)
    case Fails(after) => if |after| == |l.disk| then l.(disk := after) else l
  }

  // ---- the medium is one array of blocks ---------------------------------------------

  function BlockAt(l: Lun, i: nat): seq<byte>
    requires l.Valid() && i < l.Blocks()
  {
    InRange(l, i, 1);
    ReadBlocks(l, i, 1)
  }

  /** Slices of `was` with [a, b) replaced by `data`. */
  lemma Spliced(was: seq<byte>, a: nat, b: nat, data: seq<byte>, x: nat, y: nat)
    requires a <= b <= |was| && |data| == b - a && x <= y <= |was|
    ensures var now := was[..a] + data + was[b..];
      && |now| == |was|
      && (a <= x && y <= b ==> now[x..y] == data[x - a..y - a])
      && (y <= a || b <= x ==> now[x..y] == was[x..y])
  {}

  lemma MulGap(a: nat, b: nat, c: nat)
    requires a <= b
    ensures a * c <= b * c && (b - a) * c == b * c - a * c
  {
    assert (b - a) * c == b * c - a * c;
    assert (b - a) * c >= 0;
  }

  lemma BlockBounds(bs: nat, lba: nat, count: nat, i: nat)
    ensures i < lba ==> (i + 1) * bs <= lba * bs
    ensures i >= lba + count ==> (lba + count) * bs <= i * bs
    ensures lba <= i < lba + count ==>
      lba * bs <= i * bs && (i + 1) * bs <= (lba + count) * bs
      && (i - lba) * bs == i * bs - lba * bs && (i - lba + 1) * bs == (i + 1) * bs - lba * bs
  {
    if i < lba {
      MulGap(i + 1, lba, bs);
    } else if i >= lba + count {
      MulGap(lba + count, i, bs);
    } else {
      MulGap(lba, i, bs);
      MulGap(lba, i + 1, bs);
      MulGap(i + 1, lba + count, bs);
      assert i + 1 - lba == i - lba + 1;
    }
  }

  /** A stored block reads back as written; every other block keeps its bytes. */
  lemma StoredBlock(l: Lun, lba: nat, count: nat, data: seq<byte>, i: nat)
    requires l.Valid() && lba + count <= l.Blocks() && |data| == count * l.bs && i < l.Blocks()
    ensures (lba + count) * l.bs <= |l.disk| && lba * l.bs <= (lba + count) * l.bs
    ensures var l' := WriteBlocks(l, lba, count, data);
      && l'.Valid() && |l'.disk| == |l.disk| && l'.bs == l.bs
      && (lba <= i < lba + count ==>
           0 <= (i - lba) * l.bs <= (i - lba + 1) * l.bs <= |data|
           && BlockAt(l', i) == data[(i - lba) * l.bs..(i - lba + 1) * l.bs])
      && (!(lba <= i < lba + count) ==> BlockAt(l', i) == BlockAt(l, i))
  {
    InRange(l, lba, count);
    InRange(l, i, 1);
    BlockBounds(l.bs, lba, count, i);
    Spliced(l.disk, lba * l.bs, (lba + count) * l.bs, data, i * l.bs, (i + 1) * l.bs);
  }

  /** Block `i` after a completed write, when it was `was` before: the write's bytes, or what a
      failing backend left there. */
  function Written(l: Lun, lba: nat, count: nat, data: seq<byte>, io: Backend, i: nat, was: seq<byte>): seq<byte>
    requires l.Valid() && lba + count <= l.Blocks() && |data| == Mul32(count, l.bs) && i < l.Blocks()
  {
    match io
    case Works =>
      if lba <= i < lba + count then
        InRange(l, lba, count);
        BlockBounds(l.bs, lba, count, i);
        MulGap(i - lba, i - lba + 1, l.bs);
        MulGap(0, i - lba, l.bs);
        data[(i - lba) * l.bs..(i - lba + 1) * l.bs]
      else was
    case Fails(after) =>
      if |after| == |l.disk| then BlockAt(l.(disk := after), i) else was
  }

  lemma StoreWrites(l: Lun, lba: nat, count: nat, data: seq<byte>, io: Backend, i: nat)
    requires l.Valid() && lba + count <= l.Blocks() && |data| == Mul32(count, l.bs) && i < l.Blocks()
    ensures var l' := Store(l, lba, count, data, io);
      l'.Valid() && l'.Blocks() == l.Blocks() && l'.bs == l.bs
      && BlockAt(l', i) == Written(l, lba, count, data, io, i, BlockAt(l, i))
  {
    InRange(l, lba, count);
    if io.Works? {
      StoredBlock(l, lba, count, data, i);
    }
  }

  /** A read is the blocks it names, one after the other. */
  lemma ReadIsBlocks(l: Lun, lba: nat, count: nat, k: nat)
    requires l.Valid() && lba + count <= l.Blocks() && k < count
    ensures (lba + count) * l.bs <= |l.disk|
    ensures |ReadBlocks(l, lba, count)| == count * l.bs
    ensures 0 <= k * l.bs <= (k + 1) * l.bs <= count * l.bs
    ensures ReadBlocks(l, lba, count)[k * l.bs..(k + 1) * l.bs] == BlockAt(l, lba + k)
  {
    InRange(l, lba, count);
    InRange(l, lba + k, 1);
    BlockOffsets(lba, k, count, l.bs);
    SliceOfSlice(l.disk, lba * l.bs, (lba + count) * l.bs, k * l.bs, (k + 1) * l.bs);
  }

  lemma BlockOffsets(lba: nat, k: nat, count: nat, bs: nat)
    requires k < count
    ensures 0 <= k * bs <= (k + 1) * bs <= count * bs
    ensures lba * bs + k * bs == (lba + k) * bs && lba * bs + (k + 1) * bs == (lba + k + 1) * bs
  {
    MulGap(k + 1, count, bs);
    MulGap(k, k + 1, bs);
    MulGap(0, k, bs);
    Distribute(lba, k, bs);
    Distribute(lba, k + 1, bs);
    assert lba + (k + 1) == lba + k + 1;
  }

  lemma Distribute(a: nat, b: nat, c: nat)
    ensures a * c + b * c == (a + b) * c
  {}

  lemma SliceOfSlice(s: seq<byte>, a: nat, b: nat, x: nat, y: nat)
    requires a <= b <= |s| && x <= y <= b - a
    ensures s[a..b][x..y] == s[a + x..a + y]
  {
    forall i | 0 <= i < y - x ensures s[a..b][x..y][i] == s[a + x..a + y][i] {}
  }

  // ---- the commands, byte by byte ------------------------------------------------------------

  /** The first block a READ or WRITE names: bytes 2 to 5, most significant first. */
  function First(cdb: seq<byte>): (n: nat)
    requires |cdb| == 16
  {
    cdb[2] as nat * 0x100_0000 + cdb[3] as nat * 0x1_0000 + cdb[4] as nat * 0x100 + cdb[5] as nat
  }

  /** How many: bytes 7 and 8, or bytes 6 to 9 of a 12-byte command. */
  function HowMany(cdb: seq<byte>): (n: nat)
    requires |cdb| == 16
  {
    if cdb[0] == 0xA8 || cdb[0] == 0xAA then
      cdb[6] as nat * 0x100_0000 + cdb[7] as nat * 0x1_0000 + cdb[8] as nat * 0x100 + cdb[9] as nat
    else cdb[7] as nat * 0x100 + cdb[8] as nat
  }

  lemma NamedBlocks(cdb: seq<byte>)
    requires |cdb| == 16
    ensures Lba(cdb) == First(cdb) && Count(cdb) == HowMany(cdb)
  {
    WordValues(cdb[2..6]);
    WordValues(cdb[6..10]);
    WordValues(cdb[7..9] + [0, 0]);
  }

  /** The blocks the command names are there. */
  predicate InUnit(l: Lun, cdb: seq<byte>)
    requires l.bs > 0 && |cdb| == 16
  {
    First(cdb) + HowMany(cdb) <= |l.disk| / l.bs
  }

  /** READ(10) and READ(12): the bytes of the blocks named, or a refusal. */
  lemma ReadCommand(l: Lun, i: nat, cdb: seq<byte>, io: Backend, text: Text)
    requires l.Valid() && |cdb| == 16 && cdb[0] in {0x28, 0xA8}
    ensures var o := Execute(l, i, cdb, io, text);
      if !InUnit(l, cdb) then o == Refuse(Sense(0x05, 0x21, 0x00))
      else if io.Fails? then o == Refuse(Sense(0x03, 0x11, 0x00))
      else
        && 0 <= First(cdb) * l.bs <= (First(cdb) + HowMany(cdb)) * l.bs <= |l.disk|
        && o == Data(l.disk[First(cdb) * l.bs..(First(cdb) + HowMany(cdb)) * l.bs])
  {
    NamedBlocks(cdb);
    if InUnit(l, cdb) {
      InRange(l, First(cdb), HowMany(cdb));
    }
  }

  /** WRITE(10) and WRITE(12): data for the blocks named is awaited, or the command is refused. */
  lemma WriteCommand(l: Lun, i: nat, cdb: seq<byte>, io: Backend, text: Text)
    requires l.Valid() && |cdb| == 16 && cdb[0] in {0x2A, 0xAA}
    ensures Execute(l, i, cdb, io, text) ==
      if l.readOnly then Refuse(Sense(0x07, 0x27, 0x00))
      else if !InUnit(l, cdb) then Refuse(Sense(0x05, 0x21, 0x00))
      else AwaitData(First(cdb), HowMany(cdb), HowMany(cdb) * l.bs)
  {
    NamedBlocks(cdb);
    if InUnit(l, cdb) {
      InRange(l, First(cdb), HowMany(cdb));
    }
  }

  /** No other command stores anything. */
  lemma OnlyWritesAwait(l: Lun, i: nat, cdb: seq<byte>, io: Backend, text: Text)
    requires l.Valid() && |cdb| == 16
    ensures Execute(l, i, cdb, io, text).AwaitData? <==> cdb[0] in {0x2A, 0xAA} && !l.readOnly && InUnit(l, cdb)
  {
    NamedBlocks(cdb);
  }

  /** READ CAPACITY(10) and (16): the number of the last block, and the block size. */
  lemma CapacityCommand(l: Lun, i: nat, cdb: seq<byte>, io: Backend, text: Text)
    requires l.Valid() && |cdb| == 16 && (cdb[0] == 0x25 || (cdb[0] == 0x9E && cdb[1] % 32 == 16)) && l.bs < TWO32
    ensures var o := Execute(l, i, cdb, io, text);
      && o.Data? && |o.bytes| == (if cdb[0] == 0x25 then 8 else 32)
      && Capacity(if cdb[0] == 0x25 then o.bytes else o.bytes[4..12], |l.disk| / l.bs, l.bs)
      && (cdb[0] == 0x9E ==> o.bytes[..4] == [0, 0, 0, 0] && forall j :: 12 <= j < 32 ==> o.bytes[j] == 0)
  {
    BlocksFit(l);
    CapacityBytes(l.Blocks(), l.bs);
    CapacityReply(l, i, cdb, io, text);
    Padded(PutBe32((l.Blocks() - 1) % TWO32) + PutBe32(l.bs));
  }

  lemma CapacityReply(l: Lun, i: nat, cdb: seq<byte>, io: Backend, text: Text)
    requires l.Valid() && |cdb| == 16 && (cdb[0] == 0x25 || (cdb[0] == 0x9E && cdb[1] % 32 == 16))
    ensures var s := PutBe32((l.Blocks() - 1) % TWO32) + PutBe32(l.bs);
      Execute(l, i, cdb, io, text) == Data(if cdb[0] == 0x25 then s else [0, 0, 0, 0] + s + seq(20, _ => 0))
  {
    var s := PutBe32((l.Blocks() - 1) % TWO32) + PutBe32(l.bs);
    Assoc([0, 0, 0, 0], PutBe32((l.Blocks() - 1) % TWO32), PutBe32(l.bs));
  }

  lemma Padded(s: seq<byte>)
    requires |s| == 8
    ensures var all := [0, 0, 0, 0] + s + seq(20, _ => 0);
      |all| == 32 && all[4..12] == s && all[..4] == [0, 0, 0, 0] && forall j :: 12 <= j < 32 ==> all[j] == 0
  {}

  /** Four bytes from `at` on, most significant first. */
  function Number(s: seq<byte>, at: nat): nat
    requires at + 4 <= |s|
  {
    s[at] as nat * 0x100_0000 + s[at + 1] as nat * 0x1_0000 + s[at + 2] as nat * 0x100 + s[at + 3] as nat
  }

  /** The last block of `nb`, which wraps when there is none, and the block size. */
  ghost predicate Capacity(s: seq<byte>, nb: nat, bs: nat) {
    |s| == 8 && Number(s, 0) == (if nb == 0 then 0xFFFF_FFFF else nb - 1) && Number(s, 4) == bs
  }

  lemma CapacityBytes(nb: nat, bs: nat)
    requires nb < TWO32 && bs < TWO32
    ensures Capacity(PutBe32((nb - 1) % TWO32) + PutBe32(bs), nb, bs)
  {
    WordValues(PutBe32((nb - 1) % TWO32));
    WordValues(PutBe32(bs));
  }

  lemma BlocksFit(l: Lun)
    requires l.Valid()
    ensures l.Blocks() < TWO32
  {
    InRange(l, 0, l.Blocks());
    MulGap(1, l.bs, l.Blocks());
  }

  /** REQUEST SENSE: 18 bytes, current error, with key and codes at bytes 2, 12 and 13. */
  lemma SenseCommand(l: Lun, i: nat, cdb: seq<byte>, io: Backend, text: Text)
    requires l.Valid() && |cdb| == 16 && cdb[0] == 0x03
    ensures Execute(l, i, cdb, io, text)
         == Data([0x70, 0, l.sense.key, 0, 0, 0, 0, 10, 0, 0, 0, 0, l.sense.asc, l.sense.ascq, 0, 0, 0, 0])
  {}

  predicate Known(op: byte) {
    op in {0x00, 0x01, 0x03, 0x04, 0x12, 0x1A, 0x1B, 0x1E, 0x23, 0x25, 0x28, 0x2A, 0x2B, 0x2F, 0x35, 0x43, 0x46, 0x4A, 0x5A, 0x9E, 0xA8, 0xAA}
  }

  /** The commands that answer with status alone, those that describe the unit, and the refusals
      of everything else. */
  lemma OtherCommands(l: Lun, i: nat, cdb: seq<byte>, io: Backend, text: Text)
    requires l.Valid() && |cdb| == 16
    ensures var o, op := Execute(l, i, cdb, io, text), cdb[0];
      && (op in {0x00, 0x01, 0x1B, 0x1E, 0x2B, 0x2F, 0x35} ==> o == Status)
      && (op == 0x04 ==> o == if l.readOnly then Refuse(Sense(0x07, 0x27, 0x00)) else Status)
      && (op in {0x1A, 0x23, 0x4A, 0x5A} ==> o == Data(text(i, cdb)))
      && (op == 0x12 ==> o == if cdb[1] % 2 == 1 && cdb[2] !in {0x00, 0x80} then Refuse(Sense(0x05, 0x24, 0x00)) else Data(text(i, cdb)))
      && (op in {0x43, 0x46} ==> o == if l.cdrom then Data(text(i, cdb)) else Refuse(Sense(0x05, 0x20, 0x00)))
      && (op == 0x9E && cdb[1] % 32 != 16 ==> o == Refuse(Sense(0x05, 0x20, 0x00)))
      && (!Known(op) ==> o == Refuse(Sense(0x05, 0x20, 0x00)))
  {}

  /** What a WRITE stored, a READ of the same blocks reads. */
  lemma WriteThenRead(l: Lun, lba: nat, count: nat, data: seq<byte>)
    requires l.Valid() && lba + count <= l.Blocks() && |data| == count * l.bs
    ensures 0 <= lba * l.bs <= (lba + count) * l.bs <= |l.disk|
    ensures WriteBlocks(l, lba, count, data).disk[lba * l.bs..(lba + count) * l.bs] == data
  {
    InRange(l, lba, count);
    Spliced(l.disk, lba * l.bs, (lba + count) * l.bs, data, lba * l.bs, (lba + count) * l.bs);
  }
}
