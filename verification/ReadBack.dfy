/** A unit as a host uses it: what is written to a range of blocks is what is read from it. */
module ReadBack {
  import opened Bytes
  import opened Scsi
  import opened BulkOnly
  import opened BotHost
  import opened Storage

  /** An exchange that hands no write to a unit leaves its medium alone. */
  lemma MediumKept(ms: seq<Msc>, xs: seq<Exchange>, k: nat, text: Text, u: nat)
    requires Session(ms, xs, text) && k < |xs| && u < |ms[0].luns|
    ensures ms[k].Valid() && xs[k].cbw.Valid() && u < |ms[k].luns| == |ms[k + 1].luns|
    ensures !Hands(ms[k], xs[k], u) ==> ms[k + 1].luns[u].disk == ms[k].luns[u].disk && ms[k + 1].luns[u].bs == ms[k].luns[u].bs
    ensures Hands(ms[k], xs[k], u) && xs[k].io.Works? ==>
      var l, cdb := ms[k].luns[u], xs[k].cbw.cdb;
      && First(cdb) + HowMany(cdb) <= l.Blocks() && |Flatten(xs[k].chunks)| == HowMany(cdb) * l.bs
      && 0 <= First(cdb) * l.bs <= (First(cdb) + HowMany(cdb)) * l.bs <= |l.disk|
      && ms[k + 1].luns[u].disk == WriteBlocks(l, First(cdb), HowMany(cdb), Flatten(xs[k].chunks)).disk && ms[k + 1].luns[u].bs == l.bs
  {
    SessionHeld(ms, xs, k, text);
    SessionHeld(ms, xs, k + 1, text);
    UnitsAt(ms, xs, k, text);
    HandsAwaits(ms[k], xs[k], text, u);
    if Hands(ms[k], xs[k], u) {
      InRange(ms[k].luns[u], First(xs[k].cbw.cdb), HowMany(xs[k].cbw.cdb));
    }
  }

  ghost predicate SameMedium(a: Msc, b: Msc, u: nat) {
    u < |a.luns| && u < |b.luns| && a.luns[u].disk == b.luns[u].disk && a.luns[u].bs == b.luns[u].bs
  }

  /** The unit's medium at step `n` is what step `k` had. */
  lemma {:induction false} MediumSince(ms: seq<Msc>, k: nat, n: nat, u: nat)
    requires k <= n < |ms| && u < |ms[k].luns|
    requires forall j :: k <= j < n ==> SameMedium(ms[j + 1], ms[j], u)
    ensures SameMedium(ms[n], ms[k], u)
    decreases n - k
  {
    if n > k {
      MediumSince(ms, k, n - 1, u);
      assert SameMedium(ms[n - 1 + 1], ms[n - 1], u);
    }
  }

  /** Between steps `k` and `n` no write is handed to the unit. */
  ghost predicate NoneHanded(ms: seq<Msc>, xs: seq<Exchange>, k: nat, n: nat, u: nat) {
    && n <= |xs| && n < |ms|
    && forall j :: k <= j < n ==> ms[j].Valid() && xs[j].cbw.Valid() && !Hands(ms[j], xs[j], u)
  }

  lemma MediumStays(ms: seq<Msc>, xs: seq<Exchange>, k: nat, n: nat, text: Text, u: nat)
    requires Session(ms, xs, text) && k <= n <= |xs| && u < |ms[0].luns| && NoneHanded(ms, xs, k, n, u)
    ensures SameMedium(ms[n], ms[k], u) && ms[n].Valid()
  {
    SessionHeld(ms, xs, k, text);
    SessionHeld(ms, xs, n, text);
    forall j | k <= j < n ensures SameMedium(ms[j + 1], ms[j], u) {
      MediumKept(ms, xs, j, text, u);
    }
    MediumSince(ms, k, n, u);
  }

  /** What a WRITE sends to a unit, a later READ of the same blocks returns, as long as no other
      write was handed to the unit in between. */
  lemma WriteReadBack(ms: seq<Msc>, xs: seq<Exchange>, k: nat, n: nat, text: Text, x: Exchange)
    requires Session(ms, xs, text) && k < n <= |xs| && ms[k].Valid() && xs[k].cbw.Valid() && xs[k].cbw.lun < |ms[0].luns|
    requires Hands(ms[k], xs[k], xs[k].cbw.lun) && xs[k].io.Works? && NoneHanded(ms, xs, k + 1, n, xs[k].cbw.lun)
    requires x.cbw.Valid() && x.cbw.lun == xs[k].cbw.lun && x.cbw.cdb[0] in {0x28, 0xA8} && x.io.Works?
    requires First(x.cbw.cdb) == First(xs[k].cbw.cdb) && HowMany(x.cbw.cdb) == HowMany(xs[k].cbw.cdb)
    ensures ms[n].Valid() && x.cbw.lun < |ms[n].luns|
    ensures OutcomeOf(ms[n], x, text) == Data(Flatten(xs[k].chunks))
  {
    var u := x.cbw.lun;
    MediumKept(ms, xs, k, text, u);
    MediumStays(ms, xs, k + 1, n, text, u);
    ReadsBack(ms[k].luns[u], ms[n].luns[u], xs[k].cbw.cdb, x, Flatten(xs[k].chunks), text);
  }

  lemma ReadsBack(was: Lun, l: Lun, cdb: seq<byte>, x: Exchange, data: seq<byte>, text: Text)
    requires was.Valid() && l.Valid() && |cdb| == |x.cbw.cdb| == 16
    requires First(cdb) + HowMany(cdb) <= was.Blocks() && |data| == HowMany(cdb) * was.bs
    requires 0 <= First(cdb) * was.bs <= (First(cdb) + HowMany(cdb)) * was.bs <= |was.disk|
    requires l.disk == WriteBlocks(was, First(cdb), HowMany(cdb), data).disk && l.bs == was.bs
    requires x.cbw.cdb[0] in {0x28, 0xA8} && x.io.Works? && First(x.cbw.cdb) == First(cdb) && HowMany(x.cbw.cdb) == HowMany(cdb)
    ensures Execute(l, x.cbw.lun, x.cbw.cdb, x.io, text) == Data(data)
  {
    WriteThenRead(was, First(cdb), HowMany(cdb), data);
    StoredSize(was, First(cdb), HowMany(cdb), data);
    ReadCommand(l, x.cbw.lun, x.cbw.cdb, x.io, text);
  }

  lemma StoredSize(l: Lun, lba: nat, count: nat, data: seq<byte>)
    requires l.Valid() && lba + count <= l.Blocks() && |data| == count * l.bs
    requires 0 <= lba * l.bs <= (lba + count) * l.bs <= |l.disk|
    ensures |WriteBlocks(l, lba, count, data).disk| == |l.disk|
  {
    InRange(l, lba, count);
  }
}
