/** msos2_set as the source writes it: content first, headers patched in behind it. */
module MsOsEmitter {
  import opened Bytes
  import opened MsOs

  /** The buffer changed exactly at `off`, where `bytes` now stand. */
  ghost predicate Wrote(was: seq<byte>, now: seq<byte>, off: nat, bytes: seq<byte>) {
    && |was| == |now| && off + |bytes| <= |was|
    && forall j {:trigger now[j]} :: 0 <= j < |was| ==> now[j] == if off <= j < off + |bytes| then bytes[j - off] else was[j]
  }

  lemma Forward(a: seq<byte>, b: seq<byte>, c: seq<byte>, off: nat, x: seq<byte>, y: seq<byte>)
    requires Wrote(a, b, off, x) && Wrote(b, c, off + |x|, y)
    ensures Wrote(a, c, off, x + y)
  {}

  method Put16(buf: array<byte>, off: nat, v: nat)
    requires off + 2 <= buf.Length
    modifies buf
    ensures Wrote(old(buf[..]), buf[..], off, PutLe16(v))
  {
    buf[off] := v % 0x100;
    buf[off + 1] := v / 0x100 % 0x100;
  }

  /** `now` differs from `was` only from `off` on, where `n` of `bytes` stand. */
  ghost predicate Partly(was: seq<byte>, now: seq<byte>, off: nat, bytes: seq<byte>, n: nat) {
    && |was| == |now| && n <= |bytes| && off + |bytes| <= |was|
    && (forall j :: 0 <= j < n ==> now[off + j] == bytes[j])
    && (forall j :: 0 <= j < |was| && !(off <= j < off + n) ==> now[j] == was[j])
  }

  lemma Wholly(was: seq<byte>, now: seq<byte>, off: nat, bytes: seq<byte>)
    requires Partly(was, now, off, bytes, |bytes|)
    ensures Wrote(was, now, off, bytes)
  {
    forall j | off <= j < off + |bytes| ensures now[j] == bytes[j - off] {
      assert now[off + (j - off)] == bytes[j - off];
    }
  }

  lemma UnitAt(str: seq<byte>, nuls: nat, i: nat)
    requires i < |str| + nuls
    ensures Utf16(str, nuls)[2 * i] == (if i < |str| then str[i] else 0) && Utf16(str, nuls)[2 * i + 1] == 0
  {}

  method PutUtf16(buf: array<byte>, off: nat, str: seq<byte>, nuls: nat) returns (n: nat)
    requires off + Utf16Len(str, nuls) <= buf.Length
    modifies buf
    ensures n == Utf16Len(str, nuls) && Wrote(old(buf[..]), buf[..], off, Utf16(str, nuls))
  {
    ghost var was, bytes := buf[..], Utf16(str, nuls);
    var i: nat := 0;
    while i < |str|
      invariant i <= |str| && Partly(was, buf[..], off, bytes, 2 * i)
    {
      UnitAt(str, nuls, i);
      buf[off + 2 * i], buf[off + 2 * i + 1] := str[i], 0;
      i := i + 1;
    }
    while i < |str| + nuls
      invariant |str| <= i <= |str| + nuls && Partly(was, buf[..], off, bytes, 2 * i)
    {
      UnitAt(str, nuls, i);
      buf[off + 2 * i], buf[off + 2 * i + 1] := 0, 0;
      i := i + 1;
    }
    n := 2 * i;
    Wholly(was, buf[..], off, bytes);
  }

  method Fill(buf: array<byte>, off: nat, bytes: seq<byte>)
    requires off + |bytes| <= buf.Length
    modifies buf
    ensures Wrote(old(buf[..]), buf[..], off, bytes)
  {
    ghost var was := buf[..];
    for i := 0 to |bytes|
      invariant Partly(was, buf[..], off, bytes, i)
    {
      buf[off + i] := bytes[i];
    }
    Wholly(was, buf[..], off, bytes);
  }

  /** Sixteen zeros, then the identifier over them. */
  method PutId(buf: array<byte>, off: nat, compatible: seq<byte>)
    requires off + 16 <= buf.Length
    modifies buf
    ensures Wrote(old(buf[..]), buf[..], off, Cut(compatible) + Zeros(16 - |Cut(compatible)|))
  {
    var cl := if |compatible| > 8 then 8 else |compatible|;
    Fill(buf, off, Zeros(16));
    Fill(buf, off, compatible[..cl]);
    assert compatible[..cl] == Cut(compatible);
  }

  method PutCompat(buf: array<byte>, off: nat, compatible: seq<byte>)
    requires off + 20 <= buf.Length
    modifies buf
    ensures Wrote(old(buf[..]), buf[..], off, CompatBytes(compatible))
  {
    ghost var id := Cut(compatible) + Zeros(16 - |Cut(compatible)|);
    ghost var b0 := buf[..];
    Put16(buf, off, 0x14);
    ghost var b1 := buf[..];
    Put16(buf, off + 2, 3);
    ghost var b2 := buf[..];
    PutId(buf, off + 4, compatible);
    Forward(b0, b1, b2, off, PutLe16(0x14), PutLe16(3));
    Forward(b0, b2, buf[..], off, PutLe16(0x14) + PutLe16(3), id);
    assert PutLe16(0x14) + PutLe16(3) + id == CompatBytes(compatible);
  }

  method PutWords(buf: array<byte>, off: nat, a: nat, b: nat, c: nat, d: nat)
    requires off + 8 <= buf.Length
    modifies buf
    ensures Wrote(old(buf[..]), buf[..], off, Words(a, b, c, d))
  {
    ghost var b0 := buf[..];
    Put16(buf, off, a);
    ghost var b1 := buf[..];
    Put16(buf, off + 2, b);
    ghost var b2 := buf[..];
    Put16(buf, off + 4, c);
    ghost var b3 := buf[..];
    Put16(buf, off + 6, d);
    Forward(b0, b1, b2, off, PutLe16(a), PutLe16(b));
    Forward(b0, b2, b3, off, PutLe16(a) + PutLe16(b), PutLe16(c));
    Forward(b0, b3, buf[..], off, PutLe16(a) + PutLe16(b) + PutLe16(c), PutLe16(d));
  }

  function Named(name: seq<byte>, guid: seq<byte>): (b: seq<byte>)
    ensures |b| == 8 + Utf16Len(name, 1) + 2 + Utf16Len(guid, 2)
  {
    var n, m := Utf16Len(name, 1), Utf16Len(guid, 2);
    Words(8 + n + 2 + m, 4, 7, n) + Utf16(name, 1) + PutLe16(m) + Utf16(guid, 2)
  }

  /** The registry property: its strings first, then the lengths they had. */
  method PutNamed(buf: array<byte>, off: nat, name: seq<byte>, guid: seq<byte>) returns (n: nat)
    requires off + |Named(name, guid)| <= buf.Length
    modifies buf
    ensures n == |Named(name, guid)| && Wrote(old(buf[..]), buf[..], off, Named(name, guid))
  {
    ghost var b0 := buf[..];
    var nlen := PutUtf16(buf, off + 8, name, 1);
    ghost var b1 := buf[..];
    var dlen := PutUtf16(buf, off + 8 + nlen + 2, guid, 2);
    ghost var b2 := buf[..];
    n := 8 + nlen + 2 + dlen;
    PutWords(buf, off, n, 4, 7, nlen);
    ghost var b3 := buf[..];
    Put16(buf, off + 8 + nlen, dlen);
    Assembled(b0, b1, b2, b3, buf[..], off, Words(n, 4, 7, nlen), Utf16(name, 1), PutLe16(dlen), Utf16(guid, 2));
  }

  lemma Assembled(b0: seq<byte>, b1: seq<byte>, b2: seq<byte>, b3: seq<byte>, b4: seq<byte>, off: nat,
                  head: seq<byte>, name: seq<byte>, len: seq<byte>, data: seq<byte>)
    requires Wrote(b0, b1, off + |head|, name)
    requires Wrote(b1, b2, off + |head| + |name| + |len|, data)
    requires Wrote(b2, b3, off, head)
    requires Wrote(b3, b4, off + |head| + |name|, len)
    ensures Wrote(b0, b4, off, head + name + len + data)
  {}

  /** A header written after the content it precedes. */
  lemma Back(a: seq<byte>, b: seq<byte>, c: seq<byte>, off: nat, head: seq<byte>, content: seq<byte>)
    requires Wrote(a, b, off + |head|, content) && Wrote(b, c, off, head)
    ensures Wrote(a, c, off, head + content)
  {}

  /** msos2_feature */
  method PutFeature(buf: array<byte>, off: nat, e: Entry) returns (n: nat)
    requires off + FeatureSize(e.guid) <= buf.Length
    modifies buf
    ensures n == FeatureSize(e.guid) && Wrote(old(buf[..]), buf[..], off, FeatureBytes(e))
  {
    PutCompat(buf, off, e.compatible);
    n := 20;
    if e.guid.Some? {
      n := PutGuid(buf, off, e.compatible, e.guid.value, old(buf[..]));
    } else {
      assert CompatBytes(e.compatible) + [] == CompatBytes(e.compatible);
    }
  }

  method PutGuid(buf: array<byte>, off: nat, compatible: seq<byte>, guid: seq<byte>, ghost was: seq<byte>) returns (n: nat)
    requires off + FeatureSize(Some(guid)) <= buf.Length && Wrote(was, buf[..], off, CompatBytes(compatible))
    modifies buf
    ensures n == FeatureSize(Some(guid)) && Wrote(was, buf[..], off, CompatBytes(compatible) + PropertyBytes(guid))
  {
    ghost var b1 := buf[..];
    var m := PutProperty(buf, off + 20, guid);
    Forward(was, b1, buf[..], off, CompatBytes(compatible), PropertyBytes(guid));
    n := 20 + m;
  }

  method PutProperty(buf: array<byte>, off: nat, guid: seq<byte>) returns (n: nat)
    requires off + |PropertyBytes(guid)| <= buf.Length
    modifies buf
    ensures n == |PropertyBytes(guid)| && Wrote(old(buf[..]), buf[..], off, PropertyBytes(guid))
  {
    assert Named(PROPERTY, guid) == PropertyBytes(guid);
    n := PutNamed(buf, off, PROPERTY, guid);
  }

  /** A function subset: the feature, then its header. */
  method PutSubset(buf: array<byte>, off: nat, first: byte, e: Entry) returns (n: nat)
    requires off + 8 + FeatureSize(e.guid) <= buf.Length
    modifies buf
    ensures n == 8 + FeatureSize(e.guid) && Wrote(old(buf[..]), buf[..], off, SubsetBytes(first, e))
  {
    SubsetIs(first, e);
    ghost var b0, content := buf[..], FeatureBytes(e);
    n := PutFeature(buf, off + 8, e);
    n := 8 + n;
    PutWordsBefore(buf, off, 8, 2, first, n, b0, content);
  }

  lemma SubsetIs(first: byte, e: Entry)
    ensures SubsetBytes(first, e) == Words(8, 2, first, 8 + FeatureSize(e.guid)) + FeatureBytes(e)
  {}

  /** Four words in front of content written since `was`. */
  method PutWordsBefore(buf: array<byte>, off: nat, a: nat, b: nat, c: nat, d: nat, ghost was: seq<byte>, ghost content: seq<byte>)
    requires off + 8 <= buf.Length && Wrote(was, buf[..], off + 8, content)
    modifies buf
    ensures Wrote(was, buf[..], off, Words(a, b, c, d) + content)
  {
    ghost var before := buf[..];
    PutWords(buf, off, a, b, c, d);
    Back(was, before, buf[..], off, Words(a, b, c, d), content);
  }

  method PutSubsets(buf: array<byte>, off: nat, dev: Device) returns (n: nat)
    requires off + SubsetsSize(dev, 0) <= buf.Length
    modifies buf
    ensures n == SubsetsSize(dev, 0) && Wrote(old(buf[..]), buf[..], off, SubsetsBytes(dev, 0))
  {
    ghost var was, done: seq<byte> := buf[..], [];
    var i: nat := 0;
    n := 0;
    while i < Groups(dev)
      invariant i <= Groups(dev) && n == |done| && done + SubsetsBytes(dev, i) == SubsetsBytes(dev, 0)
      invariant Wrote(was, buf[..], off, done)
    {
      var m := PutNext(buf, off, n, dev, i, was, done);
      n := n + m;
      done := done + OneSubset(dev, i);
      i := i + 1;
    }
    assert done + [] == done;
  }

  method PutNext(buf: array<byte>, off: nat, n: nat, dev: Device, i: nat, ghost was: seq<byte>, ghost done: seq<byte>)
    returns (m: nat)
    requires i < Groups(dev) && n == |done| && done + SubsetsBytes(dev, i) == SubsetsBytes(dev, 0)
    requires off + |SubsetsBytes(dev, 0)| <= buf.Length && Wrote(was, buf[..], off, done)
    modifies buf
    ensures m == |OneSubset(dev, i)| && Wrote(was, buf[..], off, done + OneSubset(dev, i))
    ensures done + OneSubset(dev, i) + SubsetsBytes(dev, i + 1) == SubsetsBytes(dev, 0)
  {
    ghost var before, one := buf[..], OneSubset(dev, i);
    Regrouped(done, one, SubsetsBytes(dev, i + 1), SubsetsBytes(dev, 0));
    m := PutOne(buf, off + n, dev, i);
    Forward(was, before, buf[..], off, done, one);
  }

  function OneSubset(dev: Device, i: nat): seq<byte> {
    if EntryFor(dev, i).Some? then SubsetBytes(FirstIfnum(dev, i), EntryFor(dev, i).value) else []
  }

  method PutOne(buf: array<byte>, off: nat, dev: Device, i: nat) returns (n: nat)
    requires off + |OneSubset(dev, i)| <= buf.Length
    modifies buf
    ensures n == |OneSubset(dev, i)| && Wrote(old(buf[..]), buf[..], off, OneSubset(dev, i))
  {
    var entry := EntryFor(dev, i);
    n := 0;
    if entry.Some? {
      n := PutSubset(buf, off, FirstIfnum(dev, i), entry.value);
    }
  }

  lemma Regrouped(done: seq<byte>, one: seq<byte>, rest: seq<byte>, all: seq<byte>)
    requires done + (one + rest) == all
    ensures done + one + rest == all && |done| + |one| <= |all|
  {}

  method PutBody(buf: array<byte>, dev: Device) returns (off: nat)
    requires SetSize(dev) <= buf.Length
    modifies buf
    ensures off == SetSize(dev) && Wrote(old(buf[..]), buf[..], 10, Body(dev))
  {
    if NeedsSubsets(dev) {
      var n := PutConfiguration(buf, dev);
      off := 10 + n;
    } else {
      var n := PutFlat(buf, dev);
      off := 10 + n;
    }
  }

  /** The device-wide form: one feature, or none. */
  method PutFlat(buf: array<byte>, dev: Device) returns (n: nat)
    requires SetSize(dev) <= buf.Length && !NeedsSubsets(dev)
    modifies buf
    ensures n == |Body(dev)| && Wrote(old(buf[..]), buf[..], 10, Body(dev))
  {
    var entry := EntryFor(dev, 0);
    if entry.None? && |dev.msos| > 0 {
      entry := Some(dev.msos[0]);
    }
    n := 0;
    if entry.Some? {
      n := PutFeature(buf, 10, entry.value);
    }
  }

  /** The composite form: the subsets, then the configuration header in front of them. */
  method PutConfiguration(buf: array<byte>, dev: Device) returns (n: nat)
    requires SetSize(dev) <= buf.Length && NeedsSubsets(dev)
    modifies buf
    ensures n == |Body(dev)| && Wrote(old(buf[..]), buf[..], 10, Body(dev))
  {
    ghost var b0 := buf[..];
    n := PutSubsets(buf, 18, dev);
    n := 8 + n;
    PutWordsBefore(buf, 10, 8, 1, 0, n, b0, SubsetsBytes(dev, 0));
  }

  function Header(n: nat): (h: seq<byte>)
    ensures |h| == 10
  {
    Words(0x0A, 0, 0, 0x0603) + PutLe16(n)
  }

  method PutHeader(buf: array<byte>, n: nat)
    requires 10 <= buf.Length
    modifies buf
    ensures Wrote(old(buf[..]), buf[..], 0, Header(n))
  {
    ghost var b0 := buf[..];
    PutWords(buf, 0, 0x0A, 0, 0, 0x0603);
    ghost var b1 := buf[..];
    Put16(buf, 8, n);
    Forward(b0, b1, buf[..], 0, Words(0x0A, 0, 0, 0x0603), PutLe16(n));
  }

  lemma HeaderIs(dev: Device)
    ensures SetBytes(dev) == Header(SetSize(dev)) + Body(dev)
  {
    assert PutLe32(0x0603_0000) == PutLe16(0) + PutLe16(0x0603);
  }

  /** msos2_set: it writes exactly as many bytes as msos2_set_size says, nothing beyond them,
      and what it writes parses back to the advertisements. */
  method PutSet(buf: array<byte>, dev: Device) returns (n: nat)
    requires Strings(dev) && SetSize(dev) <= buf.Length && SetSize(dev) < TWO16
    modifies buf
    ensures n == SetSize(dev) && Wrote(old(buf[..]), buf[..], 0, SetBytes(dev))
    ensures ParseSet(buf[..n]) == Meant(dev)
  {
    ghost var b0 := buf[..];
    n := PutBody(buf, dev);
    ghost var b1 := buf[..];
    PutHeader(buf, n);
    Back(b0, b1, buf[..], 0, Header(n), Body(dev));
    HeaderIs(dev);
    assert buf[..n] == SetBytes(dev);
    SetRoundTrip(dev);
  }
}
