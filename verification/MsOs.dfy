/** The Microsoft OS 2.0 descriptor set: its size function, its emitter, and the parser of the
    Microsoft OS 2.0 Descriptors Specification that gives the advertised entries back. */
module MsOs {
  import opened Bytes

  /** An advertisement: for one descriptor group, or -1 for the whole device. Strings are C
      strings, without their NUL. */
  datatype Entry = Entry(group: int, compatible: seq<byte>, guid: Option<seq<byte>>)

  datatype Group = Group(first: byte, count: nat)

  datatype Device = Device(groups: seq<Group>, msos: seq<Entry>)

  ghost predicate CString(s: seq<byte>) {
    forall i :: 0 <= i < |s| ==> s[i] != 0
  }

  ghost predicate Strings(dev: Device) {
    forall i :: 0 <= i < |dev.msos| ==>
      CString(dev.msos[i].compatible) && (dev.msos[i].guid.Some? ==> CString(dev.msos[i].guid.value))
  }

  // ---- which entry describes a group ---------------------------------------------------

  function FindGroup(msos: seq<Entry>, group: int): Option<Entry> {
    if msos == [] then None
    else if msos[0].group == group then Some(msos[0])
    else FindGroup(msos[1..], group)
  }

  function FindWide(msos: seq<Entry>): Option<Entry> {
    if msos == [] then None
    else if msos[0].group < 0 then Some(msos[0])
    else FindWide(msos[1..])
  }

  function EntryFor(dev: Device, group: int): Option<Entry> {
    if FindGroup(dev.msos, group).Some? then FindGroup(dev.msos, group) else FindWide(dev.msos)
  }

  predicate NeedsSubsets(dev: Device) {
    |dev.groups| > 1 && |dev.msos| > 0
  }

  function Groups(dev: Device): nat {
    if |dev.groups| > 0 then |dev.groups| else 1
  }

  function FirstIfnum(dev: Device, group: nat): byte {
    if group >= |dev.groups| || dev.groups[group].count == 0 then 0 else dev.groups[group].first
  }

  /** The one entry of a set that needs no subsets. */
  function Lone(dev: Device): Option<Entry> {
    if EntryFor(dev, 0).Some? then EntryFor(dev, 0)
    else if |dev.msos| > 0 then Some(dev.msos[0])
    else None
  }

  /** No entry among the first `n` is of this group, or device-wide. */
  ghost predicate NoneBefore(msos: seq<Entry>, n: nat, group: int) {
    n <= |msos| && forall i :: 0 <= i < n ==> msos[i].group != group
  }

  ghost predicate NoWideBefore(msos: seq<Entry>, n: nat) {
    n <= |msos| && forall i :: 0 <= i < n ==> msos[i].group >= 0
  }

  lemma {:induction false} FoundFirst(msos: seq<Entry>, group: int)
    ensures match FindGroup(msos, group)
      case None => NoneBefore(msos, |msos|, group)
      case Some(e) => exists i :: 0 <= i < |msos| && msos[i] == e && e.group == group && NoneBefore(msos, i, group)
    ensures match FindWide(msos)
      case None => NoWideBefore(msos, |msos|)
      case Some(e) => exists i :: 0 <= i < |msos| && msos[i] == e && e.group < 0 && NoWideBefore(msos, i)
  {
    if msos != [] {
      var rest := msos[1..];
      FoundFirst(rest, group);
      if msos[0].group == group {
        assert NoneBefore(msos, 0, group);
      } else if FindGroup(rest, group).Some? {
        var i :| 0 <= i < |rest| && rest[i] == FindGroup(rest, group).value && rest[i].group == group && NoneBefore(rest, i, group);
        assert msos[i + 1] == rest[i] && NoneBefore(msos, i + 1, group);
      }
      if msos[0].group < 0 {
        assert NoWideBefore(msos, 0);
      } else if FindWide(rest).Some? {
        var i :| 0 <= i < |rest| && rest[i] == FindWide(rest).value && rest[i].group < 0 && NoWideBefore(rest, i);
        assert msos[i + 1] == rest[i] && NoWideBefore(msos, i + 1);
      }
    }
  }

  /** Which entry speaks for a group: its own first one, or else the first for the whole device. */
  lemma EntryForIs(dev: Device, group: nat)
    ensures match EntryFor(dev, group)
      case None => NoneBefore(dev.msos, |dev.msos|, group) && NoWideBefore(dev.msos, |dev.msos|)
      case Some(e) =>
        || (exists i :: 0 <= i < |dev.msos| && dev.msos[i] == e && e.group == group && NoneBefore(dev.msos, i, group))
        || (NoneBefore(dev.msos, |dev.msos|, group)
            && exists i :: 0 <= i < |dev.msos| && dev.msos[i] == e && e.group < 0 && NoWideBefore(dev.msos, i))
  {
    FoundFirst(dev.msos, group);
  }

  /** A set has subsets when there are several groups and something to advertise; a subset names
      the first interface of its group, or 0 for a group without any. */
  lemma SubsetsAre(dev: Device, group: nat)
    ensures NeedsSubsets(dev) <==> |dev.groups| >= 2 && dev.msos != []
    ensures Groups(dev) == if dev.groups == [] then 1 else |dev.groups|
    ensures group < |dev.groups| && dev.groups[group].count > 0 ==> FirstIfnum(dev, group) == dev.groups[group].first
    ensures group >= |dev.groups| || dev.groups[group].count == 0 ==> FirstIfnum(dev, group) == 0
  {}

  /** The property's name is "DeviceInterfaceGUIDs". */
  lemma PropertyName()
    ensures |PROPERTY| == |"DeviceInterfaceGUIDs"|
    ensures forall i :: 0 <= i < |PROPERTY| ==> PROPERTY[i] == "DeviceInterfaceGUIDs"[i] as int
  {}

  // ---- sizes -------------------------------------------------------------------------

  /** "DeviceInterfaceGUIDs" */
  const PROPERTY: seq<byte> :=
    [0x44, 0x65, 0x76, 0x69, 0x63, 0x65, 0x49, 0x6E, 0x74, 0x65, 0x72, 0x66, 0x61, 0x63, 0x65, 0x47, 0x55, 0x49, 0x44, 0x73]

  const NAME_LEN: nat := 42

  function Utf16Len(s: seq<byte>, nuls: nat): nat {
    2 * (|s| + nuls)
  }

  function FeatureSize(guid: Option<seq<byte>>): nat {
    match guid
    case None => 20
    case Some(g) => 20 + (8 + Utf16Len(PROPERTY, 1) + 2 + Utf16Len(g, 2))
  }

  function SubsetsSize(dev: Device, group: nat): nat
    decreases Groups(dev) - group
  {
    if group >= Groups(dev) then 0
    else
      var entry := EntryFor(dev, group);
      (if entry.Some? then 8 + FeatureSize(entry.value.guid) else 0) + SubsetsSize(dev, group + 1)
  }

  /** msos2_set_size */
  function SetSize(dev: Device): nat {
    if NeedsSubsets(dev) then 10 + (8 + SubsetsSize(dev, 0))
    else 10 + (if Lone(dev).Some? then FeatureSize(Lone(dev).value.guid) else 0)
  }

  // ---- bytes -------------------------------------------------------------------------

  function Utf16(s: seq<byte>, nuls: nat): (b: seq<byte>)
    ensures |b| == Utf16Len(s, nuls)
  {
    seq(Utf16Len(s, nuls), i requires 0 <= i => if i % 2 == 0 && i / 2 < |s| then s[i / 2] else 0)
  }

  function Cut(s: seq<byte>): (c: seq<byte>)
    ensures |c| <= 8
  {
    if |s| > 8 then s[..8] else s
  }

  function CompatBytes(compatible: seq<byte>): (b: seq<byte>)
    ensures |b| == 20
  {
    PutLe16(0x14) + PutLe16(3) + Cut(compatible) + Zeros(16 - |Cut(compatible)|)
  }

  function Words(a: nat, b: nat, c: nat, d: nat): (r: seq<byte>)
    ensures |r| == 8
  {
    PutLe16(a) + PutLe16(b) + PutLe16(c) + PutLe16(d)
  }

  function PropertyBytes(guid: seq<byte>): (b: seq<byte>)
    ensures |b| == FeatureSize(Some(guid)) - 20
  {
    Words(8 + Utf16Len(PROPERTY, 1) + 2 + Utf16Len(guid, 2), 4, 7, Utf16Len(PROPERTY, 1)) + Utf16(PROPERTY, 1)
      + PutLe16(Utf16Len(guid, 2)) + Utf16(guid, 2)
  }

  function FeatureBytes(e: Entry): (b: seq<byte>)
    ensures |b| == FeatureSize(e.guid)
  {
    CompatBytes(e.compatible) + if e.guid.Some? then PropertyBytes(e.guid.value) else []
  }

  function SubsetBytes(first: byte, e: Entry): (b: seq<byte>)
    ensures |b| == 8 + FeatureSize(e.guid)
  {
    Words(8, 2, first, 8 + FeatureSize(e.guid)) + FeatureBytes(e)
  }

  function SubsetsBytes(dev: Device, group: nat): (b: seq<byte>)
    ensures |b| == SubsetsSize(dev, group)
    decreases Groups(dev) - group
  {
    if group >= Groups(dev) then []
    else
      var entry := EntryFor(dev, group);
      (if entry.Some? then SubsetBytes(FirstIfnum(dev, group), entry.value) else []) + SubsetsBytes(dev, group + 1)
  }

  function Body(dev: Device): (b: seq<byte>)
    ensures |b| == SetSize(dev) - 10
  {
    if NeedsSubsets(dev) then
      Words(8, 1, 0, 8 + SubsetsSize(dev, 0)) + SubsetsBytes(dev, 0)
    else if Lone(dev).Some? then FeatureBytes(Lone(dev).value)
    else []
  }

  /** What msos2_set writes. */
  function SetBytes(dev: Device): (b: seq<byte>)
    ensures |b| == SetSize(dev)
  {
    PutLe16(0x0A) + PutLe16(0) + PutLe32(0x0603_0000) + PutLe16(SetSize(dev)) + Body(dev)
  }

  // ---- parsing -----------------------------------------------------------------------

  datatype Feature = BadFeature | Feature(id: seq<byte>, guid: Option<seq<byte>>)

  /** Bytes up to the first NUL. */
  function Trimmed(s: seq<byte>): seq<byte> {
    if s == [] || s[0] == 0 then [] else [s[0]] + Trimmed(s[1..])
  }

  /** Code units up to the first NUL, for code units below 256. */
  function Narrow(s: seq<byte>): seq<byte> {
    if |s| < 2 || s[0] == 0 then [] else [s[0]] + Narrow(s[2..])
  }

  function ParseProperty(b: seq<byte>): Option<seq<byte>> {
    if |b| < 8 || Le16(b) != |b| || Le16(b[2..4]) != 4 || Le16(b[4..6]) != 7 then None
    else
      var n := Le16(b[6..8]);
      if 8 + n + 2 > |b| || b[8..8 + n] != Utf16(PROPERTY, 1) || Le16(b[8 + n..]) != |b| - (8 + n + 2) then None
      else Some(Narrow(b[8 + n + 2..]))
  }

  function ParseFeature(b: seq<byte>): Feature {
    if |b| < 20 || Le16(b) != 20 || Le16(b[2..4]) != 3 then BadFeature
    else if |b| == 20 then Feature(Trimmed(b[4..12]), None)
    else
      var guid := ParseProperty(b[20..]);
      if guid.None? then BadFeature else Feature(Trimmed(b[4..12]), guid)
  }

  /** What a function is advertised as, by its first interface. */
  datatype Advert = Advert(first: byte, feature: Feature)

  datatype Parsed = BadSet | DeviceWide(feature: Option<Feature>) | PerFunction(adverts: seq<Advert>)

  function ParseSubsets(b: seq<byte>): Option<seq<Advert>>
    decreases |b|
  {
    if b == [] then Some([])
    else if |b| < 8 || Le16(b) != 8 || Le16(b[2..4]) != 2 then None
    else
      var n := Le16(b[6..8]);
      if n < 8 || n > |b| then None
      else
        var more := ParseSubsets(b[n..]);
        if more.None? then None else Some([Advert(b[4], ParseFeature(b[8..n]))] + more.value)
  }

  /** Every nested length is checked against the bytes that are there. */
  function ParseSet(b: seq<byte>): Parsed {
    if |b| < 10 || Le16(b) != 10 || Le16(b[2..4]) != 0 || Le32(b[4..8]) != 0x0603_0000 || Le16(b[8..10]) != |b| then BadSet
    else
      var body := b[10..];
      if |body| < 4 then (if body == [] then DeviceWide(None) else BadSet)
      else if Le16(body[2..4]) != 1 then DeviceWide(Some(ParseFeature(body)))
      else if |body| < 8 || Le16(body) != 8 || Le16(body[6..8]) != |body| then BadSet
      else
        var adverts := ParseSubsets(body[8..]);
        if adverts.None? then BadSet else PerFunction(adverts.value)
  }

  // ---- what is advertised ----------------------------------------------------------------

  function Shown(e: Entry): Feature {
    Feature(Cut(e.compatible), e.guid)
  }

  function Advertised(dev: Device, group: nat): seq<Advert>
    decreases Groups(dev) - group
  {
    if group >= Groups(dev) then []
    else
      var entry := EntryFor(dev, group);
      (if entry.Some? then [Advert(FirstIfnum(dev, group), Shown(entry.value))] else []) + Advertised(dev, group + 1)
  }

  function Meant(dev: Device): Parsed {
    if NeedsSubsets(dev) then PerFunction(Advertised(dev, 0))
    else DeviceWide(if Lone(dev).Some? then Some(Shown(Lone(dev).value)) else None)
  }

  // ---- the round trip ------------------------------------------------------------------

  lemma {:induction false} TrimmedPadded(s: seq<byte>, n: nat)
    requires CString(s)
    ensures Trimmed(s + Zeros(n)) == s
  {
    if s != [] {
      assert (s + Zeros(n))[1..] == s[1..] + Zeros(n);
      TrimmedPadded(s[1..], n);
    }
  }

  lemma {:induction false} NarrowUtf16(s: seq<byte>, nuls: nat)
    requires CString(s) && nuls > 0
    ensures Narrow(Utf16(s, nuls)) == s
  {
    if s != [] {
      assert Utf16(s, nuls)[2..] == Utf16(s[1..], nuls);
      NarrowUtf16(s[1..], nuls);
    }
  }

  lemma NameLength()
    ensures Utf16Len(PROPERTY, 1) == NAME_LEN
  {}

  /** The pieces of a concatenation, by position. */
  lemma Pieces(a: seq<byte>, b: seq<byte>, c: seq<byte>, d: seq<byte>)
    ensures var s := a + b + c + d;
      && s[..|a|] == a && s[|a|..|a| + |b|] == b
      && s[|a| + |b|..|a| + |b| + |c|] == c && s[|a| + |b| + |c|..] == d
  {}

  /** A descriptor that starts with four words. */
  lemma WordsAt(s: seq<byte>, a: nat, b: nat, c: nat, d: nat)
    requires |s| >= 8 && s[..8] == Words(a, b, c, d) && a < TWO16 && b < TWO16 && c < TWO16 && d < TWO16
    ensures Le16(s) == a && Le16(s[2..4]) == b && Le16(s[4..6]) == c && Le16(s[6..8]) == d
  {
    var w := s[..8];
    assert s[2..4] == w[2..4] && s[4..6] == w[4..6] && s[6..8] == w[6..8] && w[..2] == PutLe16(a);
    assert s[0] == w[..2][0] && s[1] == w[..2][1];
  }

  lemma LengthAt(s: seq<byte>, at: nat, n: nat)
    requires at + 2 <= |s| && s[at..at + 2] == PutLe16(n) && n < TWO16
    ensures Le16(s[at..]) == n
  {
    assert s[at] == s[at..at + 2][0] && s[at + 1] == s[at..at + 2][1];
  }

  lemma ParsesProperty(b: seq<byte>, n: nat, m: nat)
    requires |b| == 8 + n + 2 + m && Le16(b) == |b| && Le16(b[2..4]) == 4 && Le16(b[4..6]) == 7 && Le16(b[6..8]) == n
    requires b[8..8 + n] == Utf16(PROPERTY, 1) && Le16(b[8 + n..]) == m
    ensures ParseProperty(b) == Some(Narrow(b[8 + n + 2..]))
  {}

  lemma PropertyRoundTrip(guid: seq<byte>)
    requires CString(guid) && 8 + NAME_LEN + 2 + Utf16Len(guid, 2) < TWO16
    ensures ParseProperty(PropertyBytes(guid)) == Some(guid)
  {
    NameLength();
    var b := PropertyBytes(guid);
    var n, m := Utf16Len(PROPERTY, 1), Utf16Len(guid, 2);
    Pieces(Words(8 + n + 2 + m, 4, 7, n), Utf16(PROPERTY, 1), PutLe16(m), Utf16(guid, 2));
    WordsAt(b, 8 + n + 2 + m, 4, 7, n);
    LengthAt(b, 8 + n, m);
    ParsesProperty(b, n, m);
    NarrowUtf16(guid, 2);
  }

  lemma FeatureRoundTrip(e: Entry)
    requires CString(e.compatible) && (e.guid.Some? ==> CString(e.guid.value)) && FeatureSize(e.guid) < TWO16
    ensures ParseFeature(FeatureBytes(e)) == Shown(e)
  {
    NameLength();
    var b, c, k := FeatureBytes(e), CompatBytes(e.compatible), 8 - |Cut(e.compatible)|;
    CompatAt(e.compatible, b);
    TrimmedPadded(Cut(e.compatible), k);
    if e.guid.Some? {
      assert b[20..] == PropertyBytes(e.guid.value);
      PropertyRoundTrip(e.guid.value);
    }
  }

  lemma CompatAt(compatible: seq<byte>, b: seq<byte>)
    requires CompatBytes(compatible) <= b
    ensures |b| >= 20 && Le16(b) == 20 && Le16(b[2..4]) == 3
    ensures b[4..12] == Cut(compatible) + Zeros(8 - |Cut(compatible)|)
  {
    var c, id := CompatBytes(compatible), Cut(compatible);
    Pieces(PutLe16(0x14), PutLe16(3), id, Zeros(16 - |id|));
    assert b[..20] == c;
    assert b[2..4] == c[2..4] && b[4..12] == c[4..12];
    assert c[4..12] == c[4..4 + |id|] + c[4 + |id|..12];
    assert c[4 + |id|..12] == Zeros(16 - |id|)[..8 - |id|];
    assert c[0] == c[..2][0] && c[1] == c[..2][1];
  }

  lemma {:induction false} FindGroupStrings(msos: seq<Entry>, group: int)
    requires Strings(Device([], msos))
    ensures FindGroup(msos, group).Some? ==> Strings(Device([], [FindGroup(msos, group).value]))
    ensures FindWide(msos).Some? ==> Strings(Device([], [FindWide(msos).value]))
  {
    if msos != [] {
      assert forall i :: 0 <= i < |msos[1..]| ==> msos[1..][i] == msos[i + 1];
      FindGroupStrings(msos[1..], group);
    }
  }

  lemma EntryStrings(dev: Device, group: int)
    requires Strings(dev) && EntryFor(dev, group).Some?
    ensures var e := EntryFor(dev, group).value; CString(e.compatible) && (e.guid.Some? ==> CString(e.guid.value))
  {
    FindGroupStrings(dev.msos, group);
    assert Device([], [EntryFor(dev, group).value]).msos[0] == EntryFor(dev, group).value;
  }

  lemma ParsesFirst(b: seq<byte>, n: nat)
    requires 8 <= n <= |b| && Le16(b) == 8 && Le16(b[2..4]) == 2 && Le16(b[6..8]) == n && ParseSubsets(b[n..]).Some?
    ensures ParseSubsets(b) == Some([Advert(b[4], ParseFeature(b[8..n]))] + ParseSubsets(b[n..]).value)
  {}

  lemma SubsetFirst(first: byte, e: Entry, rest: seq<byte>)
    requires CString(e.compatible) && (e.guid.Some? ==> CString(e.guid.value)) && 8 + FeatureSize(e.guid) < TWO16
    requires ParseSubsets(rest).Some?
    ensures ParseSubsets(SubsetBytes(first, e) + rest) == Some([Advert(first, Shown(e))] + ParseSubsets(rest).value)
  {
    var n := 8 + FeatureSize(e.guid);
    var b := SubsetBytes(first, e) + rest;
    Pieces(Words(8, 2, first, n), FeatureBytes(e), rest, []);
    assert b == Words(8, 2, first, n) + FeatureBytes(e) + rest + [];
    WordsAt(b, 8, 2, first, n);
    assert b[4] == b[4..6][0];
    FeatureRoundTrip(e);
    ParsesFirst(b, n);
  }

  lemma {:induction false} SubsetsRoundTrip(dev: Device, group: nat)
    requires Strings(dev) && SubsetsSize(dev, group) < TWO16
    ensures ParseSubsets(SubsetsBytes(dev, group)) == Some(Advertised(dev, group))
    decreases Groups(dev) - group
  {
    if group < Groups(dev) {
      SubsetsRoundTrip(dev, group + 1);
      var entry := EntryFor(dev, group);
      if entry.Some? {
        EntryStrings(dev, group);
        SubsetFirst(FirstIfnum(dev, group), entry.value, SubsetsBytes(dev, group + 1));
      } else {
        assert [] + SubsetsBytes(dev, group + 1) == SubsetsBytes(dev, group + 1);
        assert [] + Advertised(dev, group + 1) == Advertised(dev, group + 1);
      }
    }
  }

  lemma LoneStrings(dev: Device)
    requires Strings(dev) && Lone(dev).Some?
    ensures var e := Lone(dev).value; CString(e.compatible) && (e.guid.Some? ==> CString(e.guid.value))
  {
    if EntryFor(dev, 0).Some? {
      EntryStrings(dev, 0);
    } else {
      var e := dev.msos[0];
      assert CString(e.compatible) && (e.guid.Some? ==> CString(e.guid.value));
    }
  }

  lemma ParsesBody(b: seq<byte>)
    requires |b| >= 10 && Le16(b) == 10 && Le16(b[2..4]) == 0 && Le32(b[4..8]) == 0x0603_0000 && Le16(b[8..10]) == |b|
    ensures |b| == 10 ==> ParseSet(b) == DeviceWide(None)
    ensures |b| >= 14 && Le16(b[10..][2..4]) != 1 ==> ParseSet(b) == DeviceWide(Some(ParseFeature(b[10..])))
    ensures |b| >= 18 && Le16(b[10..][2..4]) == 1 && Le16(b[10..]) == 8 && Le16(b[10..][6..8]) == |b| - 10 ==>
              var adverts := ParseSubsets(b[10..][8..]); adverts.Some? ==> ParseSet(b) == PerFunction(adverts.value)
  {}

  lemma HeaderAt(dev: Device)
    requires SetSize(dev) < TWO16
    ensures var b := SetBytes(dev);
      && Le16(b) == 10 && Le16(b[2..4]) == 0 && Le32(b[4..8]) == 0x0603_0000 && Le16(b[8..10]) == |b| && b[10..] == Body(dev)
  {
    var b := SetBytes(dev);
    Pieces(PutLe16(0x0A) + PutLe16(0), PutLe32(0x0603_0000), PutLe16(SetSize(dev)), Body(dev));
    assert b[..4] == PutLe16(0x0A) + PutLe16(0);
    assert b[2..4] == b[..4][2..4];
    assert b[0] == b[..4][0] && b[1] == b[..4][1];
  }

  /** For every set the device can serve, parsing gives exactly the advertisements: the group's
      first interface, the Compatible ID cut to eight bytes, the GUID. */
  lemma SetRoundTrip(dev: Device)
    requires Strings(dev) && SetSize(dev) < TWO16
    ensures ParseSet(SetBytes(dev)) == Meant(dev)
  {
    var b, body := SetBytes(dev), Body(dev);
    HeaderAt(dev);
    if NeedsSubsets(dev) {
      var n := 8 + SubsetsSize(dev, 0);
      WordsAt(body, 8, 1, 0, n);
      assert body[8..] == SubsetsBytes(dev, 0);
      SubsetsRoundTrip(dev, 0);
      ParsesBody(b);
    } else if Lone(dev).Some? {
      LoneStrings(dev);
      FeatureRoundTrip(Lone(dev).value);
      CompatAt(Lone(dev).value.compatible, body);
      ParsesBody(b);
    } else {
      ParsesBody(b);
    }
  }

  // ---- the BOS descriptor ----------------------------------------------------------------

  const MSOS20_UUID: seq<byte> :=
    [0xDF, 0x60, 0xDD, 0xD8, 0x89, 0x45, 0xC7, 0x4C, 0x9C, 0xD2, 0x65, 0x9D, 0x9E, 0x64, 0x8A, 0x9F]

  const WEBUSB_UUID: seq<byte> :=
    [0x38, 0xB6, 0x08, 0x34, 0xA9, 0x09, 0xA0, 0x47, 0x8B, 0xFD, 0xA0, 0x76, 0x88, 0x15, 0xB6, 0x65]

  function WebUsbCap(vendor: byte, landing: byte): (c: seq<byte>)
    ensures |c| == 24
  {
    [24, 0x10, 5, 0] + WEBUSB_UUID + PutLe16(0x0100) + [vendor, landing]
  }

  function MsOsCap(length: nat, vendor: byte): (c: seq<byte>)
    ensures |c| == 28 && c[0] == 28 && c[1] == 0x10 && c[2] == 5 && c[4..20] == MSOS20_UUID
    ensures c[24..26] == PutLe16(length)
  {
    [28, 0x10, 5, 0] + MSOS20_UUID + PutLe32(0x0603_0000) + PutLe16(length) + [vendor, 0]
  }

  /** The capabilities build_bos_desc lists: WebUSB's when it is enabled, then Microsoft's. */
  function Caps(webusb: Option<(byte, byte)>, dev: Device, vendor: byte): seq<byte> {
    (if webusb.Some? then WebUsbCap(webusb.value.0, webusb.value.1) else [])
    + if |dev.msos| > 0 then MsOsCap(SetSize(dev), vendor) else []
  }

  /** What a host looking for Microsoft's capability reads as the set's length. */
  function AdvertisedLength(caps: seq<byte>): Option<nat>
    decreases |caps|
  {
    if |caps| < 4 || caps[0] < 4 || caps[0] > |caps| then None
    else if caps[0] == 28 && caps[1] == 0x10 && caps[2] == 5 && caps[4..20] == MSOS20_UUID then Some(Le16(caps[24..26]))
    else AdvertisedLength(caps[caps[0]..])
  }

  /** The length in the BOS is the length of the set served, whatever else is listed. */
  lemma BosMatchesSet(webusb: Option<(byte, byte)>, dev: Device, vendor: byte)
    requires SetSize(dev) < TWO16
    ensures AdvertisedLength(Caps(webusb, dev, vendor)) == if |dev.msos| > 0 then Some(|SetBytes(dev)|) else None
  {
    var c := MsOsCap(SetSize(dev), vendor);
    var tail := if |dev.msos| > 0 then c else [];
    assert AdvertisedLength(tail) == if |dev.msos| > 0 then Some(SetSize(dev)) else None;
    if webusb.Some? {
      var w := WebUsbCap(webusb.value.0, webusb.value.1);
      assert (w + tail)[24..] == tail;
    } else {
      assert [] + tail == tail;
    }
  }
}
