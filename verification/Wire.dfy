/** USB/IP framing of a transfer: the 48-byte header of big-endian words, isochronous packet
    descriptors, and exact reads from a byte stream. */
module Wire {
  import opened Bytes

  const HDR_LEN := 48
  const DESC_LEN := 16
  const CMD_SUBMIT: nat := 1
  const RET_SUBMIT: nat := 3

  datatype Dir = Out | In

  /** The rest of a stream after a message, when it holds the whole of one. A command that is not
      a submit is its header alone. */
  datatype Read<T> = Short | Read(value: T, rest: seq<byte>) | Other(command: nat, rest: seq<byte>)

  function DirWord(d: Dir): nat {
    if d.In? then 1 else 0
  }

  /** The ten words of a header, before the eight SETUP bytes. */
  datatype Hdr = Hdr(command: nat, seqnum: nat, devid: nat, direction: nat, ep: nat,
                     w20: nat, w24: nat, w28: nat, w32: nat, w36: nat, setup: seq<byte>) {
    ghost predicate Fits() {
      && command < TWO32 && seqnum < TWO32 && devid < TWO32 && direction < TWO32 && ep < TWO32
      && w20 < TWO32 && w24 < TWO32 && w28 < TWO32 && w32 < TWO32 && w36 < TWO32 && |setup| == 8
    }
  }

  function PutWords(ws: seq<nat>): (s: seq<byte>)
    ensures |s| == 4 * |ws|
  {
    if ws == [] then [] else PutBe32(ws[0]) + PutWords(ws[1..])
  }

  function WordsOf(s: seq<byte>, n: nat): (ws: seq<nat>)
    requires |s| >= 4 * n
    ensures |ws| == n
  {
    if n == 0 then [] else [Be32(s)] + WordsOf(s[4..], n - 1)
  }

  lemma {:induction false} WordsRoundTrip(ws: seq<nat>, rest: seq<byte>)
    requires forall i :: 0 <= i < |ws| ==> ws[i] < TWO32
    ensures WordsOf(PutWords(ws) + rest, |ws|) == ws
  {
    if ws != [] {
      WordsRoundTrip(ws[1..], rest);
      FirstWord(ws[0], PutWords(ws[1..]), rest);
    }
  }

  lemma FirstWord(n: nat, more: seq<byte>, rest: seq<byte>)
    requires n < TWO32
    ensures var s := PutBe32(n) + more + rest; Be32(s) == n && s[4..] == more + rest
  {
    var w, s := PutBe32(n), PutBe32(n) + more + rest;
    assert s[..2] == w[..2] && s[2..4] == w[2..4];
  }

  function HdrBytes(h: Hdr): (s: seq<byte>)
    requires |h.setup| == 8
    ensures |s| == HDR_LEN
  {
    PutWords([h.command, h.seqnum, h.devid, h.direction, h.ep, h.w20, h.w24, h.w28, h.w32, h.w36]) + h.setup
  }

  function HdrOf(s: seq<byte>): Hdr
    requires |s| >= HDR_LEN
  {
    var ws := WordsOf(s, 10);
    Hdr(ws[0], ws[1], ws[2], ws[3], ws[4], ws[5], ws[6], ws[7], ws[8], ws[9], s[40..48])
  }

  lemma HdrRoundTrip(h: Hdr, rest: seq<byte>)
    requires h.Fits()
    ensures HdrOf(HdrBytes(h) + rest) == h
  {
    var ws := [h.command, h.seqnum, h.devid, h.direction, h.ep, h.w20, h.w24, h.w28, h.w32, h.w36];
    var s := HdrBytes(h) + rest;
    assert s == PutWords(ws) + (h.setup + rest);
    WordsRoundTrip(ws, h.setup + rest);
    assert s[40..48] == h.setup;
  }

  /** A word as it stands on the wire, most significant byte first. */
  ghost predicate WordAt(s: seq<byte>, at: nat, n: nat) {
    at + 4 <= |s| && s[at] as nat * 0x100_0000 + s[at + 1] as nat * 0x1_0000 + s[at + 2] as nat * 0x100 + s[at + 3] as nat == n
  }

  lemma {:induction false} PutWordsAt(ws: seq<nat>, i: nat)
    requires i < |ws| && ws[i] < TWO32
    ensures WordAt(PutWords(ws), 4 * i, ws[i])
  {
    if i == 0 {
      WordValues(PutBe32(ws[0]));
    } else {
      PutWordsAt(ws[1..], i - 1);
      WordBehind(PutBe32(ws[0]), PutWords(ws[1..]), 4 * (i - 1), ws[i]);
    }
  }

  lemma WordBehind(front: seq<byte>, s: seq<byte>, at: nat, n: nat)
    requires WordAt(s, at, n)
    ensures WordAt(front + s, |front| + at, n)
  {}

  /** The fields at their offsets, each a big-endian word, and the SETUP bytes behind them. */
  ghost predicate Laid(s: seq<byte>, h: Hdr) {
    && |s| >= 48 && WordAt(s, 0, h.command) && WordAt(s, 4, h.seqnum) && WordAt(s, 8, h.devid)
    && WordAt(s, 12, h.direction) && WordAt(s, 16, h.ep) && WordAt(s, 20, h.w20) && WordAt(s, 24, h.w24)
    && WordAt(s, 28, h.w28) && WordAt(s, 32, h.w32) && WordAt(s, 36, h.w36) && s[40..48] == h.setup
  }

  lemma HdrLayout(h: Hdr, rest: seq<byte>)
    requires h.Fits()
    ensures Laid(HdrBytes(h) + rest, h) && (HdrBytes(h) + rest)[48..] == rest
  {
    var ws := [h.command, h.seqnum, h.devid, h.direction, h.ep, h.w20, h.w24, h.w28, h.w32, h.w36];
    assert HdrBytes(h) + rest == PutWords(ws) + (h.setup + rest);
    var more := h.setup + rest;
    FieldAt(ws, more, 0, 0); FieldAt(ws, more, 1, 4); FieldAt(ws, more, 2, 8); FieldAt(ws, more, 3, 12); FieldAt(ws, more, 4, 16);
    FieldAt(ws, more, 5, 20); FieldAt(ws, more, 6, 24); FieldAt(ws, more, 7, 28); FieldAt(ws, more, 8, 32); FieldAt(ws, more, 9, 36);
  }

  lemma FieldAt(ws: seq<nat>, more: seq<byte>, i: nat, at: nat)
    requires i < |ws| && at == 4 * i && ws[i] < TWO32
    ensures WordAt(PutWords(ws) + more, at, ws[i])
  {
    PutWordsAt(ws, i);
    WordInFront(PutWords(ws), more, at, ws[i]);
  }

  lemma WordInFront(s: seq<byte>, more: seq<byte>, at: nat, n: nat)
    requires WordAt(s, at, n)
    ensures WordAt(s + more, at, n)
  {}
}
