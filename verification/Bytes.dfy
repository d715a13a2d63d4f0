/** Bytes and the sequence helpers every component shares. */
module Bytes {

  type byte = x: int | 0 <= x < 256

  datatype Option<T> = None | Some(value: T)

  function Zeros(n: nat): (z: seq<byte>)
    ensures |z| == n
  {
    seq(n, _ => 0)
  }

  /** All the chunks of `ss`, end to end. */
  function Flatten<T>(ss: seq<seq<T>>): seq<T> {
    if ss == [] then [] else ss[0] + Flatten(ss[1..])
  }

  lemma FlattenAppend<T>(a: seq<seq<T>>, b: seq<seq<T>>)
    ensures Flatten(a + b) == Flatten(a) + Flatten(b)
  {
    if a == [] {
      assert a + b == b;
    } else {
      assert (a + b)[1..] == a[1..] + b;
      FlattenAppend(a[1..], b);
    }
  }

  lemma FlattenSingle<T>(s: seq<T>)
    ensures Flatten([s]) == s
  {
    assert [s][1..] == [];
  }

  lemma FlattenSnoc<T>(ss: seq<seq<T>>, s: seq<T>)
    ensures Flatten(ss + [s]) == Flatten(ss) + s
  {
    FlattenAppend(ss, [s]);
    FlattenSingle(s);
  }

  /** How often `x` is in `s`. */
  function CountOf<T(==)>(s: seq<T>, x: T): nat {
    if s == [] then 0 else (if s[0] == x then 1 else 0) + CountOf(s[1..], x)
  }

  lemma CountOfAppend<T>(a: seq<T>, b: seq<T>, x: T)
    ensures CountOf(a + b, x) == CountOf(a, x) + CountOf(b, x)
  {
    if a == [] {
      assert a + b == b;
    } else {
      assert (a + b)[1..] == a[1..] + b;
      CountOfAppend(a[1..], b, x);
    }
  }

  lemma CountOfRemove<T>(s: seq<T>, k: nat, x: T)
    requires k < |s|
    ensures CountOf(s, x) == CountOf(s[..k] + s[k + 1..], x) + CountOf([s[k]], x)
  {
    assert s == s[..k] + ([s[k]] + s[k + 1..]);
    CountOfAppend(s[..k], [s[k]] + s[k + 1..], x);
    CountOfAppend([s[k]], s[k + 1..], x);
    CountOfAppend(s[..k], s[k + 1..], x);
  }

  lemma Assoc<T>(a: seq<T>, b: seq<T>, c: seq<T>)
    ensures a + b + c == a + (b + c)
  {}

  // ---- byte order (usb_byteorder.h) --------------------------------------------------

  const TWO16 := 0x1_0000
  const TWO32 := 0x1_0000_0000

  function Le16(s: seq<byte>): (n: nat)
    requires |s| >= 2
    ensures n < TWO16
  {
    s[0] as nat + s[1] as nat * 0x100
  }

  function PutLe16(n: nat): (s: seq<byte>)
    ensures |s| == 2
    ensures n < TWO16 ==> Le16(s) == n
  {
    [n % 0x100, n / 0x100 % 0x100]
  }

  function Le32(s: seq<byte>): (n: nat)
    requires |s| >= 4
    ensures n < TWO32
  {
    Le16(s[..2]) + Le16(s[2..4]) * TWO16
  }

  function PutLe32(n: nat): (s: seq<byte>)
    ensures |s| == 4
    ensures n < TWO32 ==> Le32(s) == n
  {
    var s := PutLe16(n % TWO16) + PutLe16(n / TWO16 % TWO16);
    assert s[..2] == PutLe16(n % TWO16) && s[2..4] == PutLe16(n / TWO16 % TWO16);
    s
  }

  function Be16(s: seq<byte>): (n: nat)
    requires |s| >= 2
    ensures n < TWO16
  {
    s[0] as nat * 0x100 + s[1] as nat
  }

  function PutBe16(n: nat): (s: seq<byte>)
    ensures |s| == 2
    ensures n < TWO16 ==> Be16(s) == n
  {
    [n / 0x100 % 0x100, n % 0x100]
  }

  function Be32(s: seq<byte>): (n: nat)
    requires |s| >= 4
    ensures n < TWO32
  {
    Be16(s[..2]) * TWO16 + Be16(s[2..4])
  }

  function PutBe32(n: nat): (s: seq<byte>)
    ensures |s| == 4
    ensures n < TWO32 ==> Be32(s) == n
  {
    var s := PutBe16(n / TWO16 % TWO16) + PutBe16(n % TWO16);
    assert s[..2] == PutBe16(n / TWO16 % TWO16) && s[2..4] == PutBe16(n % TWO16);
    s
  }

  /** What the bytes come to. */
  lemma WordValues(s: seq<byte>)
    requires |s| >= 4
    ensures Be16(s) == s[0] as nat * 0x100 + s[1] as nat && Le16(s) == s[0] as nat + s[1] as nat * 0x100
    ensures Be32(s) == s[0] as nat * 0x100_0000 + s[1] as nat * 0x1_0000 + s[2] as nat * 0x100 + s[3] as nat
    ensures Le32(s) == s[0] as nat + s[1] as nat * 0x100 + s[2] as nat * 0x1_0000 + s[3] as nat * 0x100_0000
  {}
}
