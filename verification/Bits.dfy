/** Bit strings, most significant bit first, and the numbers they spell. */
module Bits {

  function Pow2(n: nat): (p: nat)
    ensures p > 0
  {
    if n == 0 then 1 else 2 * Pow2(n - 1)
  }

  lemma {:induction false} Pow2Add(a: nat, b: nat)
    ensures Pow2(a + b) == Pow2(a) * Pow2(b)
  {
    if a > 0 {
      Pow2Add(a - 1, b);
    }
  }

  lemma Pow2Of16()
    ensures Pow2(16) == 0x1_0000
  {
    assert Pow2(8) == 256;
    Pow2Add(8, 8);
  }

  lemma Pow2Monotone(a: nat, b: nat)
    requires a <= b
    ensures Pow2(a) <= Pow2(b)
  {
    if a < b {
      Pow2Monotone(a, b - 1);
    }
  }

  /** The low `n` bits of `v`. */
  function BitsOf(v: nat, n: nat): (b: seq<bool>)
    ensures |b| == n
  {
    if n == 0 then [] else BitsOf(v / 2, n - 1) + [v % 2 == 1]
  }

  function Value(b: seq<bool>): (v: nat)
    ensures v < Pow2(|b|)
  {
    if b == [] then 0 else 2 * Value(b[..|b| - 1]) + if b[|b| - 1] then 1 else 0
  }

  lemma {:induction false} ValueOfBits(v: nat, n: nat)
    ensures Value(BitsOf(v, n)) == v % Pow2(n)
  {
    if n > 0 {
      ValueOfBits(v / 2, n - 1);
      assert BitsOf(v, n)[..n - 1] == BitsOf(v / 2, n - 1);
      ModHalf(v, Pow2(n - 1));
    }
  }

  lemma ModHalf(v: nat, p: nat)
    requires p > 0
    ensures v % (2 * p) == 2 * (v / 2 % p) + v % 2
  {
    var q, r := v / 2 / p, v / 2 % p;
    assert v / 2 == q * p + r;
    assert v == q * (2 * p) + (2 * r + v % 2);
    ModUnique(v, 2 * p, q, 2 * r + v % 2);
  }

  lemma MulAtLeast(x: int, m: int)
    requires m >= 0
    ensures x >= 1 ==> x * m >= m
    ensures x <= -1 ==> x * m <= -m
  {
    if x >= 1 {
      assert (x - 1) * m >= 0;
    } else if x <= -1 {
      assert (-x - 1) * m >= 0;
    }
  }

  lemma ModUnique(v: nat, m: nat, q: nat, r: nat)
    requires m > 0 && v == q * m + r && r < m
    ensures v / m == q && v % m == r
  {
    var q', r' := v / m, v % m;
    assert v == m * q' + r';
    assert (q' - q) * m == r - r';
    MulAtLeast(q' - q, m);
  }

  lemma BitsSnoc(v: nat, n: nat, x: bool)
    ensures BitsOf(2 * v + if x then 1 else 0, n + 1) == BitsOf(v, n) + [x]
  {
    var w := 2 * v + if x then 1 else 0;
    assert w / 2 == v && (w % 2 == 1) == x;
  }

  lemma {:induction false} BitsOfValue(b: seq<bool>)
    ensures BitsOf(Value(b), |b|) == b
  {
    if b != [] {
      var front, last := b[..|b| - 1], b[|b| - 1];
      BitsOfValue(front);
      BitsSnoc(Value(front), |front|, last);
      assert b == front + [last];
    }
  }

  lemma ValueSnoc(a: seq<bool>, x: bool)
    ensures Value(a + [x]) == 2 * Value(a) + if x then 1 else 0
  {
    assert (a + [x])[..|a|] == a;
  }

  lemma {:induction false} ValueAppend(a: seq<bool>, b: seq<bool>)
    ensures Value(a + b) == Value(a) * Pow2(|b|) + Value(b)
  {
    if b == [] {
      assert a + b == a;
    } else {
      var front, last := b[..|b| - 1], b[|b| - 1];
      assert a + b == (a + front) + [last];
      ValueSnoc(a + front, last);
      ValueAppend(a, front);
      ValueSnoc(front, last);
      assert b == front + [last];
      Double(Value(a), Pow2(|front|));
    }
  }

  lemma Double(x: nat, p: nat)
    ensures x * (2 * p) == 2 * (x * p)
  {}
}
