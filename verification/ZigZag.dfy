/** The zig-zag order of jpeg.c is the walk along the diagonals of the 8x8 block, and placing
    what arrives in that order undoes it. */
module ZigZag {

  type Square = x: int | 0 <= x < 64

  /** ZZ, half a row of the source's table to a line. */
  const TABLE: seq<seq<Square>> := [
    [0, 1, 8, 16, 9, 2, 3, 10], [17, 24, 32, 25, 18, 11, 4, 5],
    [12, 19, 26, 33, 40, 48, 41, 34], [27, 20, 13, 6, 7, 14, 21, 28],
    [35, 42, 49, 56, 57, 50, 43, 36], [29, 22, 15, 23, 30, 37, 44, 51],
    [58, 59, 52, 45, 38, 31, 39, 46], [53, 60, 61, 54, 47, 55, 62, 63]]

  function ZZ(k: nat): Square
    requires k < 64
  {
    TABLE[k / 8][k % 8]
  }

  /** How many squares lie on the diagonals before each diagonal. */
  const START: seq<seq<nat>> := [[0, 1, 3, 6, 10, 15, 21, 28], [36, 43, 49, 54, 58, 61, 63, 64]]

  /** When the walk reaches a square: after the diagonals before its own, going up the even
      diagonals and down the odd ones. */
  function Position(row: nat, col: nat): int
    requires row < 8 && col < 8
  {
    var d := row + col;
    START[d / 8][d % 8] + (if d % 2 == 0 then col else row) - (if d < 8 then 0 else d - 7)
  }

  ghost predicate Reaches(row: nat, col: nat)
    requires row < 8 && col < 8
  {
    0 <= Position(row, col) < 64 && ZZ(Position(row, col)) == 8 * row + col
  }

  /** The walk meets every square of a row where the table has it. */
  ghost predicate RowReached(row: nat)
    requires row < 8
  {
    && Reaches(row, 0) && Reaches(row, 1) && Reaches(row, 2) && Reaches(row, 3)
    && Reaches(row, 4) && Reaches(row, 5) && Reaches(row, 6) && Reaches(row, 7)
  }

  lemma Row0Left() ensures Reaches(0, 0) && Reaches(0, 1) && Reaches(0, 2) && Reaches(0, 3) {}
  lemma Row0Right() ensures Reaches(0, 4) && Reaches(0, 5) && Reaches(0, 6) && Reaches(0, 7) {}
  lemma Row0() ensures RowReached(0)
  {
    Row0Left();
    Row0Right();
  }
  lemma Row1() ensures RowReached(1) {}
  lemma Row2() ensures RowReached(2) {}
  lemma Row3() ensures RowReached(3) {}
  lemma Row4() ensures RowReached(4) {}
  lemma Row5() ensures RowReached(5) {}
  lemma Row6() ensures RowReached(6) {}
  lemma Row7() ensures RowReached(7) {}

  lemma RowIsReached(row: nat)
    requires row < 8
    ensures RowReached(row)
  {
    match row
    case 0 => Row0();
    case 1 => Row1();
    case 2 => Row2();
    case 3 => Row3();
    case 4 => Row4();
    case 5 => Row5();
    case 6 => Row6();
    case 7 => Row7();
  }

  /** The table is the zig-zag walk: every square is where the walk meets it. */
  lemma TableIsWalk(row: nat, col: nat)
    requires row < 8 && col < 8
    ensures 0 <= Position(row, col) < 64 && ZZ(Position(row, col)) == 8 * row + col
  {
    RowIsReached(row);
    match col
    case 0 =>
    case 1 =>
    case 2 =>
    case 3 =>
    case 4 =>
    case 5 =>
    case 6 =>
    case 7 =>
  }

  /** The coefficients in the order they are sent. */
  function Ordered(coef: seq<int>): (z: seq<int>)
    requires |coef| == 64
    ensures |z| == 64
  {
    seq(64, k requires 0 <= k < 64 => coef[ZZ(k)])
  }

  lemma OrderedFirst(coef: seq<int>)
    requires |coef| == 64
    ensures Ordered(coef)[0] == coef[0]
  {
    TableIsWalk(0, 0);
  }

  /** What a decoder does: each coefficient received goes to the square its turn names. */
  function Placed(z: seq<int>): (coef: seq<int>)
    requires |z| == 64
    ensures |coef| == 64
  {
    seq(64, i requires 0 <= i < 64 => TableIsWalk(i / 8, i % 8); z[Position(i / 8, i % 8)])
  }

  lemma PlacedOrdered(coef: seq<int>)
    requires |coef| == 64
    ensures Placed(Ordered(coef)) == coef
  {
    forall i | 0 <= i < 64 ensures Placed(Ordered(coef))[i] == coef[i] {
      TableIsWalk(i / 8, i % 8);
    }
  }
}
