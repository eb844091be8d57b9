/** The rule of the matrix model of g1g2_delta_patch.py as a table: it only depends on row and column
    modulo eight. */
module MatrixRule {
  import opened MatrixDelta

  const TABLE: seq<seq<int>> := [
    [1, 1, 1, 1, 1, 1, 1, 1],
    [0, 0, 0, 1, 0, 0, 0, 1],
    [0, 0, 1, 1, 0, 0, 1, 1],
    [0, 1, 0, 1, 0, 1, 0, 1],
    [1, 1, 1, 1, 1, 1, 1, 1],
    [0, 0, 0, 1, 0, 0, 0, 1],
    [0, 0, 1, 1, 0, 0, 1, 1],
    [0, 1, 0, 1, 0, 1, 0, 1]]

  function Mixed(a: int, b: int, c: int): bv8
    requires 0 <= a < 8 && 0 <= b < 8 && 0 <= c < 8
  {
    (a as bv8) ^ (b as bv8) ^ (c as bv8)
  }

  lemma Eights(k: int, r: int)
    ensures (8 * k + r) % 8 == r % 8
  {
  }

  lemma Reduces(row: int, col: int)
    ensures row * 1315423911 % 8 == row % 8 * 7 % 8
    ensures col * 2654435761 % 8 == col % 8
    ensures (row + col) % 8 == (row % 8 + col % 8) % 8
  {
    Eights(row * 164427988, row * 7);
    Eights(row / 8 * 7, row % 8 * 7);
    Eights(col * 331804470, col);
    Eights(row / 8 + col / 8, row % 8 + col % 8);
  }

  lemma Row0(c: int)
    requires 0 <= c < 8
    ensures (var m := Mixed(0, c, (0 + c) % 8); m == 0 || m == 3) <==> TABLE[0][c] == 1
    ensures TABLE[0][c] == 0 || TABLE[0][c] == 1
  {
    assert c == 0 || c == 1 || c == 2 || c == 3 || c == 4 || c == 5 || c == 6 || c == 7;
  }

  lemma Row1(c: int)
    requires 0 <= c < 8
    ensures (var m := Mixed(7, c, (1 + c) % 8); m == 0 || m == 3) <==> TABLE[1][c] == 1
    ensures TABLE[1][c] == 0 || TABLE[1][c] == 1
  {
    assert c == 0 || c == 1 || c == 2 || c == 3 || c == 4 || c == 5 || c == 6 || c == 7;
  }

  lemma Row2(c: int)
    requires 0 <= c < 8
    ensures (var m := Mixed(6, c, (2 + c) % 8); m == 0 || m == 3) <==> TABLE[2][c] == 1
    ensures TABLE[2][c] == 0 || TABLE[2][c] == 1
  {
    assert c == 0 || c == 1 || c == 2 || c == 3 || c == 4 || c == 5 || c == 6 || c == 7;
  }

  lemma Row3(c: int)
    requires 0 <= c < 8
    ensures (var m := Mixed(5, c, (3 + c) % 8); m == 0 || m == 3) <==> TABLE[3][c] == 1
    ensures TABLE[3][c] == 0 || TABLE[3][c] == 1
  {
    assert c == 0 || c == 1 || c == 2 || c == 3 || c == 4 || c == 5 || c == 6 || c == 7;
  }

  lemma Row4(c: int)
    requires 0 <= c < 8
    ensures (var m := Mixed(4, c, (4 + c) % 8); m == 0 || m == 3) <==> TABLE[4][c] == 1
    ensures TABLE[4][c] == 0 || TABLE[4][c] == 1
  {
    assert c == 0 || c == 1 || c == 2 || c == 3 || c == 4 || c == 5 || c == 6 || c == 7;
  }

  lemma Row5(c: int)
    requires 0 <= c < 8
    ensures (var m := Mixed(3, c, (5 + c) % 8); m == 0 || m == 3) <==> TABLE[5][c] == 1
    ensures TABLE[5][c] == 0 || TABLE[5][c] == 1
  {
    assert c == 0 || c == 1 || c == 2 || c == 3 || c == 4 || c == 5 || c == 6 || c == 7;
  }

  lemma Row6(c: int)
    requires 0 <= c < 8
    ensures (var m := Mixed(2, c, (6 + c) % 8); m == 0 || m == 3) <==> TABLE[6][c] == 1
    ensures TABLE[6][c] == 0 || TABLE[6][c] == 1
  {
    assert c == 0 || c == 1 || c == 2 || c == 3 || c == 4 || c == 5 || c == 6 || c == 7;
  }

  lemma Row7(c: int)
    requires 0 <= c < 8
    ensures (var m := Mixed(1, c, (7 + c) % 8); m == 0 || m == 3) <==> TABLE[7][c] == 1
    ensures TABLE[7][c] == 0 || TABLE[7][c] == 1
  {
    assert c == 0 || c == 1 || c == 2 || c == 3 || c == 4 || c == 5 || c == 6 || c == 7;
  }

  lemma RuleIsMixed(row: int, col: int)
    ensures var m := Mixed(row % 8 * 7 % 8, col % 8, (row % 8 + col % 8) % 8);
      RuleValue(row, col) == if m == 0 || m == 3 then 1 else 0
  {
    Reduces(row, col);
    LowOf(row * 1315423911, row % 8 * 7 % 8);
    LowOf(col * 2654435761, col % 8);
    LowOf(row + col, (row % 8 + col % 8) % 8);
    hide LowBits;
  }

  lemma LowOf(x: int, r: int)
    requires x % 8 == r
    ensures LowBits(x) == r as bv8
  {
  }

  lemma TableShape(r: int)
    requires 0 <= r < 8
    ensures |TABLE| == 8 && |TABLE[r]| == 8
  {
  }

  /** The rule of every cell, negative rows and columns included. */
  lemma RuleIsTable(row: int, col: int)
    ensures |TABLE| == 8 && |TABLE[row % 8]| == 8
    ensures RuleValue(row, col) == TABLE[row % 8][col % 8]
  {
    var r, c := row % 8, col % 8;
    TableShape(r);
    RuleIsMixed(row, col);
    TableRow(r, c);
    hide Mixed, RuleValue;
  }

  lemma TableRow(r: int, c: int)
    requires 0 <= r < 8 && 0 <= c < 8
    ensures |TABLE| == 8 && |TABLE[r]| == 8
    ensures var m := Mixed(r * 7 % 8, c, (r + c) % 8); TABLE[r][c] == if m == 0 || m == 3 then 1 else 0
  {
    hide Mixed;
    match r {
      case 0 => Row0(c);
      case 1 => Row1(c);
      case 2 => Row2(c);
      case 3 => Row3(c);
      case 4 => Row4(c);
      case 5 => Row5(c);
      case 6 => Row6(c);
      case _ => Row7(c);
    }
  }
}
