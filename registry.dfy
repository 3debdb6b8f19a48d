/** How the registry numbers the boxes of an N x N weight matrix: every cell of
    positive weight holds a box, and the boxes are numbered 0, 1, 2, ... in
    row-major order. */
module Registry {

  /** Number of boxes among the first j cells of a row. */
  function RowCount(row: seq<int>, j: nat): (count: nat)
    requires j <= |row|
  {
    if j == 0 then 0 else RowCount(row, j - 1) + (if row[j - 1] > 0 then 1 else 0)
  }

  /** Number of boxes in the first i rows. */
  function RowsCount(ws: seq<seq<int>>, i: nat): (count: nat)
    requires i <= |ws|
  {
    if i == 0 then 0 else RowsCount(ws, i - 1) + RowCount(ws[i - 1], |ws[i - 1]|)
  }

  /** Number of boxes of the whole matrix. */
  function BoxCount(ws: seq<seq<int>>): (count: nat)
  {
    RowsCount(ws, |ws|)
  }

  /** The id of the box at cell (i, j): the number of boxes before it in
      row-major order; -1 for a cell without a box. */
  function IdAt(ws: seq<seq<int>>, i: nat, j: nat): (id: int)
    requires i < |ws| && j < |ws[i]|
    ensures id >= 0 <==> ws[i][j] > 0
    ensures ws[i][j] <= 0 ==> id == -1
  {
    if ws[i][j] > 0 then RowsCount(ws, i) + RowCount(ws[i], j) else -1
  }

  /** Row-major order of cells. */
  predicate Before(i1: int, j1: int, i2: int, j2: int)
  {
    i1 < i2 || (i1 == i2 && j1 < j2)
  }

  lemma {:induction false} RowCountMono(row: seq<int>, j1: nat, j2: nat)
    requires j1 <= j2 <= |row|
    ensures RowCount(row, j1) <= RowCount(row, j2)
    decreases j2 - j1
  {
    if j1 < j2 {
      RowCountMono(row, j1, j2 - 1);
    }
  }

  /** A box in a row is counted before any later cell of that row. */
  lemma RowCountStrict(row: seq<int>, j1: nat, j2: nat)
    requires j1 < j2 <= |row| && row[j1] > 0
    ensures RowCount(row, j1) < RowCount(row, j2)
  {
    RowCountMono(row, j1 + 1, j2);
  }

  lemma {:induction false} RowsCountMono(ws: seq<seq<int>>, i1: nat, i2: nat)
    requires i1 <= i2 <= |ws|
    ensures RowsCount(ws, i1) <= RowsCount(ws, i2)
    decreases i2 - i1
  {
    if i1 < i2 {
      RowsCountMono(ws, i1, i2 - 1);
    }
  }

  /** The ids of two boxes follow row-major order, so no two boxes share an id. */
  lemma IdsIncrease(ws: seq<seq<int>>, i1: nat, j1: nat, i2: nat, j2: nat)
    requires i1 < |ws| && j1 < |ws[i1]| && i2 < |ws| && j2 < |ws[i2]|
    requires ws[i1][j1] > 0 && ws[i2][j2] > 0 && Before(i1, j1, i2, j2)
    ensures 0 <= IdAt(ws, i1, j1) < IdAt(ws, i2, j2)
  {
    if i1 == i2 {
      RowCountStrict(ws[i1], j1, j2);
    } else {
      RowCountStrict(ws[i1], j1, |ws[i1]|);
      RowsCountMono(ws, i1 + 1, i2);
    }
  }

  /** Every box gets an id in 0 .. BoxCount - 1; every other cell gets -1. */
  lemma IdInRange(ws: seq<seq<int>>, i: nat, j: nat)
    requires i < |ws| && j < |ws[i]|
    ensures ws[i][j] > 0 ==> 0 <= IdAt(ws, i, j) < BoxCount(ws)
    ensures ws[i][j] <= 0 ==> IdAt(ws, i, j) == -1
  {
    if ws[i][j] > 0 {
      RowCountStrict(ws[i], j, |ws[i]|);
      RowsCountMono(ws, i + 1, |ws|);
    }
  }
}
