/** One reduction step of the agglomeration: select the closest pair,
    build the (L-1) x (L-1) matrix in which entity col+1 is gone and entity
    row stands for the merged cluster, and return the branch lengths
    (`update_mat_upgma`, `update_mat_nj`, `get_r_mat`, `get_m_mat`). */
module Reduction {
  import opened Matrix

  /** Cell (i, j) of the reduced matrix as the nested loops of both
      update functions write it.  The merged cell is (a + b - c) / 2:
      c is 0 for UPGMA and the selected cell mat[row][col] for NJ. */
  function ReducedCell(m: Mat, n: nat, row: nat, col: nat, c: real, i: nat, j: nat): real
    requires IsSquare(m, n) && row < n && col < n
    requires i < n - 1 && j < n - 1
  {
    if j < i then Sentinel
    else if i == row then
      if j >= col then (m[i][j + 1] + m[col + 1][j + 1] - c) / 2.0
      else (m[i][j] + m[j + 1][col] - c) / 2.0
    else if i > col then m[i + 1][j + 1]
    else if j == row - 1 then (m[i][row - 1] + m[i][col] - c) / 2.0
    else if j < col then m[i][j]
    else m[i][j + 1]
  }

  function Reduce(m: Mat, n: nat, row: nat, col: nat, c: real): (r: Mat)
    requires IsSquare(m, n) && n >= 1 && row < n && col < n
    ensures IsSquare(r, n - 1)
    ensures forall i, j | 0 <= i < n - 1 && 0 <= j < n - 1 :: r[i][j] == ReducedCell(m, n, row, col, c, i, j)
  {
    seq(n - 1, i requires 0 <= i < n - 1 =>
      seq(n - 1, j requires 0 <= j < n - 1 => ReducedCell(m, n, row, col, c, i, j)))
  }

  /** The fill state of the loops: the cells before (i, j) in row-major
      order hold their reduced value, the rest the sentinel. */
  ghost predicate ReducedBefore(a: array2<real>, m: Mat, n: nat, row: nat, col: nat, c: real, i: nat, j: nat)
    requires IsSquare(m, n) && n >= 1 && row < n && col < n
    requires a.Length0 == n - 1 && a.Length1 == n - 1
    reads a
  {
    forall ii, jj | 0 <= ii < n - 1 && 0 <= jj < n - 1 ::
      a[ii, jj] == if ii < i || (ii == i && jj < j) then ReducedCell(m, n, row, col, c, ii, jj) else Sentinel
  }

  /** The loops shared by both update functions: a fresh matrix starting
      at the sentinel, filled row by row from column irow on. */
  method FillReduced(mat: array2<real>, n: nat, row: nat, col: nat, c: real) returns (matNew: array2<real>)
    requires n >= 1 && mat.Length0 == n && mat.Length1 == n && row < n && col < n
    ensures fresh(matNew)
    ensures matNew.Length0 == n - 1 && matNew.Length1 == n - 1
    ensures Grid(matNew) == Reduce(Grid(mat), n, row, col, c)
  {
    ghost var g := Grid(mat);
    matNew := new real[n - 1, n - 1]((i, j) => Sentinel);
    for irow := 0 to n - 1
      invariant ReducedBefore(matNew, g, n, row, col, c, irow, 0)
    {
      for icol := irow to n - 1
        invariant ReducedBefore(matNew, g, n, row, col, c, irow, icol)
      {
        var v: real;
        if irow == row {
          if icol >= col {
            v := (mat[irow, icol + 1] + mat[col + 1, icol + 1] - c) / 2.0;
          } else {
            v := (mat[irow, icol] + mat[icol + 1, col] - c) / 2.0;
          }
        } else if irow > col {
          v := mat[irow + 1, icol + 1];
        } else {
          if icol == row - 1 {
            v := (mat[irow, row - 1] + mat[irow, col] - c) / 2.0;
          } else if icol < col {
            v := mat[irow, icol];
          } else {
            v := mat[irow, icol + 1];
          }
        }
        assert v == ReducedCell(g, n, row, col, c, irow, icol);
        matNew[irow, icol] := v;
      }
    }
    SameCells(Grid(matNew), Reduce(g, n, row, col, c), n - 1);
  }

  /** Where new entity e (of the reduced set) was before entity col+1 was
      removed: later entities shift down by one. */
  function OldEntity(col: nat, e: nat): (o: nat)
    ensures o != col + 1
    ensures e <= col ==> o == e
    ensures e > col ==> o == e + 1
  {
    if e <= col then e else e + 1
  }

  /** Every pair of entities neither of which is the merged cluster keeps
      its old dissimilarity under the re-indexing. */
  lemma ReduceKeepsOtherPairs(m: Mat, n: nat, row: nat, col: nat, c: real, x: nat, y: nat)
    requires IsSquare(m, n) && 2 <= n && row <= col < n
    requires x != y && x < n && y < n && x != row && y != row
    ensures Dist(Reduce(m, n, row, col, c), n - 1, x, y) == Dist(m, n, OldEntity(col, x), OldEntity(col, y))
  {
  }

  /** The merged cluster's dissimilarity to any other entity k is the mean
      of k's old dissimilarities to entity row and entity col+1, less c/2. */
  lemma ReduceMergedPairs(m: Mat, n: nat, row: nat, col: nat, c: real, k: nat)
    requires IsSquare(m, n) && 2 <= n && row <= col < n
    requires k < n && k != row
    ensures Dist(Reduce(m, n, row, col, c), n - 1, row, k)
         == (Dist(m, n, row, OldEntity(col, k)) + Dist(m, n, col + 1, OldEntity(col, k)) - c) / 2.0
  {
  }

  /** The reduced matrix has the sentinel below its diagonal again. */
  lemma ReduceLowerIsSentinel(m: Mat, n: nat, row: nat, col: nat, c: real)
    requires IsSquare(m, n) && 1 <= n && row < n && col < n
    ensures LowerIsSentinel(Reduce(m, n, row, col, c), n - 1)
  {
  }

  /** Under UPGMA (c = 0) every meaningful cell stays in [0, 1], so the
      sentinel is never selected in any later step. */
  lemma ReduceKeepsUnitRange(m: Mat, n: nat, row: nat, col: nat)
    requires IsSquare(m, n) && 1 <= n && row <= col < n
    requires UpperInUnitRange(m, n)
    ensures UpperInUnitRange(Reduce(m, n, row, col, 0.0), n - 1)
  {
    var r := Reduce(m, n, row, col, 0.0);
    forall i, j | 0 <= i <= j < n - 1 ensures 0.0 <= r[i][j] <= 1.0 {
      if i == row {
        if j >= col {
          assert 0.0 <= m[i][j + 1] <= 1.0 && 0.0 <= m[col + 1][j + 1] <= 1.0;
        } else {
          assert 0.0 <= m[i][j] <= 1.0 && 0.0 <= m[j + 1][col] <= 1.0;
        }
      } else if i > col {
        assert 0.0 <= m[i + 1][j + 1] <= 1.0;
      } else if j == row - 1 {
        assert 0.0 <= m[i][row - 1] <= 1.0 && 0.0 <= m[i][col] <= 1.0;
      } else if j < col {
        assert 0.0 <= m[i][j] <= 1.0;
      } else {
        assert 0.0 <= m[i][j + 1] <= 1.0;
      }
    }
  }

  /** update_mat_upgma: the first minimum, half of it as the branch length
      and the reduced matrix with plain means for the merged cluster. */
  method UpdateMatUpgma(mat: array2<real>, n: nat) returns (matNew: array2<real>, row: nat, col: nat, minDis: real)
    requires n >= 1 && mat.Length0 == n && mat.Length1 == n
    ensures fresh(matNew)
    ensures matNew.Length0 == n - 1 && matNew.Length1 == n - 1
    ensures IsFirstMin(Grid(mat), n, row, col)
    ensures minDis == Grid(mat)[row][col] / 2.0
    ensures Grid(matNew) == Reduce(Grid(mat), n, row, col, 0.0)
  {
    row, col := ArgMin(mat);
    minDis := mat[row, col] / 2.0;
    matNew := FillReduced(mat, n, row, col, 0.0);
  }

  /** Sum of row i over columns [lo, hi). */
  function RowSum(m: Mat, n: nat, i: nat, lo: nat, hi: nat): real
    requires IsSquare(m, n) && i < n && hi <= n
  {
    if hi <= lo then 0.0 else RowSum(m, n, i, lo, hi - 1) + m[i][hi - 1]
  }

  /** Sum of column c over rows [0, hi). */
  function ColSum(m: Mat, n: nat, c: nat, hi: nat): real
    requires IsSquare(m, n) && c < n && hi <= n
  {
    if hi == 0 then 0.0 else ColSum(m, n, c, hi - 1) + m[hi - 1][c]
  }

  /** Sum of Dist(k, e) over the entities e < hi other than k. */
  function SumDist(m: Mat, n: nat, k: nat, hi: nat): real
    requires IsSquare(m, n) && k <= n && hi <= n + 1
  {
    if hi == 0 then 0.0
    else SumDist(m, n, k, hi - 1) + (if hi - 1 == k then 0.0 else Dist(m, n, k, hi - 1))
  }

  /** The NJ total distance of entity k: the sum of its dissimilarities to
      every other entity. */
  function RTotal(m: Mat, n: nat, k: nat): real
    requires IsSquare(m, n) && k <= n
  {
    SumDist(m, n, k, n + 1)
  }

  function RTotals(m: Mat, n: nat): (r: seq<real>)
    requires IsSquare(m, n)
    ensures |r| == n + 1
    ensures forall k | 0 <= k <= n :: r[k] == RTotal(m, n, k)
  {
    seq(n + 1, k requires 0 <= k <= n => RTotal(m, n, k))
  }

  lemma {:induction false} SumDistBelow(m: Mat, n: nat, k: nat, hi: nat)
    requires IsSquare(m, n) && 1 <= k <= n && hi <= k
    ensures SumDist(m, n, k, hi) == ColSum(m, n, k - 1, hi)
  {
    if hi > 0 {
      SumDistBelow(m, n, k, hi - 1);
    }
  }

  lemma {:induction false} SumDistAbove(m: Mat, n: nat, k: nat, hi: nat)
    requires IsSquare(m, n) && k < n && k < hi <= n + 1
    ensures SumDist(m, n, k, hi) == SumDist(m, n, k, k + 1) + RowSum(m, n, k, k, hi - 1)
  {
    if hi > k + 1 {
      SumDistAbove(m, n, k, hi - 1);
    }
  }

  /** What get_r_mat adds up for entity k: row 0 whole for k = 0, the last
      column for k = n, and otherwise row k from column k on plus column
      k-1 above row k. */
  lemma RTotalAsScans(m: Mat, n: nat, k: nat)
    requires IsSquare(m, n) && 1 <= n && k <= n
    ensures k == 0 ==> RTotal(m, n, k) == RowSum(m, n, 0, 0, n)
    ensures 0 < k < n ==> RTotal(m, n, k) == RowSum(m, n, k, k, n) + ColSum(m, n, k - 1, k)
    ensures k == n ==> RTotal(m, n, k) == ColSum(m, n, n - 1, n)
  {
    if k == 0 {
      SumDistAbove(m, n, 0, n + 1);
    } else if k < n {
      SumDistAbove(m, n, k, n + 1);
      SumDistBelow(m, n, k, k);
    } else {
      SumDistBelow(m, n, n, n);
    }
  }

  /** get_r_mat: the n + 1 total distances. */
  method GetRMat(mat: array2<real>, n: nat) returns (r: seq<real>)
    requires n >= 1 && mat.Length0 == n && mat.Length1 == n
    ensures r == RTotals(Grid(mat), n)
  {
    ghost var g := Grid(mat);
    r := [];
    for ir := 0 to n + 1
      invariant |r| == ir
      invariant forall k | 0 <= k < ir :: r[k] == RTotal(g, n, k)
    {
      var rPro := 0.0;
      if ir == 0 {
        for j := 0 to n
          invariant rPro == RowSum(g, n, 0, 0, j)
        {
          rPro := rPro + mat[0, j];
        }
      } else if ir == n {
        for i := 0 to ir
          invariant rPro == ColSum(g, n, n - 1, i)
        {
          rPro := rPro + mat[i, n - 1];
        }
      } else {
        for j := ir to n
          invariant rPro == RowSum(g, n, ir, ir, j)
        {
          rPro := rPro + mat[ir, j];
        }
        for i := 0 to ir
          invariant rPro == RowSum(g, n, ir, ir, n) + ColSum(g, n, ir - 1, i)
        {
          rPro := rPro + mat[i, ir - 1];
        }
      }
      RTotalAsScans(g, n, ir);
      r := r + [rPro];
    }
  }

  /** The NJ selection criterion for cell (i, j): the pair's dissimilarity
      less the two totals over n - 1. */
  function QCell(m: Mat, n: nat, r: seq<real>, i: nat, j: nat): real
    requires IsSquare(m, n) && n >= 2 && |r| == n + 1 && i < n && j < n
  {
    if j < i then Sentinel else m[i][j] - (r[i] + r[j + 1]) / ((n - 1) as real)
  }

  function QMatrix(m: Mat, n: nat, r: seq<real>): (q: Mat)
    requires IsSquare(m, n) && n >= 2 && |r| == n + 1
    ensures IsSquare(q, n) && LowerIsSentinel(q, n)
    ensures forall i, j | 0 <= i <= j < n :: q[i][j] == Dist(m, n, i, j + 1) - (r[i] + r[j + 1]) / ((n - 1) as real)
  {
    seq(n, i requires 0 <= i < n => seq(n, j requires 0 <= j < n => QCell(m, n, r, i, j)))
  }

  /** get_m_mat. */
  method GetMMat(mat: array2<real>, r: seq<real>, n: nat) returns (q: array2<real>)
    requires n >= 2 && mat.Length0 == n && mat.Length1 == n && |r| == n + 1
    ensures fresh(q)
    ensures q.Length0 == n && q.Length1 == n
    ensures Grid(q) == QMatrix(Grid(mat), n, r)
  {
    ghost var g := Grid(mat);
    q := new real[n, n]((i, j) => Sentinel);
    for irow := 0 to n
      invariant forall i, j | 0 <= i < irow && 0 <= j < n :: q[i, j] == QCell(g, n, r, i, j)
      invariant forall i, j | irow <= i < n && 0 <= j < n :: q[i, j] == Sentinel
    {
      for icol := irow to n
        invariant forall i, j | 0 <= i < irow && 0 <= j < n :: q[i, j] == QCell(g, n, r, i, j)
        invariant forall j | 0 <= j < icol :: q[irow, j] == QCell(g, n, r, irow, j)
        invariant forall j | icol <= j < n :: q[irow, j] == Sentinel
        invariant forall i, j | irow < i < n && 0 <= j < n :: q[i, j] == Sentinel
      {
        q[irow, icol] := mat[irow, icol] - (r[irow] + r[icol + 1]) / ((n - 1) as real);
      }
    }
    SameCells(Grid(q), QMatrix(g, n, r), n);
  }

  /** The two NJ branch lengths before clamping. */
  function NjLengths(m: Mat, n: nat, r: seq<real>, row: nat, col: nat): (d: (real, real))
    requires IsSquare(m, n) && row < n && col < n
    requires n >= 2 ==> |r| == n + 1
    ensures d.0 + d.1 == m[row][col]
    ensures n == 1 ==> d.0 == d.1 == m[row][col] / 2.0
    ensures n >= 2 ==> d.0 - d.1 == (r[row] - r[col + 1]) / ((n - 1) as real)
  {
    if n == 1 then (m[row][col] / 2.0, m[row][col] - m[row][col] / 2.0)
    else
      var d1 := m[row][col] / 2.0 + (r[row] - r[col + 1]) / (2.0 * ((n - 1) as real));
      assert (r[row] - r[col + 1]) / (2.0 * ((n - 1) as real)) * 2.0 == (r[row] - r[col + 1]) / ((n - 1) as real);
      (d1, m[row][col] - d1)
  }

  /** A negative NJ branch length becomes 0.01. */
  function Clamp(x: real): (y: real)
    ensures y >= 0.0
    ensures x < 0.0 ==> y == 0.01
    ensures x >= 0.0 ==> y == x
  {
    if x < 0.0 then 0.01 else x
  }

  /** update_mat_nj.  With one cell left the lone value is halved; otherwise
      the pair is the first minimum of the criterion matrix. */
  method UpdateMatNj(mat: array2<real>, n: nat) returns (matNew: array2<real>, row: nat, col: nat, d1: real, d2: real)
    requires n >= 1 && mat.Length0 == n && mat.Length1 == n
    ensures fresh(matNew)
    ensures matNew.Length0 == n - 1 && matNew.Length1 == n - 1
    ensures n == 1 ==> row == 0 && col == 0
    ensures n >= 2 ==> IsFirstMin(QMatrix(Grid(mat), n, RTotals(Grid(mat), n)), n, row, col)
    ensures row < n && col < n
    ensures d1 == Clamp(NjLengths(Grid(mat), n, RTotals(Grid(mat), n), row, col).0)
    ensures d2 == Clamp(NjLengths(Grid(mat), n, RTotals(Grid(mat), n), row, col).1)
    ensures Grid(matNew) == Reduce(Grid(mat), n, row, col, Grid(mat)[row][col])
  {
    ghost var g := Grid(mat);
    if n == 1 {
      row, col := ArgMin(mat);
      assert mat[row, col] == g[row][col];
      d1 := mat[row, col] / 2.0;
      d2 := mat[row, col] - d1;
      assert (d1, d2) == NjLengths(g, n, RTotals(g, n), row, col);
    } else {
      var r := GetRMat(mat, n);
      var q := GetMMat(mat, r, n);
      row, col := ArgMin(q);
      assert mat[row, col] == g[row][col];
      d1 := mat[row, col] / 2.0 + (r[row] - r[col + 1]) / (2.0 * ((n - 1) as real));
      d2 := mat[row, col] - d1;
      assert (d1, d2) == NjLengths(g, n, r, row, col);
    }
    matNew := FillReduced(mat, n, row, col, mat[row, col]);
    if d1 < 0.0 {
      d1 := 0.01;
    }
    if d2 < 0.0 {
      d2 := 0.01;
    }
  }
}
