/** The dissimilarity matrix shared by the builder and both reduction
    strategies.  The numeric array the program fills cell by cell is an
    `array2<real>`; `Grid` gives its value as a sequence of rows, on which
    the specification functions and lemmas are stated.

    For L+1 entities the matrix is L x L.  Cell (i, j) with j >= i holds the
    dissimilarity of entity i and entity j+1; every cell below the diagonal
    holds the sentinel 1.0001. */
module Matrix {

  type Mat = seq<seq<real>>

  /** Filler of the cells that hold no pair (numpy `ones + 0.0001`). */
  const Sentinel: real := 10001.0 / 10000.0

  predicate IsSquare(m: Mat, n: nat)
  {
    |m| == n && forall i | 0 <= i < n :: |m[i]| == n
  }

  /** The value of a numeric array, row by row. */
  ghost function Grid(a: array2<real>): (g: Mat)
    reads a
    ensures |g| == a.Length0
    ensures forall i | 0 <= i < a.Length0 :: |g[i]| == a.Length1
    ensures forall i, j | 0 <= i < a.Length0 && 0 <= j < a.Length1 :: g[i][j] == a[i, j]
  {
    seq(a.Length0, i requires 0 <= i < a.Length0 reads a =>
      seq(a.Length1, j requires 0 <= j < a.Length1 reads a => a[i, j]))
  }

  /** Two square values agreeing cell by cell are the same value. */
  lemma SameCells(g: Mat, h: Mat, n: nat)
    requires IsSquare(g, n) && IsSquare(h, n)
    requires forall i, j | 0 <= i < n && 0 <= j < n :: g[i][j] == h[i][j]
    ensures g == h
  {
    forall i | 0 <= i < n ensures g[i] == h[i] {
      assert |g[i]| == |h[i]|;
    }
  }

  /** Cells below the diagonal are the sentinel. */
  predicate LowerIsSentinel(m: Mat, n: nat)
    requires IsSquare(m, n)
  {
    forall i, j | 0 <= i < n && 0 <= j < i :: m[i][j] == Sentinel
  }

  /** Every meaningful cell (j >= i) is strictly below the sentinel. */
  predicate UpperBelowSentinel(m: Mat, n: nat)
    requires IsSquare(m, n)
  {
    forall i, j | 0 <= i <= j < n :: m[i][j] < Sentinel
  }

  /** Every meaningful cell lies in [0, 1]. */
  predicate UpperInUnitRange(m: Mat, n: nat)
    requires IsSquare(m, n)
  {
    forall i, j | 0 <= i <= j < n :: 0.0 <= m[i][j] <= 1.0
  }

  /** The entity view: the dissimilarity of entities a and b (of n + 1)
      held by an n x n matrix. */
  function Dist(m: Mat, n: nat, a: nat, b: nat): real
    requires IsSquare(m, n)
    requires a != b && a <= n && b <= n
  {
    if a < b then m[a][b - 1] else m[b][a - 1]
  }

  /** Cell (i, j) comes before cell (r, c) in row-major order. */
  predicate Before(i: nat, j: nat, r: nat, c: nat)
  {
    i < r || (i == r && j < c)
  }

  /** (row, col) is the first minimum of m in row-major order, which is
      what numpy's `argmin` followed by `idx div L`, `idx mod L` selects. */
  predicate IsFirstMin(m: Mat, n: nat, row: nat, col: nat)
    requires IsSquare(m, n)
  {
    row < n && col < n &&
    (forall i, j | 0 <= i < n && 0 <= j < n :: m[row][col] <= m[i][j]) &&
    (forall i, j | 0 <= i < n && 0 <= j < n && Before(i, j, row, col) :: m[row][col] < m[i][j])
  }

  /** The first minimum of a square array in row-major order. */
  method ArgMin(a: array2<real>) returns (row: nat, col: nat)
    requires a.Length0 == a.Length1 >= 1
    ensures IsFirstMin(Grid(a), a.Length0, row, col)
  {
    var n := a.Length0;
    row, col := 0, 0;
    for i := 0 to n
      invariant row < n && col < n
      invariant forall ii, jj | 0 <= ii < i && 0 <= jj < n :: a[row, col] <= a[ii, jj]
      invariant forall ii, jj | 0 <= ii < i && 0 <= jj < n && Before(ii, jj, row, col) :: a[row, col] < a[ii, jj]
      invariant i == 0 ==> row == 0 && col == 0
      invariant i > 0 ==> row < i
    {
      for j := 0 to n
        invariant row < n && col < n
        invariant forall ii, jj | 0 <= ii < i && 0 <= jj < n :: a[row, col] <= a[ii, jj]
        invariant forall jj | 0 <= jj < j :: a[row, col] <= a[i, jj]
        invariant forall ii, jj | 0 <= ii < i && 0 <= jj < n && Before(ii, jj, row, col) :: a[row, col] < a[ii, jj]
        invariant forall jj | 0 <= jj < j && Before(i, jj, row, col) :: a[row, col] < a[i, jj]
        invariant (i == 0 && j == 0) ==> row == 0 && col == 0
        invariant Before(row, col, i, j) || (row == 0 && col == 0 && i == 0 && j == 0)
      {
        if a[i, j] < a[row, col] {
          row, col := i, j;
        }
      }
    }
  }

  /** With the sentinel below the diagonal and every meaningful cell below
      the sentinel, the selected cell is a meaningful one. */
  lemma FirstMinIsUpper(m: Mat, n: nat, row: nat, col: nat)
    requires IsSquare(m, n) && LowerIsSentinel(m, n) && UpperBelowSentinel(m, n)
    requires IsFirstMin(m, n, row, col)
    ensures row <= col
  {
    assert m[row][col] <= m[0][0] < Sentinel;
  }

  /** Cells in [0, 1] are below the sentinel. */
  lemma UnitRangeBelowSentinel(m: Mat, n: nat)
    requires IsSquare(m, n) && UpperInUnitRange(m, n)
    ensures UpperBelowSentinel(m, n)
  {
  }
}
