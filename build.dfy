/** Construction of the first dissimilarity matrix from the pairwise score
    table (`align2mat`).  The table's columns are given as sequences: the
    two entity ids of each row and the two directional scores TM1, TM2. */
module Build {
  import opened Matrix

  /** How the two directional scores of a row are combined. */
  datatype ScoreMode = TM1 | TM2 | Long | Short | Average

  /** The option string; any unrecognised value means the mean. */
  function ParseScoreMode(s: string): (mode: ScoreMode)
    ensures mode == Average <==> s != "TM1" && s != "TM2" && s != "long" && s != "short"
    ensures s == "long" <==> mode == Long
    ensures s == "short" <==> mode == Short
  {
    if s == "TM1" then TM1
    else if s == "TM2" then TM2
    else if s == "long" then Long
    else if s == "short" then Short
    else Average
  }

  /** One row's combined score: normalised by the longer chain is the
      smaller score, by the shorter chain the larger one. */
  function Combine(mode: ScoreMode, a: real, b: real): (x: real)
    ensures (if a <= b then a else b) <= x <= (if a <= b then b else a)
    ensures mode == TM1 ==> x == a
    ensures mode == TM2 ==> x == b
    ensures mode == Long ==> x <= a && x <= b && (x == a || x == b)
    ensures mode == Short ==> x >= a && x >= b && (x == a || x == b)
    ensures mode == Average ==> x - a == b - x
  {
    match mode
    case TM1 => a
    case TM2 => b
    case Long => if a <= b then a else b
    case Short => if a <= b then b else a
    case Average => (a + b) / 2.0
  }

  function CombinedScores(tm1: seq<real>, tm2: seq<real>, mode: ScoreMode): (s: seq<real>)
    requires |tm1| == |tm2|
    ensures |s| == |tm1|
    ensures forall k | 0 <= k < |s| :: s[k] == Combine(mode, tm1[k], tm2[k])
  {
    seq(|tm1|, k requires 0 <= k < |tm1| => Combine(mode, tm1[k], tm2[k]))
  }

  function MinOf(s: seq<real>): (r: real)
    requires |s| > 0
    ensures r in s
    ensures forall k | 0 <= k < |s| :: r <= s[k]
  {
    if |s| == 1 then s[0]
    else
      var rest := MinOf(s[1..]);
      if s[0] <= rest then s[0] else rest
  }

  function MaxOf(s: seq<real>): (r: real)
    requires |s| > 0
    ensures r in s
    ensures forall k | 0 <= k < |s| :: s[k] <= r
  {
    if |s| == 1 then s[0]
    else
      var rest := MaxOf(s[1..]);
      if s[0] >= rest then s[0] else rest
  }

  /** Min-max normalised and inverted score number k: the best score maps
      to 0 and the worst to 1. */
  function Normalised(s: seq<real>, k: nat): (d: real)
    requires k < |s| && MinOf(s) < MaxOf(s)
    ensures 0.0 <= d <= 1.0
    ensures s[k] == MaxOf(s) ==> d == 0.0
    ensures s[k] == MinOf(s) ==> d == 1.0
  {
    Inverted(s[k], MinOf(s), MaxOf(s))
  }

  /** x in [lo, hi] scaled to [0, 1] and turned round. */
  function Inverted(x: real, lo: real, hi: real): (d: real)
    requires lo <= x <= hi && lo < hi
    ensures 0.0 <= d <= 1.0
    ensures x == hi ==> d == 0.0
    ensures x == lo ==> d == 1.0
  {
    QuotientInUnitRange(x - lo, hi - lo);
    1.0 - (x - lo) / (hi - lo)
  }

  lemma QuotientInUnitRange(a: real, b: real)
    requires 0.0 <= a <= b && 0.0 < b
    ensures 0.0 <= a / b <= 1.0
    ensures a == b ==> a / b == 1.0
  {
    assert a / b * b == a;
  }

  /** Normalisation inverts the order: a higher score gives a smaller
      dissimilarity. */
  lemma NormalisedReversesOrder(s: seq<real>, k: nat, k': nat)
    requires k < |s| && k' < |s| && MinOf(s) < MaxOf(s)
    requires s[k] < s[k']
    ensures Normalised(s, k') < Normalised(s, k)
  {
    InvertedReversesOrder(s[k], s[k'], MinOf(s), MaxOf(s));
  }

  lemma InvertedReversesOrder(x: real, y: real, lo: real, hi: real)
    requires lo <= x < y <= hi && lo < hi
    ensures Inverted(y, lo, hi) < Inverted(x, lo, hi)
  {
    QuotientMonotone(x - lo, y - lo, hi - lo);
  }

  lemma QuotientMonotone(a: real, b: real, d: real)
    requires a < b && 0.0 < d
    ensures a / d < b / d
  {
    assert b / d - a / d == (b - a) / d;
  }

  /** Position of the first occurrence of x in s. */
  function IndexOf(s: seq<string>, x: string): (r: nat)
    requires x in s
    ensures r < |s| && s[r] == x
    ensures forall k | 0 <= k < r :: s[k] != x
  {
    if s[0] == x then 0 else 1 + IndexOf(s[1..], x)
  }

  /** The ids of a column in order of first appearance (pandas `unique`). */
  function Unique(s: seq<string>): (r: seq<string>)
    ensures forall x :: x in r <==> x in s
    ensures forall i, j | 0 <= i < j < |r| :: r[i] != r[j]
    ensures forall i, j {:trigger IndexOf(s, r[i]), IndexOf(s, r[j])} | 0 <= i < j < |r| :: IndexOf(s, r[i]) < IndexOf(s, r[j])
    ensures |r| <= |s|
  {
    if |s| == 0 then []
    else
      var u := Unique(s[..|s| - 1]);
      assert forall x :: x in s <==> x in s[..|s| - 1] || x == s[|s| - 1];
      assert s == s[..|s| - 1] + [s[|s| - 1]];
      IndexOfSnoc(s[..|s| - 1], s[|s| - 1]);
      if s[|s| - 1] in u then u else u + [s[|s| - 1]]
  }

  /** Appending y keeps the first positions of the earlier elements, and
      a new y is found at the end. */
  lemma IndexOfSnoc(p: seq<string>, y: string)
    ensures forall x | x in p :: IndexOf(p + [y], x) == IndexOf(p, x)
    ensures y !in p ==> IndexOf(p + [y], y) == |p|
  {
    var q := p + [y];
    forall x | x in p ensures IndexOf(q, x) == IndexOf(p, x) {
      var i, j := IndexOf(q, x), IndexOf(p, x);
      assert q[j] == x;
    }
  }

  /** Number of meaningful cells in the rows before row i of an m x m
      matrix, i.e. the score index at which row i starts. */
  function RowStart(m: nat, i: nat): nat
    requires i <= m
  {
    if i == 0 then 0 else RowStart(m, i - 1) + (m - (i - 1))
  }

  lemma {:induction false} RowStartClosedForm(m: nat, i: nat)
    requires i <= m
    ensures 2 * RowStart(m, i) == i * (2 * m + 1 - i)
  {
    if i > 0 {
      var j, w := i - 1, 2 * m - (i - 1);
      RowStartClosedForm(m, j);
      assert 2 * m + 1 - j == w + 1 && 2 * m + 1 - i == w;
      MulSucc(j, w);
      MulSucc(w, j);
      assert w * i == w * j + w;
    }
  }

  lemma MulSucc(a: int, b: int)
    ensures a * (b + 1) == a * b + a && (b + 1) * a == b * a + a
  {
  }

  /** The whole upper triangle holds m(m+1)/2 cells. */
  lemma RowStartTotal(m: nat)
    ensures 2 * RowStart(m, m) == m * (m + 1)
  {
    RowStartClosedForm(m, m);
  }

  lemma {:induction false} RowStartMonotone(m: nat, i: nat, k: nat)
    requires i <= k <= m
    ensures RowStart(m, i) + (k - i) <= RowStart(m, k)
  {
    if i < k {
      RowStartMonotone(m, i, k - 1);
    }
  }

  /** The score index of cell (i, j), j >= i: upper-triangle row-major. */
  function ScoreIndex(m: nat, i: nat, j: nat): nat
    requires i <= j < m
  {
    RowStart(m, i) + (j - i)
  }

  /** Score indices grow strictly in row-major order over the meaningful
      cells and stay below m(m+1)/2: each score fills exactly one cell. */
  lemma ScoreIndexOrder(m: nat, i: nat, j: nat, i': nat, j': nat)
    requires i <= j < m && i' <= j' < m && Before(i, j, i', j')
    ensures ScoreIndex(m, i, j) < ScoreIndex(m, i', j')
    ensures ScoreIndex(m, i', j') < m * (m + 1) / 2
  {
    if i < i' {
      RowStartMonotone(m, i, i + 1);
      RowStartMonotone(m, i + 1, i');
    }
    RowStartMonotone(m, i', i' + 1);
    RowStartMonotone(m, i' + 1, m);
    RowStartTotal(m);
  }

  /** Every meaningful cell's score index is a score of the list. */
  lemma ScoreIndexInRange(m: nat, i: nat, j: nat, n: nat)
    requires i <= j < m && 2 * n >= m * (m + 1)
    ensures ScoreIndex(m, i, j) < n
  {
    RowStartMonotone(m, i + 1, m);
    RowStartTotal(m);
  }

  /** Cell (i, j) of the matrix align2mat fills: score ScoreIndex(i, j)
      in each meaningful cell, the sentinel elsewhere. */
  function TriangleCell(s: seq<real>, m: nat, i: nat, j: nat): real
    requires 0 < |s| && 2 * |s| >= m * (m + 1) && MinOf(s) < MaxOf(s)
    requires i < m && j < m
  {
    if j < i then Sentinel
    else
      RowStartMonotone(m, i, m - 1);
      RowStartTotal(m);
      Normalised(s, ScoreIndex(m, i, j))
  }

  function Triangle(s: seq<real>, m: nat): (t: Mat)
    requires 0 < |s| && 2 * |s| >= m * (m + 1) && MinOf(s) < MaxOf(s)
    ensures IsSquare(t, m)
    ensures forall i, j | 0 <= i < m && 0 <= j < m :: t[i][j] == TriangleCell(s, m, i, j)
  {
    seq(m, i requires 0 <= i < m => seq(m, j requires 0 <= j < m => TriangleCell(s, m, i, j)))
  }

  /** The built matrix has the sentinel below the diagonal and every
      written cell in [0, 1]. */
  lemma TriangleShape(s: seq<real>, m: nat)
    requires 0 < |s| && 2 * |s| >= m * (m + 1) && MinOf(s) < MaxOf(s)
    ensures LowerIsSentinel(Triangle(s, m), m)
    ensures UpperInUnitRange(Triangle(s, m), m)
  {
  }

  /** The fill state of align2mat's loops: the meaningful cells before
      (i, j) in row-major order hold their score, the rest the sentinel. */
  ghost predicate FilledBefore(mat: array2<real>, scores: seq<real>, m: nat, i: nat, j: nat)
    requires 0 < |scores| && 2 * |scores| >= m * (m + 1) && MinOf(scores) < MaxOf(scores)
    requires mat.Length0 == m && mat.Length1 == m
    reads mat
  {
    forall ii, jj | 0 <= ii < m && 0 <= jj < m ::
      mat[ii, jj] == if ii < i || (ii == i && jj < j) then TriangleCell(scores, m, ii, jj) else Sentinel
  }

  /** The nested fill loop of align2mat: score number count goes to cell
      (i, j), j >= i, count running in row-major order. */
  method FillTriangle(scores: seq<real>, m: nat) returns (mat: array2<real>)
    requires 0 < |scores| && 2 * |scores| >= m * (m + 1) && MinOf(scores) < MaxOf(scores)
    ensures fresh(mat)
    ensures mat.Length0 == mat.Length1 == m
    ensures Grid(mat) == Triangle(scores, m)
  {
    mat := new real[m, m]((i, j) => Sentinel);
    RowStartTotal(m);
    var count := 0;
    for i := 0 to m
      invariant count == RowStart(m, i)
      invariant FilledBefore(mat, scores, m, i, 0)
    {
      RowStartMonotone(m, i, m - 1);
      for j := i to m
        invariant count == RowStart(m, i) + (j - i)
        invariant FilledBefore(mat, scores, m, i, j)
      {
        ScoreIndexInRange(m, i, j, |scores|);
        assert count == ScoreIndex(m, i, j) < |scores|;
        assert Normalised(scores, count) == TriangleCell(scores, m, i, j);
        mat[i, j] := Normalised(scores, count);
        count := count + 1;
      }
    }
    SameCells(Grid(mat), Triangle(scores, m), m);
  }

  /** align2mat: the m x m matrix, m the number of distinct first-column
      ids, and the entity order (those ids, then the last distinct
      second-column id). */
  method Align2Mat(ids1: seq<string>, ids2: seq<string>, tm1: seq<real>, tm2: seq<real>, modeName: string)
    returns (mat: array2<real>, ids: seq<string>)
    requires |ids1| == |ids2| == |tm1| == |tm2| > 0
    requires 2 * |tm1| >= |Unique(ids1)| * (|Unique(ids1)| + 1)
    requires MinOf(CombinedScores(tm1, tm2, ParseScoreMode(modeName))) < MaxOf(CombinedScores(tm1, tm2, ParseScoreMode(modeName)))
    ensures fresh(mat)
    ensures |Unique(ids2)| > 0
    ensures ids == Unique(ids1) + [Unique(ids2)[|Unique(ids2)| - 1]]
    ensures mat.Length0 == mat.Length1 == |Unique(ids1)| == |ids| - 1
    ensures Grid(mat) == Triangle(CombinedScores(tm1, tm2, ParseScoreMode(modeName)), |Unique(ids1)|)
  {
    assert ids2[0] in Unique(ids2);
    ids := Unique(ids1) + [Unique(ids2)[|Unique(ids2)| - 1]];
    mat := FillTriangle(CombinedScores(tm1, tm2, ParseScoreMode(modeName)), |Unique(ids1)|);
  }
}
