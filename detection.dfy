/** The mutant detector of a DNA grid.

    A grid is a list of row strings. A grid is "mutant" when it holds four
    identical characters in a row along a row, along a column, or along the
    main diagonal or the anti-diagonal of a 4x4 window. The scans are stated
    once as predicates (HasHorizontal, HasVertical, HasDiagonal) and the
    Detector's loops are proved to compute exactly those predicates.
 */
module Detection {

  /** The rows of a DNA grid, top to bottom. */
  type Grid = seq<string>

  /** Every row has the length of the first one. */
  predicate Rectangular(g: Grid) {
    forall r :: 0 <= r < |g| ==> |g[r]| == |g[0]|
  }

  /** The grid has a first row and no row is shorter than it, so every
      column index of the first row can be read in every row. */
  predicate ColumnsReadable(g: Grid) {
    |g| > 0 && forall r :: 0 <= r < |g| ==> |g[0]| <= |g[r]|
  }

  /** Four identical characters start at index i of s. */
  predicate RunAt(s: string, i: int) {
    0 <= i && i + 4 <= |s| && s[i + 1] == s[i] && s[i + 2] == s[i] && s[i + 3] == s[i]
  }

  /** Some row holds a run of four. */
  ghost predicate HasHorizontal(g: Grid) {
    exists r, i :: 0 <= r < |g| && RunAt(g[r], i)
  }

  /** The characters of column c, top to bottom. */
  function Column(g: Grid, c: nat): (col: string)
    requires forall r :: 0 <= r < |g| ==> c < |g[r]|
    ensures |col| == |g|
    ensures forall r :: 0 <= r < |g| ==> col[r] == g[r][c]
  {
    seq(|g|, r requires 0 <= r < |g| => g[r][c])
  }

  /** Some column of the first row's width holds a run of four. */
  ghost predicate HasVertical(g: Grid)
    requires ColumnsReadable(g)
  {
    exists c, i :: 0 <= c < |g[0]| && RunAt(Column(g, c), i)
  }

  /** The 4x4 window whose top-left corner is (i, j) fits in the grid. */
  predicate WindowFits(g: Grid, i: int, j: int)
    requires Rectangular(g)
  {
    0 <= i && i + 4 <= |g| && 0 <= j && j + 4 <= |g[i]|
  }

  /** The window's main diagonal (i+k, j+k) repeats the corner (i, j). */
  predicate MainDiagonalAt(g: Grid, i: int, j: int)
    requires Rectangular(g) && WindowFits(g, i, j)
  {
    g[i + 1][j + 1] == g[i][j] && g[i + 2][j + 2] == g[i][j] && g[i + 3][j + 3] == g[i][j]
  }

  /** The window's anti-diagonal (i+k, j+3-k) repeats the top-right corner
      (i, j+3): it is anchored on the same rows as the main diagonal. */
  predicate AntiDiagonalAt(g: Grid, i: int, j: int)
    requires Rectangular(g) && WindowFits(g, i, j)
  {
    g[i + 1][j + 2] == g[i][j + 3] && g[i + 2][j + 1] == g[i][j + 3] && g[i + 3][j] == g[i][j + 3]
  }

  predicate DiagonalAt(g: Grid, i: int, j: int)
    requires Rectangular(g) && WindowFits(g, i, j)
  {
    MainDiagonalAt(g, i, j) || AntiDiagonalAt(g, i, j)
  }

  /** Some 4x4 window has a run of four on one of its two diagonals. */
  ghost predicate HasDiagonal(g: Grid)
    requires Rectangular(g)
  {
    exists i, j :: WindowFits(g, i, j) && DiagonalAt(g, i, j)
  }

  /** The verdict of the detector: any of the three scans finds a run. */
  ghost predicate IsMutant(g: Grid)
    requires |g| > 0 && Rectangular(g)
  {
    HasHorizontal(g) || HasVertical(g) || HasDiagonal(g)
  }

  /** The grid whose rows are the columns of g. */
  function Transpose(g: Grid): (t: Grid)
    requires ColumnsReadable(g)
    ensures |t| == |g[0]|
    ensures forall c :: 0 <= c < |g[0]| ==> t[c] == Column(g, c)
  {
    seq(|g[0]|, c requires 0 <= c < |g[0]| => Column(g, c))
  }

  /** The vertical scan is the horizontal scan of the transposed grid. */
  lemma VerticalIsHorizontalOfTranspose(g: Grid)
    requires ColumnsReadable(g)
    ensures HasVertical(g) <==> HasHorizontal(Transpose(g))
  {
  }

  /** The slice test of the source, s[i:i+4] == s[i] * 4, is a run of four. */
  lemma SliceTestIsRun(s: string, i: int)
    requires 0 <= i && i + 4 <= |s|
    ensures s[i..i + 4] == [s[i], s[i], s[i], s[i]] <==> RunAt(s, i)
  {
  }

  /** The detector. It remembers its dimensions and counts its detections. */
  class Detector {
    /** The dimensions given at construction; the scans never read them. */
    var dimensions: (int, int)
    /** How many times DetectMutants has run. */
    var detectionsPerformed: nat

    constructor (dimensions: (int, int))
      ensures this.dimensions == dimensions
      ensures detectionsPerformed == 0
    {
      this.dimensions := dimensions;
      detectionsPerformed := 0;
    }

    /** Counts one more detection and reports whether any scan finds a run of
        four. All three scans run whatever their results. */
    method DetectMutants(g: Grid) returns (mutant: bool)
      requires |g| > 0 && Rectangular(g)
      modifies this`detectionsPerformed
      ensures detectionsPerformed == old(detectionsPerformed) + 1
      ensures mutant <==> IsMutant(g)
    {
      detectionsPerformed := detectionsPerformed + 1;
      var horizontal := CheckHorizontal(g);
      var vertical := CheckVertical(g);
      var diagonal := CheckDiagonal(g);
      mutant := horizontal || vertical || diagonal;
    }

    /** Scans every row for a window of four identical characters. Rows
        shorter than four have no window. */
    method CheckHorizontal(g: Grid) returns (found: bool)
      ensures found <==> HasHorizontal(g)
    {
      for r := 0 to |g|
        invariant forall r', i :: 0 <= r' < r ==> !RunAt(g[r'], i)
      {
        var row := g[r];
        var i := 0;
        while i < |row| - 3
          invariant 0 <= i
          invariant forall i' :: i' < i ==> !RunAt(row, i')
        {
          SliceTestIsRun(row, i);
          if row[i..i + 4] == [row[i], row[i], row[i], row[i]] {
            return true;
          }
          i := i + 1;
        }
      }
      return false;
    }

    /** Builds each column of the first row's width and scans it for a
        window of four identical characters. */
    method CheckVertical(g: Grid) returns (found: bool)
      requires ColumnsReadable(g)
      ensures found <==> HasVertical(g)
    {
      for c := 0 to |g[0]|
        invariant forall c', i :: 0 <= c' < c ==> !RunAt(Column(g, c'), i)
      {
        var column := Column(g, c);
        var i := 0;
        while i < |column| - 3
          invariant 0 <= i
          invariant forall i' :: i' < i ==> !RunAt(column, i')
        {
          SliceTestIsRun(column, i);
          if column[i..i + 4] == [column[i], column[i], column[i], column[i]] {
            return true;
          }
          i := i + 1;
        }
      }
      return false;
    }

    /** Tries every 4x4 window, top-left corner first along the rows, and
        tests its main diagonal and then its anti-diagonal. */
    method CheckDiagonal(g: Grid) returns (found: bool)
      requires Rectangular(g)
      ensures found <==> HasDiagonal(g)
    {
      var i := 0;
      while i < |g| - 3
        invariant 0 <= i
        invariant forall i', j :: i' < i && WindowFits(g, i', j) ==> !DiagonalAt(g, i', j)
      {
        var j := 0;
        while j < |g[i]| - 3
          invariant 0 <= j
          invariant forall i', j' :: i' < i && WindowFits(g, i', j') ==> !DiagonalAt(g, i', j')
          invariant forall j' :: j' < j && WindowFits(g, i, j') ==> !DiagonalAt(g, i, j')
        {
          if MainDiagonalAt(g, i, j) || AntiDiagonalAt(g, i, j) {
            return true;
          }
          j := j + 1;
        }
        i := i + 1;
      }
      return false;
    }
  }
}
