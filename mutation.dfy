/** The mutators: radiation writes a run of four copies of a base along a row
    or down a column, a virus writes it down a diagonal. Both overwrite rows
    of the caller's list in place and hand the same list back. A request that
    does not fit raises before any row is written.

    Each mutator's effect on the grid is stated once as a function of the grid
    it receives (RadiationOutcome, VirusOutcome); the in-place methods are
    proved to leave exactly that grid in the array, and the lemmas say which
    cells change and that the detector then finds a run.
 */
module Mutation {
  import opened Detection

  /** The two errors a mutator raises. */
  datatype MutationError = OutOfBounds | InvalidOrientation

  datatype Result<T> = Success(value: T) | Failure(error: MutationError)

  /** A cell of the grid: row index, then column index. */
  datatype Position = Position(row: nat, column: nat)

  /** The data every mutator carries: the base it writes and where it starts.
      Radiation also carries its orientation, "H" (along the row) or "V"
      (down the column); any other string is accepted when the mutator is
      made and rejected when it is applied. A virus always writes down-right. */
  datatype Mutator =
    | Radiation(base: char, position: Position, orientation: string)
    | Virus(base: char, position: Position)

  /** The slice s[:n] of a string, which stops at the end of s. */
  function Take(s: string, n: nat): (r: string)
    ensures |r| == if n <= |s| then n else |s|
    ensures forall c :: 0 <= c < |r| ==> r[c] == s[c]
  {
    if n <= |s| then s[..n] else s
  }

  /** The slice s[n:] of a string, empty when n is past the end. */
  function Drop(s: string, n: nat): (r: string)
    ensures |r| == if n <= |s| then |s| - n else 0
    ensures forall c :: 0 <= c < |r| ==> r[c] == s[n + c]
  {
    if n <= |s| then s[n..] else []
  }

  /** s[:n] + b + s[n+1:]: the character at n replaced by b when n is inside
      s, and b appended to s otherwise. */
  function Overwrite(s: string, n: nat, b: char): (r: string)
    ensures n < |s| ==> r == s[n := b]
    ensures |s| <= n ==> r == s + [b]
  {
    Take(s, n) + [b] + Drop(s, n + 1)
  }

  /** g with rows x to x+n-1 overwritten by b at column y. */
  function ColumnWrite(g: Grid, x: nat, y: nat, b: char, n: nat): (h: Grid)
    ensures |h| == |g|
  {
    seq(|g|, r requires 0 <= r < |g| => if x <= r < x + n then Overwrite(g[r], y, b) else g[r])
  }

  /** g with rows x to x+n-1 overwritten by b on the diagonal that starts at
      (x, y): row r at column y + (r - x). */
  function DiagonalWrite(g: Grid, x: nat, y: nat, b: char, n: nat): (h: Grid)
    ensures |h| == |g|
  {
    seq(|g|, r requires 0 <= r < |g| => if x <= r < x + n then Overwrite(g[r], y + (r - x), b) else g[r])
  }

  /** Overwriting one more row of a column run is one row assignment. */
  lemma ColumnWriteStep(g: Grid, x: nat, y: nat, b: char, n: nat)
    requires x + n < |g|
    ensures ColumnWrite(g, x, y, b, n + 1) == ColumnWrite(g, x, y, b, n)[x + n := Overwrite(g[x + n], y, b)]
  {
  }

  /** Overwriting one more row of a diagonal run is one row assignment. */
  lemma DiagonalWriteStep(g: Grid, x: nat, y: nat, b: char, n: nat)
    requires x + n < |g|
    ensures DiagonalWrite(g, x, y, b, n + 1) == DiagonalWrite(g, x, y, b, n)[x + n := Overwrite(g[x + n], y + n, b)]
  {
    var h, h' := DiagonalWrite(g, x, y, b, n), DiagonalWrite(g, x, y, b, n + 1);
    var row := Overwrite(g[x + n], y + n, b);
    forall r | 0 <= r < |g|
      ensures h'[r] == h[x + n := row][r]
    {
      if r == x + n {
        calc {
          h'[r];
          Overwrite(g[r], y + (r - x), b);
          { assert r - x == n; }
          row;
        }
      }
    }
  }

  /** What a radiation mutator does to grid g: the grid it leaves, or the
      error it raises with g untouched. */
  function RadiationOutcome(mut: Mutator, g: Grid): Result<Grid>
    requires mut.Radiation?
  {
    var x, y, b := mut.position.row, mut.position.column, mut.base;
    if mut.orientation == "H" then
      // reading row x of a list that has no row x raises IndexError, which
      // the mutator catches: the list is handed back as it was
      if x >= |g| then Success(g)
      else if y + 4 > |g[x]| then Failure(OutOfBounds)
      else Success(g[x := Take(g[x], y) + [b, b, b, b] + Drop(g[x], y + 4)])
    else if mut.orientation == "V" then
      if x + 4 > |g| then Failure(OutOfBounds)
      else Success(ColumnWrite(g, x, y, b, 4))
    else
      Failure(InvalidOrientation)
  }

  /** What a virus mutator does to grid g. The bound on columns is taken from
      the first row, and only when the rows fit. */
  function VirusOutcome(mut: Mutator, g: Grid): Result<Grid>
    requires mut.Virus?
  {
    var x, y, b := mut.position.row, mut.position.column, mut.base;
    if x + 4 > |g| || y + 4 > |g[0]| then Failure(OutOfBounds)
    else Success(DiagonalWrite(g, x, y, b, 4))
  }

  /** Applies a radiation mutator to the list m in place. On success the same
      list is returned, holding the grid RadiationOutcome describes; on an
      error nothing has been written. */
  method CreateRadiationMutant(mut: Mutator, m: array<string>) returns (res: Result<array<string>>)
    requires mut.Radiation?
    modifies m
    ensures RadiationOutcome(mut, old(m[..])).Success? ==>
              res == Success(m) && m[..] == RadiationOutcome(mut, old(m[..])).value
    ensures RadiationOutcome(mut, old(m[..])).Failure? ==>
              res == Failure(RadiationOutcome(mut, old(m[..])).error) && m[..] == old(m[..])
  {
    var x, y, b := mut.position.row, mut.position.column, mut.base;
    if mut.orientation == "H" {
      if x >= m.Length {
        // IndexError, caught: the list is returned unchanged
        return Success(m);
      }
      if y + 4 > |m[x]| {
        return Failure(OutOfBounds);
      }
      m[x] := Take(m[x], y) + [b, b, b, b] + Drop(m[x], y + 4);
    } else if mut.orientation == "V" {
      if x + 4 > m.Length {
        return Failure(OutOfBounds);
      }
      ghost var g := m[..];
      for i := 0 to 4
        invariant m[..] == ColumnWrite(g, x, y, b, i)
      {
        ColumnWriteStep(g, x, y, b, i);
        m[x + i] := Overwrite(m[x + i], y, b);
      }
    } else {
      return Failure(InvalidOrientation);
    }
    return Success(m);
  }

  /** Applies a virus mutator to the list m in place. On success the same
      list is returned, holding the grid VirusOutcome describes; on an error
      nothing has been written. */
  method CreateVirusMutant(mut: Mutator, m: array<string>) returns (res: Result<array<string>>)
    requires mut.Virus?
    modifies m
    ensures VirusOutcome(mut, old(m[..])).Success? ==>
              res == Success(m) && m[..] == VirusOutcome(mut, old(m[..])).value
    ensures VirusOutcome(mut, old(m[..])).Failure? ==>
              res == Failure(VirusOutcome(mut, old(m[..])).error) && m[..] == old(m[..])
  {
    var x, y, b := mut.position.row, mut.position.column, mut.base;
    ghost var g := m[..];
    if x + 4 > m.Length || y + 4 > |m[0]| {
      return Failure(OutOfBounds);
    }
    for i := 0 to 4
      invariant m[..] == DiagonalWrite(g, x, y, b, i)
    {
      DiagonalWriteStep(g, x, y, b, i);
      m[x + i] := Overwrite(m[x + i], y + i, b);
    }
    return Success(m);
  }

  /** The failures of a radiation mutator, each with its error: a horizontal
      run past the end of its row, a vertical run past the last row, or an
      orientation other than "H" and "V". Nothing else fails. */
  lemma RadiationFailures(mut: Mutator, g: Grid)
    requires mut.Radiation?
    ensures var x, y, res := mut.position.row, mut.position.column, RadiationOutcome(mut, g);
      res.Failure? <==>
        (mut.orientation == "H" && x < |g| && y + 4 > |g[x]|) ||
        (mut.orientation == "V" && x + 4 > |g|) ||
        (mut.orientation != "H" && mut.orientation != "V")
    ensures var res := RadiationOutcome(mut, g);
      res.Failure? ==>
        res.error == if mut.orientation in {"H", "V"} then OutOfBounds else InvalidOrientation
  {
  }

  /** A horizontal run aimed at a row the grid does not have leaves the grid
      as it was and reports no error. */
  lemma HorizontalRadiationMissingRow(mut: Mutator, g: Grid)
    requires mut.Radiation? && mut.orientation == "H" && mut.position.row >= |g|
    ensures RadiationOutcome(mut, g) == Success(g)
  {
  }

  /** A horizontal run that fits: row x keeps its length, its columns y to
      y+3 hold the base, every other cell is unchanged, and the horizontal
      scan then finds a run. */
  lemma HorizontalRadiationWrites(mut: Mutator, g: Grid)
    requires mut.Radiation? && mut.orientation == "H"
    requires mut.position.row < |g| && mut.position.column + 4 <= |g[mut.position.row]|
    ensures var x, y, b := mut.position.row, mut.position.column, mut.base;
      var res := RadiationOutcome(mut, g);
      res.Success? && |res.value| == |g| &&
      |res.value[x]| == |g[x]| &&
      (forall c :: 0 <= c < |g[x]| ==> res.value[x][c] == if y <= c < y + 4 then b else g[x][c]) &&
      (forall r :: 0 <= r < |g| && r != x ==> res.value[r] == g[r]) &&
      RunAt(res.value[x], y) && HasHorizontal(res.value)
  {
    var x, y, b := mut.position.row, mut.position.column, mut.base;
    var row := Take(g[x], y) + [b, b, b, b] + Drop(g[x], y + 4);
    assert RadiationOutcome(mut, g).value == g[x := row];
    forall c | 0 <= c < |g[x]|
      ensures row[c] == if y <= c < y + 4 then b else g[x][c]
    {
      if c < y {
        assert row[c] == Take(g[x], y)[c];
      } else if c < y + 4 {
        assert row[c] == [b, b, b, b][c - y];
      } else {
        assert row[c] == Drop(g[x], y + 4)[c - y - 4];
      }
    }
    assert RunAt(g[x := row][x], y);
  }

  /** A vertical run that fits in a rectangular grid with the column inside
      it: rows x to x+3 hold the base at column y and nothing else changes,
      the grid stays rectangular, and the vertical scan then finds a run. */
  lemma VerticalRadiationWrites(mut: Mutator, g: Grid)
    requires mut.Radiation? && mut.orientation == "V"
    requires |g| > 0 && Rectangular(g)
    requires mut.position.row + 4 <= |g| && mut.position.column < |g[0]|
    ensures var x, y, b := mut.position.row, mut.position.column, mut.base;
      var res := RadiationOutcome(mut, g);
      res.Success? && |res.value| == |g| && Rectangular(res.value) && |res.value[0]| == |g[0]| &&
      (forall r, c :: 0 <= r < |g| && 0 <= c < |g[r]| ==>
         res.value[r][c] == if x <= r < x + 4 && c == y then b else g[r][c]) &&
      ColumnsReadable(res.value) && RunAt(Column(res.value, y), x) && HasVertical(res.value)
  {
    var x, y, b := mut.position.row, mut.position.column, mut.base;
    var h := ColumnWrite(g, x, y, b, 4);
    forall r | 0 <= r < |g|
      ensures h[r] == if x <= r < x + 4 then g[r][y := b] else g[r]
    {
      if x <= r < x + 4 {
        assert h[r] == Overwrite(g[r], y, b);
      }
    }
    assert Rectangular(h);
    var col := Column(h, y);
    assert col[x] == b && col[x + 1] == b && col[x + 2] == b && col[x + 3] == b;
    assert RunAt(col, x);
  }

  /** A virus that fits in a rectangular grid: the cells (x+i, y+i) for i
      below four hold the base, every other cell is unchanged, the grid stays
      rectangular, and the diagonal scan then finds a run. */
  lemma VirusWrites(mut: Mutator, g: Grid)
    requires mut.Virus? && Rectangular(g)
    requires mut.position.row + 4 <= |g| && mut.position.column + 4 <= |g[0]|
    ensures var x, y, b := mut.position.row, mut.position.column, mut.base;
      var res := VirusOutcome(mut, g);
      res.Success? && |res.value| == |g| && Rectangular(res.value) && |res.value[0]| == |g[0]| &&
      (forall r, c :: 0 <= r < |g| && 0 <= c < |g[r]| ==>
         res.value[r][c] == if x <= r < x + 4 && c == y + (r - x) then b else g[r][c]) &&
      WindowFits(res.value, x, y) && MainDiagonalAt(res.value, x, y) && HasDiagonal(res.value)
  {
    var x, y, b := mut.position.row, mut.position.column, mut.base;
    var h := DiagonalWrite(g, x, y, b, 4);
    forall r | 0 <= r < |g|
      ensures h[r] == if x <= r < x + 4 then g[r][y + (r - x) := b] else g[r]
    {
      if x <= r < x + 4 {
        assert h[r] == Overwrite(g[r], y + (r - x), b);
      }
    }
    assert Rectangular(h);
    assert h[x][y] == b && h[x + 1][y + 1] == b && h[x + 2][y + 2] == b && h[x + 3][y + 3] == b;
    assert WindowFits(h, x, y) && DiagonalAt(h, x, y);
  }

  /** A virus fails exactly when its 4x4 square leaves the rows of the grid
      or the width of its first row. */
  lemma VirusFailures(mut: Mutator, g: Grid)
    requires mut.Virus?
    ensures var x, y := mut.position.row, mut.position.column;
      VirusOutcome(mut, g).Failure? <==> (x + 4 > |g| || y + 4 > |g[0]|)
    ensures VirusOutcome(mut, g).Failure? ==> VirusOutcome(mut, g).error == OutOfBounds
  {
  }

  /** After a mutation that wrote its run, the detector reports a mutant. */
  lemma MutationMakesMutant(mut: Mutator, g: Grid)
    requires |g| > 0 && Rectangular(g)
    requires mut.Radiation? ==>
               (mut.orientation == "H" && mut.position.row < |g| && mut.position.column + 4 <= |g[0]|) ||
               (mut.orientation == "V" && mut.position.row + 4 <= |g| && mut.position.column < |g[0]|)
    requires mut.Virus? ==> mut.position.row + 4 <= |g| && mut.position.column + 4 <= |g[0]|
    ensures var res := if mut.Radiation? then RadiationOutcome(mut, g) else VirusOutcome(mut, g);
      res.Success? && |res.value| > 0 && Rectangular(res.value) && IsMutant(res.value)
  {
    if mut.Virus? {
      VirusWrites(mut, g);
    } else if mut.orientation == "H" {
      HorizontalRadiationWrites(mut, g);
      var h := RadiationOutcome(mut, g).value;
      assert forall r :: 0 <= r < |h| ==> |h[r]| == |g[r]|;
    } else {
      VerticalRadiationWrites(mut, g);
    }
  }
}
