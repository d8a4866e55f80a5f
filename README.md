# DNA mutant detector and mutators, in Dafny

This project models `clases.py` of a small Python program about DNA grids.
A grid is a list of equal-length strings over the bases A, T, C and G. A grid
is *mutant* when four identical characters sit next to each other along a
row, down a column, or along one of the two diagonals of a 4x4 window.

- `detection.dfy`, module `Detection`: the three scans, stated once as
  predicates (`HasHorizontal`, `HasVertical`, `HasDiagonal`, combined in
  `IsMutant`), and the class `Detector`. Its loop methods `CheckHorizontal`,
  `CheckVertical` and `CheckDiagonal` are proved to compute exactly those
  predicates. `DetectMutants` bumps the counter `detectionsPerformed` by one
  and returns the OR of the three scans. The anti-diagonal of the window at
  `(i, j)` compares `(i+k, j+3-k)` with the top-right corner `(i, j+3)`, as
  the source does.
- `mutation.dfy`, module `Mutation`: the mutators as one tagged value.
  `Radiation` carries a base, a position and an orientation string. `Virus`
  carries a base and a position. `RadiationOutcome` and `VirusOutcome` state
  what each mutator does to a grid: the new grid, or the error it raises.
  `CreateRadiationMutant` and `CreateVirusMutant` overwrite the rows of the
  caller's `array<string>` in place. They are proved to leave exactly that
  grid, to return the same array, and to write nothing when they fail. The
  lemmas give the exact cells written and say that nothing else changes.
  They also show that after a mutation that writes its run, `IsMutant`
  holds, so the detector answers true.
- `scenario.dfy`, module `Scenario`: a worked 6x6 example. The grid
  `ATCGAT/AACGTT/TCGATC/AGCTGA/CTAGCT/GATCGA` is proved not mutant. Writing
  `AAAA` at the start of row 0 is proved to make it mutant. `Walkthrough`
  takes the same grid through the in-place methods and the detector's
  counter.

Error handling follows the code. A bounds or orientation failure raises
`ValueError` before any row is assigned. The surrounding `except IndexError`
does not catch it, so the model returns `Failure(OutOfBounds)` or
`Failure(InvalidOrientation)` and leaves the array untouched.
A horizontal radiation at a row index past the end of the list raises
`IndexError` at `matriz[x]`. That one is caught, and the list is returned
unchanged, so the model returns `Success` with the grid as it was. So not
every out-of-bounds request fails with OutOfBounds: a missing row in the
horizontal case does not, and the model follows the code.

Python slicing is modelled exactly by `Take` (`s[:n]`) and `Drop` (`s[n:]`).
Both stop at the end of the string. So a vertical radiation whose column is
past the end of a row appends the base to that row, as the source does.

## Model

| member | source | states |
|---|---|---|
| `Detection.Detector.constructor` | clases.py:6-14 | the detector keeps the given dimensions and starts with zero detections |
| `Detection.Detector.DetectMutants` | clases.py:16-30 | the verdict is true iff the horizontal, vertical or diagonal scan finds a run; the counter grows by exactly one on every call, whatever the verdict |
| `Detection.Detector.CheckHorizontal` | clases.py:32-37 | true iff some row has an index i with i+4 within the row and the four characters from i all equal; rows shorter than four contribute nothing |
| `Detection.Detector.CheckVertical` | clases.py:39-45 | on a non-empty grid whose rows are at least as long as the first: true iff some column index of the first row has four equal consecutive entries down the rows |
| `Detection.Detector.CheckDiagonal` | clases.py:47-53 | on a rectangular grid: true iff some window corner (i, j) with i+4 within the rows and j+4 within row i has its main diagonal equal to (i, j), or its anti-diagonal (i+k, j+3-k) equal to (i, j+3) |
| `Detection.SliceTestIsRun` | clases.py:35 | the slice test `s[i:i+4] == s[i]*4` holds exactly when the four characters from i are equal |
| `Detection.VerticalIsHorizontalOfTranspose` | clases.py:40-43 | the column scan is the row scan of the grid of joined columns: a run down a column exists iff the transposed grid has a run along a row |
| `Mutation.Overwrite` | clases.py:100-104 | `s[:n] + b + s[n+1:]` replaces the character at n when n is inside the string, and appends b when it is not |
| `Mutation.CreateRadiationMutant` | clases.py:79-109 | the same list is returned holding exactly the grid RadiationOutcome gives; on an error the error is reported and the list is left as it was |
| `Mutation.CreateVirusMutant` | clases.py:118-137 | the same list is returned holding exactly the grid VirusOutcome gives; on an error the error is reported and the list is left as it was |
| `Mutation.RadiationFailures` | clases.py:88-106 | radiation fails exactly for 'H' past the end of its row, 'V' past the last row, or any other orientation, with OutOfBounds for the first two and InvalidOrientation for the third |
| `Mutation.HorizontalRadiationMissingRow` | clases.py:86-109 | 'H' at a row the list does not have is caught as an IndexError: no error, grid unchanged |
| `Mutation.HorizontalRadiationWrites` | clases.py:88-95 | 'H' in bounds: row x keeps its length, columns y..y+3 hold the base, every other cell and row is unchanged, and the horizontal scan then finds a run |
| `Mutation.VerticalRadiationWrites` | clases.py:96-104 | 'V' in bounds on a rectangular grid: rows x..x+3 hold the base at column y, every other cell is unchanged, the grid stays rectangular, and the vertical scan then finds a run |
| `Mutation.VirusFailures` | clases.py:127-128 | a virus fails, with OutOfBounds, exactly when x+4 exceeds the rows or y+4 exceeds the width of the first row |
| `Mutation.VirusWrites` | clases.py:127-134 | a virus in bounds on a rectangular grid: cells (x+i, y+i) for i below four hold the base, every other cell is unchanged, the grid stays rectangular, and the diagonal scan then finds a run |
| `Mutation.MutationMakesMutant` | clases.py:88-134 | after any mutation that writes its run on a rectangular grid, the result is a rectangular grid the detector calls mutant |
| `Scenario.CleanGridIsNotMutant` | clases.py:24-53 | the 6x6 grid ATCGAT/AACGTT/TCGATC/AGCTGA/CTAGCT/GATCGA has no run along a row, a column or a diagonal |
| `Scenario.RowMutationOfCleanGrid` | clases.py:88-95 | writing AAAA at the start of row 0 of that grid gives row AAAAAT, leaves the other rows, and makes the grid mutant |

## Left out

- `Sanador.sanar_mutantes` (clases.py:150-169) is not modelled. It draws grids with `random.choice` in a retry loop that has no bound. Its early return for a clean grid is not modelled either.
- The `print` calls in the two `except IndexError` handlers (clases.py:107-108, 135-136) are console output. The model keeps only their effect: the list is returned unchanged.
- `Mutador.crear_mutante` only raises `NotImplementedError` (clases.py:72-73). The `Mutator` datatype keeps only the shared base, position and orientation data.
- Positions are natural numbers. Python's negative indices, which count from the end of a list or string, are not modelled.
- The base is one character. Python accepts any string, and a longer or empty base would change the row length; that is not modelled.
- Detection.Detector.DetectMutants: requires a non-empty rectangular grid. In Python, ragged rows make `fila[col]` or the diagonal reads raise, but only on some inputs, because `all` stops at the first mismatch. The model does not capture which ragged grids happen to avoid the error.
- Detection.Detector.CheckDiagonal: requires a rectangular grid, for the same reason.
- Detection.Detector.CheckVertical: requires that no row is shorter than the first. That is exactly when every `fila[col]` read succeeds.
- The order in which `any([...])` evaluates the three scans is not modelled; only the boolean result is. All three scans run, as in the source.
- `dimensiones` is stored by the constructor and never read (clases.py:13), and the model does the same.
