/** A 6x6 grid worked through the detector and a radiation mutator: the grid
    has no run of four, and writing "AAAA" at the start of its first row makes
    it mutant. */
module Scenario {
  import opened Detection
  import opened Mutation

  function CleanGrid(): (g: Grid)
    ensures |g| == 6 && Rectangular(g) && |g[0]| == 6
  {
    ["ATCGAT", "AACGTT", "TCGATC", "AGCTGA", "CTAGCT", "GATCGA"]
  }

  /** The grid has no run of four along a row, a column or a diagonal. */
  lemma CleanGridIsNotMutant()
    ensures !IsMutant(CleanGrid())
  {
  }

  /** "AAAA" written at the start of row 0 replaces the row's first four
      characters and makes the grid mutant. */
  lemma RowMutationOfCleanGrid()
    ensures var res := RadiationOutcome(Radiation('A', Position(0, 0), "H"), CleanGrid());
      res == Success(["AAAAAT", "AACGTT", "TCGATC", "AGCTGA", "CTAGCT", "GATCGA"]) &&
      IsMutant(res.value)
  {
    var mut := Radiation('A', Position(0, 0), "H");
    MutationMakesMutant(mut, CleanGrid());
    HorizontalRadiationWrites(mut, CleanGrid());
    var g := CleanGrid();
    assert Take(g[0], 0) + ['A', 'A', 'A', 'A'] + Drop(g[0], 4) == "AAAAAT";
    assert RadiationOutcome(mut, g) == Success(g[0 := "AAAAAT"]);
    assert g[0 := "AAAAAT"] == ["AAAAAT", "AACGTT", "TCGATC", "AGCTGA", "CTAGCT", "GATCGA"];
  }

  /** The same run through the in-place methods: the first detection says
      clean, the mutation succeeds on the same list, the second detection
      says mutant, and the detector has counted two detections. */
  method Walkthrough() {
    var m := new string[6];
    m[0], m[1], m[2] := "ATCGAT", "AACGTT", "TCGATC";
    m[3], m[4], m[5] := "AGCTGA", "CTAGCT", "GATCGA";
    assert m[..] == CleanGrid();
    var detector := new Detector((6, 6));
    CleanGridIsNotMutant();
    var before := detector.DetectMutants(m[..]);
    assert !before;
    var mut := Radiation('A', Position(0, 0), "H");
    RowMutationOfCleanGrid();
    var res := CreateRadiationMutant(mut, m);
    assert res == Success(m);
    MutationMakesMutant(mut, CleanGrid());
    var after := detector.DetectMutants(m[..]);
    assert after;
    assert detector.detectionsPerformed == 2;
  }
}
