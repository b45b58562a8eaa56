/** 006-grid-cluster/sketch.js: a layered-noise threshold decides which grid
    cells are drawn, the shared scan turns it into horizontal and vertical
    lines, and symbols are placed only on drawn cells. */
module GridCluster {
  import NoiseLib
  import Utils
  import ScanLines

  /** Level above which the layered noise counts as inside a shape. */
  const Threshold := 0.15
  /** Chance with which a drawn cell gets a symbol. */
  const SymbolChance := 0.08

  /** One octave: `noise.noise2D(x * f, y * f)`. */
  function Octave(noise: NoiseLib.Noise, x: int, y: int, f: real): (v: real)
  {
    noise.Noise2D(x as real * f, y as real * f)
  }

  /** Three octaves of noise with frequencies 0.012, 0.025 and 0.05 and
      weights 1, 0.5 and 0.25. */
  function Layered(noise: NoiseLib.Noise, x: int, y: int): (v: real)
  {
    Octave(noise, x, y, 0.012) * 1.0
    + Octave(noise, x, y, 0.025) * 0.5
    + Octave(noise, x, y, 0.05) * 0.25
  }

  /** `shouldDraw(x, y)`. The weights sum to 1.75, so a cell is drawn only
      where some octave exceeds 0.15 / 1.75 = 3/35, and always where all three
      do. */
  predicate ShouldDraw(noise: NoiseLib.Noise, x: int, y: int): (b: bool)
    ensures b ==>
      || Octave(noise, x, y, 0.012) > 3.0 / 35.0
      || Octave(noise, x, y, 0.025) > 3.0 / 35.0
      || Octave(noise, x, y, 0.05) > 3.0 / 35.0
    ensures
      && Octave(noise, x, y, 0.012) > 3.0 / 35.0
      && Octave(noise, x, y, 0.025) > 3.0 / 35.0
      && Octave(noise, x, y, 0.05) > 3.0 / 35.0
      ==> b
  {
    Layered(noise, x, y) > Threshold
  }

  /** `shouldDraw` as the region predicate handed to the scans. */
  function Region(noise: NoiseLib.Noise): (inside: (int, int) -> bool)
  {
    (x, y) => ShouldDraw(noise, x, y)
  }

  /** Unfolding helper: a whole number converted to a real has itself as
      its floor. */
  lemma WholeReal(n: int)
    ensures (n as real).Floor as real == n as real
  {
  }

  /** Where all three octaves sample integer lattice points (both coordinates
      multiples of 1000) the layered value is 0, below the threshold, so the
      cell is not drawn. */
  lemma NotDrawnOnCoarseLattice(noise: NoiseLib.Noise, i: int, j: int)
    ensures !ShouldDraw(noise, 1000 * i, 1000 * j)
  {
    OctaveOnLattice(noise, i, j, 0.012, 12);
    OctaveOnLattice(noise, i, j, 0.025, 25);
    OctaveOnLattice(noise, i, j, 0.05, 50);
  }

  /** An octave whose frequency times 1000 is the whole number `n` samples the
      point `(1000 i, 1000 j)` at the lattice point `(n i, n j)`, where the noise
      is 0. */
  lemma OctaveOnLattice(noise: NoiseLib.Noise, i: int, j: int, f: real, n: int)
    requires f * 1000.0 == n as real
    ensures Octave(noise, 1000 * i, 1000 * j, f) == 0.0
  {
    LatticeScale(i, f, n);
    LatticeScale(j, f, n);
    WholeReal(n * i);
    WholeReal(n * j);
  }

  lemma LatticeScale(i: int, f: real, n: int)
    requires f * 1000.0 == n as real
    ensures (1000 * i) as real * f == (n * i) as real
  {
    var a := i as real;
    assert (1000 * i) as real * f == a * (f * 1000.0);
  }

  /** The drawn region repeats every 256000 units in each direction: each
      octave's frequency times 256000 is a multiple of the lattice period 256. */
  lemma ShouldDrawPeriodic(noise: NoiseLib.Noise, x: int, y: int, i: int, j: int)
    ensures ShouldDraw(noise, x + 256000 * i, y + 256000 * j) == ShouldDraw(noise, x, y)
  {
    OctavePeriodic(noise, x, y, i, j, 0.012, 12);
    OctavePeriodic(noise, x, y, i, j, 0.025, 25);
    OctavePeriodic(noise, x, y, i, j, 0.05, 50);
  }

  /** An octave whose frequency times 256000 is `256 * n` repeats every 256000
      units. */
  lemma OctavePeriodic(noise: NoiseLib.Noise, x: int, y: int, i: int, j: int, f: real, n: int)
    requires f * 256000.0 == (256 * n) as real
    ensures Octave(noise, x + 256000 * i, y + 256000 * j, f) == Octave(noise, x, y, f)
  {
    var a, b := x as real * f, y as real * f;
    var a', b' := (x + 256000 * i) as real * f, (y + 256000 * j) as real * f;
    ScaledShift(x, i, f, n);
    ScaledShift(y, j, f, n);
    NoiseShifted(noise, a, b, a', b', n * i, n * j);
  }

  /** Helper: `Noise2DPeriodic` with the shifted point given by name, so that a
      caller hands over plain variables rather than products. */
  lemma NoiseShifted(noise: NoiseLib.Noise, a: real, b: real, a': real, b': real, k: int, l: int)
    requires a' == a + (256 * k) as real && b' == b + (256 * l) as real
    ensures noise.Noise2D(a', b') == noise.Noise2D(a, b)
  {
    noise.Noise2DPeriodic(a, b, k, l);
  }

  lemma ScaledShift(x: int, i: int, f: real, n: int)
    requires f * 256000.0 == (256 * n) as real
    ensures (x + 256000 * i) as real * f == x as real * f + (256 * (n * i)) as real
  {
    var a := i as real;
    var p := a * (f * 256000.0);
    assert p == a * (256 * n) as real;
    assert (256 * (n * i)) as real == (256 * n) as real * a;
  }

  /** The guard `shouldDraw(x, y) && random(0, 1) < 0.08`, with `r` standing
      for the `Math.random()` behind `random(0, 1)`.  A symbol is placed only on
      a drawn cell, and there exactly when `r < 0.08`. */
  function PlacesSymbol(noise: NoiseLib.Noise, x: int, y: int, r: real): (b: bool)
    requires 0.0 <= r < 1.0
    ensures b ==> ShouldDraw(noise, x, y)
    ensures b <==> ShouldDraw(noise, x, y) && r < SymbolChance
  {
    ShouldDraw(noise, x, y) && Utils.Random(r, 0.0, 1.0) < SymbolChance
  }

  /** `Math.floor(random(0, 4))`: one of the four symbol kinds. */
  function SymbolType(r: real): (kind: int)
    requires 0.0 <= r < 1.0
    ensures 0 <= kind <= 3
  {
    Utils.Random(r, 0.0, 4.0).Floor
  }

  /** The horizontal scan of lines 27-55. */
  method HorizontalLines(noise: NoiseLib.Noise) returns (lines: seq<ScanLines.Line>)
    ensures lines == ScanLines.HorizontalRows(Region(noise), ScanLines.LineCount)
  {
    lines := ScanLines.HorizontalLines(Region(noise));
  }

  /** The vertical scan of lines 58-86. */
  method VerticalLines(noise: NoiseLib.Noise) returns (lines: seq<ScanLines.Line>)
    ensures lines == ScanLines.VerticalColumns(Region(noise), ScanLines.LineCount)
  {
    lines := ScanLines.VerticalLines(Region(noise));
  }

  /** In the row at `y = Coord(r)`, the sample at `x = Coord(m)` is covered by
      one of the row's segments exactly when `shouldDraw(x, y)` holds. */
  lemma RowCoversDrawnCells(noise: NoiseLib.Noise, r: nat, m: nat)
    requires r < ScanLines.LineCount && m < ScanLines.SampleCount
    ensures var y := ScanLines.Coord(r);
      var segs := ScanLines.Segments(ScanLines.RowSamples(Region(noise), y));
      (ShouldDraw(noise, ScanLines.Coord(m), y)
       <==> exists i :: 0 <= i < |segs| && ScanLines.Covers(segs[i], ScanLines.Coord(m)))
  {
    var y := ScanLines.Coord(r);
    var s := ScanLines.RowSamples(Region(noise), y);
    ScanLines.SegmentsCoverTrueSamples(s);
    assert s[m] == ShouldDraw(noise, ScanLines.Coord(m), y);
  }

  /** In the column at `x = Coord(c)`, the sample at `y = Coord(m)` is covered
      by one of the column's segments exactly when `shouldDraw(x, y)` holds. */
  lemma ColumnCoversDrawnCells(noise: NoiseLib.Noise, c: nat, m: nat)
    requires c < ScanLines.LineCount && m < ScanLines.SampleCount
    ensures var x := ScanLines.Coord(c);
      var segs := ScanLines.Segments(ScanLines.ColumnSamples(Region(noise), x));
      (ShouldDraw(noise, x, ScanLines.Coord(m))
       <==> exists i :: 0 <= i < |segs| && ScanLines.Covers(segs[i], ScanLines.Coord(m)))
  {
    var x := ScanLines.Coord(c);
    var s := ScanLines.ColumnSamples(Region(noise), x);
    ScanLines.SegmentsCoverTrueSamples(s);
    assert s[m] == ShouldDraw(noise, x, ScanLines.Coord(m));
  }
}
