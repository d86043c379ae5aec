/**
 * The per-slice body of `genpng` in dataset_tool_mri.py: normalise a volume
 * by its global maximum, cut the axial slices of the depth window
 * [SliceMin, SliceMax), centre each one on a zeroed square canvas, clamp to
 * [0, 1] and scale to [0, 255], drop nearly blank slices and name the rest
 * `<stem>_<depth:03d>.png`.  The k-space undersampling branch is not
 * modelled (the `--undersample` flag is taken to be off).
 */
module SlicePipeline {
  import opened Wrappers
  import Digits

  /** Side of the square output canvas. */
  const OutResolution: nat := 256
  /** First depth index of the window (inclusive). */
  const SliceMin: nat := 25
  /** End of the depth window (exclusive). */
  const SliceMax: nat := 125
  /** A raster is written only when its brightest cell exceeds this value. */
  const MinBrightness: real := 1.0

  /** `rows` rows of `cols` values each. */
  predicate IsGrid(g: seq<seq<real>>, rows: nat, cols: nat)
  {
    |g| == rows && forall i :: 0 <= i < |g| ==> |g[i]| == cols
  }

  /** A volume as loaded from a scan file: axes X, Y and depth. */
  datatype Volume = Volume(nx: nat, ny: nat, nz: nat, cells: seq<seq<seq<real>>>)
  {
    /** The nested sequences have the volume's shape, as every array does. */
    predicate Valid()
    {
      |cells| == nx &&
      (forall i :: 0 <= i < nx ==> |cells[i]| == ny) &&
      (forall i, j :: 0 <= i < nx && 0 <= j < ny ==> |cells[i][j]| == nz)
    }

    /** A volume without any sample, on which the global maximum is undefined. */
    predicate Empty()
    {
      nx == 0 || ny == 0 || nz == 0
    }

    predicate InRange(i: int, j: int, k: int)
    {
      0 <= i < nx && 0 <= j < ny && 0 <= k < nz
    }
  }

  // ---------------------------------------------------------------------
  // Global maximum and normalisation
  // ---------------------------------------------------------------------

  function SeqMax(s: seq<real>): (m: real)
    requires |s| > 0
    ensures forall i :: 0 <= i < |s| ==> s[i] <= m
    ensures exists i :: 0 <= i < |s| && s[i] == m
  {
    if |s| == 1 then s[0]
    else
      var t := SeqMax(s[1..]);
      assert forall i :: 1 <= i < |s| ==> s[i] == s[1..][i - 1];
      if s[0] >= t then s[0] else t
  }

  /** The maximum along depth at `(i, j)`. */
  function TubeMax(v: Volume, i: nat, j: nat): (m: real)
    requires v.Valid() && !v.Empty() && i < v.nx && j < v.ny
    ensures forall k :: 0 <= k < v.nz ==> v.cells[i][j][k] <= m
    ensures exists k :: 0 <= k < v.nz && v.cells[i][j][k] == m
  {
    SeqMax(v.cells[i][j])
  }

  /** The maximum of the plane at row `i`. */
  function PlaneMax(v: Volume, i: nat): (m: real)
    requires v.Valid() && !v.Empty() && i < v.nx
    ensures forall j, k :: 0 <= j < v.ny && 0 <= k < v.nz ==> v.cells[i][j][k] <= m
    ensures exists j, k :: 0 <= j < v.ny && 0 <= k < v.nz && v.cells[i][j][k] == m
  {
    var tubes := seq(v.ny, j requires 0 <= j < v.ny => TubeMax(v, i, j));
    var m := SeqMax(tubes);
    assert forall j, k :: 0 <= j < v.ny && 0 <= k < v.nz ==> v.cells[i][j][k] <= m by {
      forall j, k | 0 <= j < v.ny && 0 <= k < v.nz ensures v.cells[i][j][k] <= m {
        assert v.cells[i][j][k] <= tubes[j];
      }
    }
    var j :| 0 <= j < v.ny && tubes[j] == m;
    var k :| 0 <= k < v.nz && v.cells[i][j][k] == TubeMax(v, i, j);
    m
  }

  /** `np.max(img)`: an upper bound of every sample that some sample attains. */
  function VolumeMax(v: Volume): (m: real)
    requires v.Valid() && !v.Empty()
    ensures forall i, j, k :: v.InRange(i, j, k) ==> v.cells[i][j][k] <= m
    ensures exists i, j, k :: v.InRange(i, j, k) && v.cells[i][j][k] == m
  {
    var planes := seq(v.nx, i requires 0 <= i < v.nx => PlaneMax(v, i));
    var m := SeqMax(planes);
    assert forall i, j, k :: v.InRange(i, j, k) ==> v.cells[i][j][k] <= m by {
      forall i, j, k | v.InRange(i, j, k) ensures v.cells[i][j][k] <= m {
        assert v.cells[i][j][k] <= planes[i];
      }
    }
    var i :| 0 <= i < v.nx && planes[i] == m;
    var j, k :| 0 <= j < v.ny && 0 <= k < v.nz && v.cells[i][j][k] == PlaneMax(v, i);
    assert v.InRange(i, j, k);
    m
  }

  /**
   * Result of `img / np.max(img)`.  When the maximum is zero the quotient
   * has no real value (IEEE arithmetic yields NaN for 0/0 and -inf for a
   * negative sample over 0); such a volume is `Degenerate`.
   */
  datatype Normalised = Degenerate | Scaled(vol: Volume)

  predicate SameShape(v: Volume, w: Volume)
  {
    w.nx == v.nx && w.ny == v.ny && w.nz == v.nz
  }

  /** The normalised volume matches the shape of the one it came from. */
  predicate Compatible(v: Volume, n: Normalised)
  {
    n.Scaled? ==> n.vol.Valid() && SameShape(v, n.vol)
  }

  /** One sample divided by the maximum `m`: exact scaling, so the quotient times `m` is the sample. */
  function Quotient(x: real, m: real): (q: real)
    requires m != 0.0
    ensures q * m == x
    ensures m > 0.0 && x <= m ==> q <= 1.0
    ensures m < 0.0 && x <= m ==> q >= 1.0
    ensures x == m ==> q == 1.0
  {
    x / m
  }

  /** The samples of `v`, each divided by `m`. */
  function Divided(v: Volume, m: real): (w: Volume)
    requires v.Valid() && m != 0.0
    ensures w.Valid() && SameShape(v, w)
    ensures forall i, j, k :: v.InRange(i, j, k) ==> w.cells[i][j][k] == Quotient(v.cells[i][j][k], m)
  {
    var cells := seq(v.nx, i requires 0 <= i < v.nx =>
                   seq(v.ny, j requires 0 <= j < v.ny =>
                     seq(v.nz, k requires 0 <= k < v.nz => Quotient(v.cells[i][j][k], m))));
    Volume(v.nx, v.ny, v.nz, cells)
  }

  /** Every sample divided by the global maximum. */
  function Normalise(v: Volume): (n: Normalised)
    requires v.Valid() && !v.Empty()
    ensures n.Scaled? <==> VolumeMax(v) != 0.0
    ensures Compatible(v, n)
    ensures n.Scaled? ==> forall i, j, k :: v.InRange(i, j, k) ==>
      n.vol.cells[i][j][k] == Quotient(v.cells[i][j][k], VolumeMax(v))
  {
    var m := VolumeMax(v);
    if m == 0.0 then Degenerate else Scaled(Divided(v, m))
  }

  /** With a positive maximum every sample becomes at most 1 and the brightest exactly 1. */
  lemma NormalisedUnitMax(v: Volume)
    requires v.Valid() && !v.Empty() && VolumeMax(v) > 0.0
    ensures Normalise(v).Scaled?
    ensures forall i, j, k :: v.InRange(i, j, k) ==> Normalise(v).vol.cells[i][j][k] <= 1.0
    ensures !Normalise(v).vol.Empty() && VolumeMax(Normalise(v).vol) == 1.0
  {
    var m := VolumeMax(v);
    var w := Normalise(v).vol;
    var i, j, k :| v.InRange(i, j, k) && v.cells[i][j][k] == m;
    assert w.cells[i][j][k] == 1.0;
    var wm := VolumeMax(w);
    assert wm <= 1.0 by {
      var a, b, c :| w.InRange(a, b, c) && w.cells[a][b][c] == wm;
      assert v.InRange(a, b, c);
    }
  }

  /** With a negative maximum (an all-negative volume) every quotient is at least 1. */
  lemma NormalisedNegativeMax(v: Volume)
    requires v.Valid() && !v.Empty() && VolumeMax(v) < 0.0
    ensures Normalise(v).Scaled?
    ensures forall i, j, k :: v.InRange(i, j, k) ==> Normalise(v).vol.cells[i][j][k] >= 1.0
  {
  }

  /** Normalising a volume whose maximum is already 1 changes nothing. */
  lemma NormaliseIdempotent(v: Volume)
    requires v.Valid() && !v.Empty() && VolumeMax(v) == 1.0
    ensures Normalise(v) == Scaled(v)
  {
    SameSamples(v, Normalise(v).vol);
  }

  /** Two volumes of one shape that agree on every sample are equal. */
  lemma SameSamples(v: Volume, w: Volume)
    requires v.Valid() && w.Valid() && SameShape(v, w)
    requires forall i, j, k :: v.InRange(i, j, k) ==> w.cells[i][j][k] == v.cells[i][j][k]
    ensures w == v
  {
    forall i, j | 0 <= i < v.nx && 0 <= j < v.ny ensures w.cells[i][j] == v.cells[i][j] {
      assert forall k :: 0 <= k < v.nz ==> w.cells[i][j][k] == v.cells[i][j][k] by {
        forall k | 0 <= k < v.nz ensures w.cells[i][j][k] == v.cells[i][j][k] {
          assert v.InRange(i, j, k);
        }
      }
    }
    forall i | 0 <= i < v.nx ensures w.cells[i] == v.cells[i] {
    }
  }

  // ---------------------------------------------------------------------
  // One slice: extraction, centring, clamping
  // ---------------------------------------------------------------------

  /** `img[:, :, s]`. */
  function SliceAt(v: Volume, s: nat): (g: seq<seq<real>>)
    requires v.Valid() && s < v.nz
    ensures IsGrid(g, v.nx, v.ny)
    ensures forall i, j :: 0 <= i < v.nx && 0 <= j < v.ny ==> g[i][j] == v.cells[i][j][s]
  {
    seq(v.nx, i requires 0 <= i < v.nx => seq(v.ny, j requires 0 <= j < v.ny => v.cells[i][j][s]))
  }

  /** `(OUT_RESOLUTION - dim) // 2`; Python's floor division, which `/` on int gives for a positive divisor. */
  function Border(dim: nat): int
  {
    (OutResolution as int - dim) / 2
  }

  /**
   * A slice side that fits the canvas is placed wholly inside it, and the
   * margin after it equals the margin before it or exceeds it by one.
   */
  lemma BorderCentres(dim: nat)
    requires dim <= OutResolution
    ensures 0 <= Border(dim) && Border(dim) + dim <= OutResolution
    ensures var after := OutResolution - dim - Border(dim);
      after == Border(dim) || after == Border(dim) + 1
  {
  }

  /** Cell `(r, c)` of the canvas after `output[b0:b0+nx, b1:b1+ny] = slice`. */
  function CanvasCell(sl: seq<seq<real>>, ny: nat, r: int, c: int): real
    requires IsGrid(sl, |sl|, ny)
  {
    var b0, b1 := Border(|sl|), Border(ny);
    if b0 <= r < b0 + |sl| && b1 <= c < b1 + ny then sl[r - b0][c - b1] else 0.0
  }

  /**
   * The canvas holds the slice at the centring offset, every slice cell is
   * visible in it, and every cell outside the slice's window is zero.
   */
  lemma CanvasCentred(sl: seq<seq<real>>, ny: nat)
    requires IsGrid(sl, |sl|, ny) && |sl| <= OutResolution && ny <= OutResolution
    ensures forall i, j :: 0 <= i < |sl| && 0 <= j < ny ==>
      0 <= Border(|sl|) + i < OutResolution && 0 <= Border(ny) + j < OutResolution &&
      CanvasCell(sl, ny, Border(|sl|) + i, Border(ny) + j) == sl[i][j]
    ensures forall r, c ::
      (0 <= r < OutResolution && 0 <= c < OutResolution &&
       !(Border(|sl|) <= r < Border(|sl|) + |sl| && Border(ny) <= c < Border(ny) + ny)) ==>
      CanvasCell(sl, ny, r, c) == 0.0
  {
    BorderCentres(|sl|);
    BorderCentres(ny);
  }

  /** `np.maximum(np.minimum(v, 1.0), 0.0) * 255` on one value. */
  function ClampScaled(v: real): (r: real)
    ensures 0.0 <= r <= 255.0
    ensures v >= 1.0 ==> r == 255.0
    ensures v <= 0.0 ==> r == 0.0
    ensures 0.0 <= v <= 1.0 ==> r == 255.0 * v
  {
    var upper := if v < 1.0 then v else 1.0;
    var lower := if upper > 0.0 then upper else 0.0;
    lower * 255.0
  }

  /** Clamping and scaling keeps the order of values. */
  lemma ClampScaledMonotone(u: real, v: real)
    requires u <= v
    ensures ClampScaled(u) <= ClampScaled(v)
  {
  }

  /** The raster of one slice: canvas, then clamp and scale. */
  function RasterOf(sl: seq<seq<real>>, ny: nat): (g: seq<seq<real>>)
    requires IsGrid(sl, |sl|, ny)
  {
    seq(OutResolution, r requires 0 <= r < OutResolution =>
      seq(OutResolution, c requires 0 <= c < OutResolution => ClampScaled(CanvasCell(sl, ny, r, c))))
  }

  /**
   * Every raster is a 256 by 256 grid with cells in [0, 255]: zero outside
   * the slice's window, the clamped and scaled slice value inside it.
   */
  lemma RasterCells(sl: seq<seq<real>>, ny: nat)
    requires IsGrid(sl, |sl|, ny) && |sl| <= OutResolution && ny <= OutResolution
    ensures IsGrid(RasterOf(sl, ny), OutResolution, OutResolution)
    ensures forall r, c :: 0 <= r < OutResolution && 0 <= c < OutResolution ==>
      0.0 <= RasterOf(sl, ny)[r][c] <= 255.0
    ensures forall r, c ::
      (0 <= r < OutResolution && 0 <= c < OutResolution &&
       !(Border(|sl|) <= r < Border(|sl|) + |sl| && Border(ny) <= c < Border(ny) + ny)) ==>
      RasterOf(sl, ny)[r][c] == 0.0
    ensures forall i, j :: 0 <= i < |sl| && 0 <= j < ny ==>
      RasterOf(sl, ny)[Border(|sl|) + i][Border(ny) + j] == ClampScaled(sl[i][j])
  {
    CanvasCentred(sl, ny);
  }

  /** `np.max(output) > 1.0`. */
  predicate Bright(g: seq<seq<real>>)
  {
    exists r, c :: 0 <= r < |g| && 0 <= c < |g[r]| && g[r][c] > MinBrightness
  }

  // ---------------------------------------------------------------------
  // File names
  // ---------------------------------------------------------------------

  /** Position just after the last `/` of `p`, or 0 when there is none. */
  function AfterLastSlash(p: string): (k: nat)
    ensures k <= |p|
    ensures forall i :: k <= i < |p| ==> p[i] != '/'
    ensures k > 0 ==> p[k - 1] == '/'
  {
    if p == [] then 0
    else if p[|p| - 1] == '/' then |p|
    else AfterLastSlash(p[..|p| - 1])
  }

  /** `os.path.basename(p)` on POSIX: the text after the last `/`. */
  function Basename(p: string): string
  {
    p[AfterLastSlash(p)..]
  }

  /** Position of the first `.` of `s`, or `|s|` when there is none. */
  function FirstDot(s: string): (k: nat)
    ensures k <= |s|
    ensures forall i :: 0 <= i < k ==> s[i] != '.'
    ensures k < |s| ==> s[k] == '.'
  {
    if s == [] || s[0] == '.' then 0
    else 1 + FirstDot(s[1..])
  }

  /** `s.split(".")[0]`: the text before the first `.`. */
  function FirstField(s: string): string
  {
    s[..FirstDot(s)]
  }

  /** The volume identifier used in the output names. */
  function Stem(path: string): string
  {
    FirstField(Basename(path))
  }

  /** A stem holds neither a directory separator nor a dot. */
  lemma StemPlain(path: string)
    ensures '/' !in Stem(path) && '.' !in Stem(path)
  {
    var j := AfterLastSlash(path);
    var b := Basename(path);
    var k := FirstDot(b);
    var r := Stem(path);
    forall i | 0 <= i < |r| ensures r[i] != '/' && r[i] != '.' {
      assert r[i] == b[i] == path[j + i];
    }
  }

  /**
   * The stem of `dir/stem.ext` is `stem`, whatever the extension holds:
   * every text after the first dot is dropped, so `a.nii.gz` and
   * `a.bak.nii.gz` in one directory share the stem `a`.
   */
  lemma StemOfPath(dir: string, stem: string, ext: string)
    requires '/' !in stem && '.' !in stem && '/' !in ext
    ensures Stem(dir + "/" + stem + "." + ext) == stem
  {
    var p := dir + "/" + stem + "." + ext;
    var b := stem + "." + ext;
    assert p == dir + "/" + b;
    assert p[|dir|] == '/';
    assert Basename(p) == b;
    assert b[|stem|] == '.';
  }

  /** `"%s_%03d.png" % (name, s)`. */
  function OutName(name: string, s: nat): string
  {
    name + "_" + Digits.Format03(s) + ".png"
  }

  /**
   * Within three digits the name has fixed length and spells the depth
   * back, so distinct (stem, depth) pairs never share an output file.
   */
  lemma OutNameInjective(n1: string, s1: nat, n2: string, s2: nat)
    requires s1 < 1000 && s2 < 1000
    requires OutName(n1, s1) == OutName(n2, s2)
    ensures n1 == n2 && s1 == s2
  {
    var a, b := OutName(n1, s1), OutName(n2, s2);
    assert |a| == |n1| + 8 && |b| == |n2| + 8;
    assert n1 == a[..|n1|] == b[..|n2|] == n2;
    var d1, d2 := Digits.Format03(s1), Digits.Format03(s2);
    assert d1 == a[|n1| + 1..|n1| + 4];
    assert d2 == b[|n2| + 1..|n2| + 4];
    Digits.Format03Value(s1);
    Digits.Format03Value(s2);
  }

  // ---------------------------------------------------------------------
  // The slice loop as a specification
  // ---------------------------------------------------------------------

  /** A written image: the stem of its volume, its depth index and its 8-bit-range cells. */
  datatype Raster = Raster(stem: string, depth: nat, pixels: seq<seq<real>>)
  {
    /** The file the image is saved under. */
    function FileName(): string
    {
      OutName(stem, depth)
    }
  }

  /** The exceptions the loop can raise. */
  datatype Failure =
    | EmptyVolume                        // `np.max` of an empty array
    | SliceOutOfRange(depth: nat)        // `img[:, :, s]` with `s` past the depth axis
    | SliceTooLarge(nx: nat, ny: nat)    // the slice does not broadcast into the canvas window

  /** Rasters written so far, and the exception that stopped the run, if any. */
  datatype Outcome = Outcome(written: seq<Raster>, failure: Option<Failure>)

  /** `acc` written first, then whatever `o` writes. */
  function Then(acc: seq<Raster>, o: Outcome): Outcome
  {
    Outcome(acc + o.written, o.failure)
  }

  /** What the iteration for one depth does: raise, skip, or write one raster. */
  datatype Step = Raise(failure: Failure) | Skip | Write(raster: Raster)

  /** The body of the slice loop for depth `s` (lines 72-85). */
  function SliceStep(name: string, v: Volume, n: Normalised, s: nat): Step
    requires v.Valid() && Compatible(v, n)
  {
    if s >= v.nz then Raise(SliceOutOfRange(s))
    else if v.nx > OutResolution || v.ny > OutResolution then Raise(SliceTooLarge(v.nx, v.ny))
    else match n
      case Degenerate => Skip
      case Scaled(w) =>
        var g := RasterOf(SliceAt(w, s), w.ny);
        if Bright(g) then Write(Raster(name, s, g)) else Skip
  }

  /** The steps run in order: rasters accumulate until the first exception. */
  function Collect(steps: seq<Step>): Outcome
  {
    if steps == [] then Outcome([], None)
    else match steps[0]
      case Raise(f) => Outcome([], Some(f))
      case Skip => Collect(steps[1..])
      case Write(x) => Then([x], Collect(steps[1..]))
  }

  /** The steps for depths `SliceMin`, ..., `SliceMax - 1`. */
  function Steps(name: string, v: Volume, n: Normalised): seq<Step>
    requires v.Valid() && Compatible(v, n)
  {
    seq(SliceMax - SliceMin, i requires 0 <= i < SliceMax - SliceMin => SliceStep(name, v, n, SliceMin + i))
  }

  /** Everything `genpng` does with one volume. */
  function VolumeOutcome(name: string, v: Volume): Outcome
    requires v.Valid()
  {
    if v.Empty() then Outcome([], Some(EmptyVolume))
    else Collect(Steps(name, v, Normalise(v)))
  }

  /** A raster as the loop writes it for its depth. */
  predicate WellFormedRaster(name: string, v: Volume, n: Normalised, x: Raster)
    requires v.Valid() && Compatible(v, n)
  {
    n.Scaled? && SliceMin <= x.depth < SliceMax && x.depth < v.nz &&
    v.nx <= OutResolution && v.ny <= OutResolution &&
    x.stem == name &&
    x.pixels == RasterOf(SliceAt(n.vol, x.depth), v.ny) && Bright(x.pixels)
  }

  /** Depth indices strictly increase along the sequence. */
  predicate Increasing(w: seq<Raster>)
  {
    forall k, l :: 0 <= k < l < |w| ==> w[k].depth < w[l].depth
  }

  lemma IncreasingCons(x: Raster, w: seq<Raster>)
    requires Increasing(w) && forall k :: 0 <= k < |w| ==> x.depth < w[k].depth
    ensures Increasing([x] + w)
  {
    var xw := [x] + w;
    forall k, l | 0 <= k < l < |xw| ensures xw[k].depth < xw[l].depth {
      assert xw[l] == w[l - 1];
      if k > 0 {
        assert xw[k] == w[k - 1];
      }
    }
  }

  // ---------------------------------------------------------------------
  // Properties of running a sequence of steps
  // ---------------------------------------------------------------------

  /** Every raster step `i` writes carries depth `base + i`. */
  predicate DepthIndexed(steps: seq<Step>, base: nat)
  {
    forall i :: 0 <= i < |steps| && steps[i].Write? ==> steps[i].raster.depth == base + i
  }

  lemma DepthIndexedTail(steps: seq<Step>, base: nat)
    requires steps != [] && DepthIndexed(steps, base)
    ensures DepthIndexed(steps[1..], base + 1)
  {
    var tail := steps[1..];
    forall i | 0 <= i < |tail| && tail[i].Write? ensures tail[i].raster.depth == base + 1 + i {
      assert tail[i] == steps[i + 1];
    }
  }

  /** Each raster of `w` is the one written by the step of its own depth. */
  predicate FromOwnStep(w: seq<Raster>, steps: seq<Step>, base: nat)
  {
    forall k :: 0 <= k < |w| ==>
      base <= w[k].depth < base + |steps| && steps[w[k].depth - base] == Write(w[k])
  }

  lemma FromOwnStepShift(w: seq<Raster>, steps: seq<Step>, base: nat)
    requires steps != [] && FromOwnStep(w, steps[1..], base + 1)
    ensures FromOwnStep(w, steps, base)
  {
    forall k | 0 <= k < |w|
      ensures base <= w[k].depth < base + |steps| && steps[w[k].depth - base] == Write(w[k])
    {
      assert steps[w[k].depth - base] == steps[1..][w[k].depth - (base + 1)];
    }
  }

  lemma FromOwnStepCons(x: Raster, w: seq<Raster>, steps: seq<Step>, base: nat)
    requires steps != [] && steps[0] == Write(x) && x.depth == base && FromOwnStep(w, steps, base)
    ensures FromOwnStep([x] + w, steps, base)
  {
    var xw := [x] + w;
    forall k | 1 <= k < |xw|
      ensures base <= xw[k].depth < base + |steps| && steps[xw[k].depth - base] == Write(xw[k])
    {
      assert xw[k] == w[k - 1];
    }
  }

  /** Run over depth-indexed steps, each raster written is the raster its own depth's step writes. */
  lemma {:induction false} CollectFromOwnStep(steps: seq<Step>, base: nat)
    requires DepthIndexed(steps, base)
    ensures FromOwnStep(Collect(steps).written, steps, base)
    decreases |steps|
  {
    if steps != [] && !steps[0].Raise? {
      var tail := steps[1..];
      DepthIndexedTail(steps, base);
      CollectFromOwnStep(tail, base + 1);
      var rest := Collect(tail).written;
      FromOwnStepShift(rest, steps, base);
      if steps[0].Write? {
        FromOwnStepCons(steps[0].raster, rest, steps, base);
        assert Collect(steps).written == [steps[0].raster] + rest;
      } else {
        assert Collect(steps).written == rest;
      }
    }
  }

  /** Run over depth-indexed steps, the rasters come out in strictly increasing depth order. */
  lemma {:induction false} CollectIncreasing(steps: seq<Step>, base: nat)
    requires DepthIndexed(steps, base)
    ensures Increasing(Collect(steps).written)
    decreases |steps|
  {
    if steps != [] && !steps[0].Raise? {
      var tail := steps[1..];
      DepthIndexedTail(steps, base);
      CollectIncreasing(tail, base + 1);
      var rest := Collect(tail).written;
      if steps[0].Write? {
        CollectFromOwnStep(tail, base + 1);
        assert Collect(steps).written == [steps[0].raster] + rest;
        IncreasingCons(steps[0].raster, rest);
      } else {
        assert Collect(steps).written == rest;
      }
    }
  }

  /** A run stops with no exception exactly when no step raises. */
  lemma {:induction false} CollectNoRaise(steps: seq<Step>)
    ensures Collect(steps).failure == None <==> forall i :: 0 <= i < |steps| ==> !steps[i].Raise?
    decreases |steps|
  {
    if steps != [] && !steps[0].Raise? {
      var tail := steps[1..];
      CollectNoRaise(tail);
      if forall i :: 0 <= i < |tail| ==> !tail[i].Raise? {
        forall i | 0 <= i < |steps| ensures !steps[i].Raise? {
          if i > 0 {
            assert steps[i] == tail[i - 1];
          }
        }
      } else {
        var i :| 0 <= i < |tail| && tail[i].Raise?;
        assert steps[i + 1].Raise?;
      }
    }
  }

  /** The exception of a run is the one the first raising step raises. */
  lemma {:induction false} CollectFirstRaise(steps: seq<Step>, j: nat)
    requires j < |steps| && steps[j].Raise?
    requires forall i :: 0 <= i < j ==> !steps[i].Raise?
    ensures Collect(steps).failure == Some(steps[j].failure)
    decreases j
  {
    if j > 0 {
      var tail := steps[1..];
      assert !steps[0].Raise?;
      forall i | 0 <= i < j - 1 ensures !tail[i].Raise? {
        assert tail[i] == steps[i + 1];
      }
      assert tail[j - 1] == steps[j];
      CollectFirstRaise(tail, j - 1);
    }
  }

  /** On a run with no exception, every raster a step writes is written. */
  lemma {:induction false} CollectIncludes(steps: seq<Step>, i: nat)
    requires i < |steps| && steps[i].Write?
    requires Collect(steps).failure == None
    ensures exists k :: 0 <= k < |Collect(steps).written| && Collect(steps).written[k] == steps[i].raster
    decreases i
  {
    var w := Collect(steps).written;
    if i == 0 {
      assert w[0] == steps[0].raster;
    } else {
      var tail := steps[1..];
      assert !steps[0].Raise?;
      assert tail[i - 1] == steps[i];
      CollectIncludes(tail, i - 1);
      var rest := Collect(tail).written;
      var k :| 0 <= k < |rest| && rest[k] == steps[i].raster;
      if steps[0].Write? {
        assert w == [steps[0].raster] + rest;
        assert w[k + 1] == rest[k];
      } else {
        assert w == rest;
      }
    }
  }

  /** One step of a run, taken after the rasters `acc` are already written. */
  lemma CollectAdvance(steps: seq<Step>, i: nat, acc: seq<Raster>)
    requires i < |steps|
    ensures Then(acc, Collect(steps[i..])) ==
      match steps[i]
      case Raise(f) => Outcome(acc, Some(f))
      case Skip => Then(acc, Collect(steps[i + 1..]))
      case Write(x) => Then(acc + [x], Collect(steps[i + 1..]))
  {
    var here := steps[i..];
    assert here[0] == steps[i];
    assert here[1..] == steps[i + 1..];
    if steps[i].Write? {
      var x := steps[i].raster;
      assert acc + ([x] + Collect(here[1..]).written) == acc + [x] + Collect(here[1..]).written;
    }
  }

  /** A run in which no step writes writes nothing. */
  lemma {:induction false} CollectNoWrites(steps: seq<Step>)
    requires forall i :: 0 <= i < |steps| ==> !steps[i].Write?
    ensures Collect(steps).written == []
    decreases |steps|
  {
    if steps != [] && steps[0].Skip? {
      var tail := steps[1..];
      forall i | 0 <= i < |tail| ensures !tail[i].Write? {
        assert tail[i] == steps[i + 1];
      }
      CollectNoWrites(tail);
    }
  }

  // ---------------------------------------------------------------------
  // Properties of one volume
  // ---------------------------------------------------------------------

  lemma StepAt(name: string, v: Volume, n: Normalised, s: nat)
    requires v.Valid() && Compatible(v, n) && SliceMin <= s < SliceMax
    ensures |Steps(name, v, n)| == SliceMax - SliceMin
    ensures Steps(name, v, n)[s - SliceMin] == SliceStep(name, v, n, s)
  {
  }

  lemma StepsDepthIndexed(name: string, v: Volume, n: Normalised)
    requires v.Valid() && Compatible(v, n)
    ensures DepthIndexed(Steps(name, v, n), SliceMin)
  {
    var steps := Steps(name, v, n);
    forall i | 0 <= i < |steps| && steps[i].Write? ensures steps[i].raster.depth == SliceMin + i {
      assert steps[i] == SliceStep(name, v, n, SliceMin + i);
    }
  }

  lemma StepsWritten(name: string, v: Volume, n: Normalised)
    requires v.Valid() && Compatible(v, n)
    ensures forall k :: 0 <= k < |Collect(Steps(name, v, n)).written| ==>
      WellFormedRaster(name, v, n, Collect(Steps(name, v, n)).written[k])
    ensures Increasing(Collect(Steps(name, v, n)).written)
  {
    var steps := Steps(name, v, n);
    StepsDepthIndexed(name, v, n);
    CollectFromOwnStep(steps, SliceMin);
    CollectIncreasing(steps, SliceMin);
    var w := Collect(steps).written;
    forall k | 0 <= k < |w| ensures WellFormedRaster(name, v, n, w[k]) {
      var d := w[k].depth;
      assert steps[d - SliceMin] == SliceStep(name, v, n, d);
    }
  }

  /**
   * The depths written are distinct, increasing, inside the window and the
   * volume; each raster carries its volume's stem and the clamped canvas
   * of that depth's normalised slice, and passes the brightness test.
   */
  lemma WrittenDepths(name: string, v: Volume)
    requires v.Valid()
    ensures forall k :: 0 <= k < |VolumeOutcome(name, v).written| ==>
      WellFormedRaster(name, v, Normalise(v), VolumeOutcome(name, v).written[k])
    ensures Increasing(VolumeOutcome(name, v).written)
  {
    if !v.Empty() {
      StepsWritten(name, v, Normalise(v));
    }
  }

  lemma StepsFailure(name: string, v: Volume, n: Normalised)
    requires v.Valid() && Compatible(v, n)
    ensures Collect(Steps(name, v, n)).failure ==
      if v.nz <= SliceMin then Some(SliceOutOfRange(SliceMin))
      else if v.nx > OutResolution || v.ny > OutResolution then Some(SliceTooLarge(v.nx, v.ny))
      else if v.nz < SliceMax then Some(SliceOutOfRange(v.nz))
      else None
  {
    var steps := Steps(name, v, n);
    assert steps[0] == SliceStep(name, v, n, SliceMin);
    if v.nz <= SliceMin || v.nx > OutResolution || v.ny > OutResolution {
      CollectFirstRaise(steps, 0);
    } else {
      forall i | 0 <= i < |steps| && SliceMin + i < v.nz ensures !steps[i].Raise? {
        assert steps[i] == SliceStep(name, v, n, SliceMin + i);
      }
      if v.nz < SliceMax {
        var j := v.nz - SliceMin;
        assert steps[j] == SliceStep(name, v, n, v.nz);
        CollectFirstRaise(steps, j);
      } else {
        CollectNoRaise(steps);
      }
    }
  }

  /**
   * Which exception a volume raises: none exactly when it is non-empty, at
   * least `SliceMax` deep and at most `OutResolution` wide on both axes.
   */
  lemma VolumeFailure(name: string, v: Volume)
    requires v.Valid()
    ensures VolumeOutcome(name, v).failure ==
      if v.Empty() then Some(EmptyVolume)
      else if v.nz <= SliceMin then Some(SliceOutOfRange(SliceMin))
      else if v.nx > OutResolution || v.ny > OutResolution then Some(SliceTooLarge(v.nx, v.ny))
      else if v.nz < SliceMax then Some(SliceOutOfRange(v.nz))
      else None
  {
    if !v.Empty() {
      StepsFailure(name, v, Normalise(v));
    }
  }

  /** On a run that raises nothing, depth `base + i` is written exactly when step `i` writes. */
  lemma CollectWrittenIff(steps: seq<Step>, base: nat, i: nat)
    requires DepthIndexed(steps, base) && Collect(steps).failure == None && i < |steps|
    ensures (exists k :: 0 <= k < |Collect(steps).written| && Collect(steps).written[k].depth == base + i)
      <==> steps[i].Write?
  {
    var w := Collect(steps).written;
    CollectFromOwnStep(steps, base);
    if exists k :: 0 <= k < |w| && w[k].depth == base + i {
      var k :| 0 <= k < |w| && w[k].depth == base + i;
      assert steps[w[k].depth - base] == Write(w[k]);
    }
    if steps[i].Write? {
      CollectIncludes(steps, i);
    }
  }

  lemma StepsWrites(name: string, v: Volume, n: Normalised, d: nat)
    requires v.Valid() && Compatible(v, n) && SliceMin <= d < SliceMax
    requires Collect(Steps(name, v, n)).failure == None
    ensures (exists k :: 0 <= k < |Collect(Steps(name, v, n)).written| && Collect(Steps(name, v, n)).written[k].depth == d)
      <==> n.Scaled? && d < v.nz && Bright(RasterOf(SliceAt(n.vol, d), v.ny))
  {
    var steps := Steps(name, v, n);
    StepsDepthIndexed(name, v, n);
    StepAt(name, v, n, d);
    CollectNoRaise(steps);
    CollectWrittenIff(steps, SliceMin, d - SliceMin);
    assert !steps[d - SliceMin].Raise?;
  }

  /**
   * On a run that raises nothing, depth `d` of the window is written
   * exactly when the volume's maximum is non-zero and the raster of its
   * normalised slice passes the brightness test.
   */
  lemma WrittenIff(name: string, v: Volume, d: nat)
    requires v.Valid() && VolumeOutcome(name, v).failure == None && SliceMin <= d < SliceMax
    ensures !v.Empty()
    ensures (exists k :: 0 <= k < |VolumeOutcome(name, v).written| && VolumeOutcome(name, v).written[k].depth == d)
      <==> Normalise(v).Scaled? && d < v.nz && Bright(RasterOf(SliceAt(Normalise(v).vol, d), v.ny))
  {
    VolumeFailure(name, v);
    StepsWrites(name, v, Normalise(v), d);
  }

  lemma DegenerateWritesNothing(name: string, v: Volume)
    requires v.Valid()
    ensures Collect(Steps(name, v, Degenerate)).written == []
  {
    var steps := Steps(name, v, Degenerate);
    forall i | 0 <= i < |steps| ensures !steps[i].Write? {
      assert steps[i] == SliceStep(name, v, Degenerate, SliceMin + i);
    }
    CollectNoWrites(steps);
  }

  /** A volume whose maximum is zero produces no raster. */
  lemma ZeroMaxWritesNothing(name: string, v: Volume)
    requires v.Valid() && !v.Empty() && VolumeMax(v) == 0.0
    ensures VolumeOutcome(name, v).written == []
  {
    DegenerateWritesNothing(name, v);
  }

  // ---------------------------------------------------------------------
  // The imperative pipeline
  // ---------------------------------------------------------------------

  /**
   * `np.zeros([256, 256])` followed by the slice assignment of line 78.
   * `fits` is false when the assignment cannot broadcast (a slice side
   * over 256 makes the border negative and the target window shorter than
   * the slice); the canvas then stays zero.
   */
  method Composite(sl: seq<seq<real>>, ny: nat) returns (canvas: array2<real>, fits: bool)
    requires IsGrid(sl, |sl|, ny)
    ensures fresh(canvas) && canvas.Length0 == OutResolution && canvas.Length1 == OutResolution
    ensures fits <==> |sl| <= OutResolution && ny <= OutResolution
    ensures fits ==> forall r, c :: 0 <= r < OutResolution && 0 <= c < OutResolution ==>
      canvas[r, c] == CanvasCell(sl, ny, r, c)
  {
    canvas := new real[OutResolution, OutResolution]((r, c) => 0.0);
    fits := |sl| <= OutResolution && ny <= OutResolution;
    if !fits {
      return;
    }
    var b0, b1 := Border(|sl|), Border(ny);
    BorderCentres(|sl|);
    BorderCentres(ny);
    var i := 0;
    while i < |sl|
      invariant 0 <= i <= |sl|
      invariant forall r, c :: 0 <= r < OutResolution && 0 <= c < OutResolution ==>
        canvas[r, c] == if r < b0 + i then CanvasCell(sl, ny, r, c) else 0.0
    {
      var j := 0;
      while j < ny
        invariant 0 <= j <= ny
        invariant forall r, c :: 0 <= r < OutResolution && 0 <= c < OutResolution ==>
          canvas[r, c] == if r < b0 + i || (r == b0 + i && c < b1 + j) then CanvasCell(sl, ny, r, c) else 0.0
      {
        canvas[b0 + i, b1 + j] := sl[i][j];
        j := j + 1;
      }
      i := i + 1;
    }
  }

  /** Lines 79-81 on the canvas, in place. */
  method ClampAndScale(a: array2<real>)
    modifies a
    ensures forall r, c :: 0 <= r < a.Length0 && 0 <= c < a.Length1 ==> a[r, c] == ClampScaled(old(a[r, c]))
  {
    var r := 0;
    while r < a.Length0
      invariant 0 <= r <= a.Length0
      invariant forall i, j :: 0 <= i < a.Length0 && 0 <= j < a.Length1 ==>
        a[i, j] == if i < r then ClampScaled(old(a[i, j])) else old(a[i, j])
    {
      var c := 0;
      while c < a.Length1
        invariant 0 <= c <= a.Length1
        invariant forall i, j :: 0 <= i < a.Length0 && 0 <= j < a.Length1 ==>
          a[i, j] == if i < r || (i == r && j < c) then ClampScaled(old(a[i, j])) else old(a[i, j])
      {
        a[r, c] := ClampScaled(a[r, c]);
        c := c + 1;
      }
      r := r + 1;
    }
  }

  /** `np.max(output)`. */
  method CanvasMax(a: array2<real>) returns (m: real)
    requires a.Length0 > 0 && a.Length1 > 0
    ensures forall r, c :: 0 <= r < a.Length0 && 0 <= c < a.Length1 ==> a[r, c] <= m
    ensures exists r, c :: 0 <= r < a.Length0 && 0 <= c < a.Length1 && a[r, c] == m
  {
    m := a[0, 0];
    ghost var wr, wc := 0, 0;
    var r := 0;
    while r < a.Length0
      invariant 0 <= r <= a.Length0
      invariant 0 <= wr < a.Length0 && 0 <= wc < a.Length1 && a[wr, wc] == m
      invariant forall i, j :: 0 <= i < r && 0 <= j < a.Length1 ==> a[i, j] <= m
    {
      var c := 0;
      while c < a.Length1
        invariant 0 <= c <= a.Length1
        invariant 0 <= wr < a.Length0 && 0 <= wc < a.Length1 && a[wr, wc] == m
        invariant forall i, j :: 0 <= i < a.Length0 && 0 <= j < a.Length1 && (i < r || (i == r && j < c)) ==> a[i, j] <= m
      {
        if a[r, c] > m {
          m := a[r, c];
          wr, wc := r, c;
        }
        c := c + 1;
      }
      r := r + 1;
    }
  }

  /** The cells handed to the image writer, row by row. */
  method Snapshot(a: array2<real>) returns (g: seq<seq<real>>)
    ensures IsGrid(g, a.Length0, a.Length1)
    ensures forall r, c :: 0 <= r < a.Length0 && 0 <= c < a.Length1 ==> g[r][c] == a[r, c]
  {
    g := [];
    var r := 0;
    while r < a.Length0
      invariant 0 <= r <= a.Length0
      invariant IsGrid(g, r, a.Length1)
      invariant forall i, j :: 0 <= i < r && 0 <= j < a.Length1 ==> g[i][j] == a[i, j]
    {
      var row := [];
      var c := 0;
      while c < a.Length1
        invariant 0 <= c <= a.Length1
        invariant |row| == c
        invariant forall j :: 0 <= j < c ==> row[j] == a[r, j]
      {
        row := row + [a[r, c]];
        c := c + 1;
      }
      g := g + [row];
      r := r + 1;
    }
  }

  /**
   * The body of the slice loop for depth `s`: take the slice, composite it
   * onto the canvas, clamp and scale in place, and keep the canvas when its
   * maximum passes the brightness test.
   */
  method GenSlice(name: string, v: Volume, n: Normalised, s: nat) returns (step: Step)
    requires v.Valid() && Compatible(v, n)
    ensures step == SliceStep(name, v, n, s)
  {
    if s >= v.nz {
      return Raise(SliceOutOfRange(s));
    }
    if n.Degenerate? {
      // Every cell is NaN or -inf: the assignment still checks the shape,
      // and the brightness test is false for every slice.
      if v.nx > OutResolution || v.ny > OutResolution {
        return Raise(SliceTooLarge(v.nx, v.ny));
      }
      return Skip;
    }
    var sl := SliceAt(n.vol, s);
    var canvas, fits := Composite(sl, v.ny);
    if !fits {
      return Raise(SliceTooLarge(v.nx, v.ny));
    }
    ClampAndScale(canvas);
    var m := CanvasMax(canvas);
    ghost var g := RasterOf(sl, v.ny);
    assert forall r, c :: 0 <= r < OutResolution && 0 <= c < OutResolution ==> canvas[r, c] == g[r][c];
    if m > MinBrightness {
      var pixels := Snapshot(canvas);
      assert pixels == g by {
        assert forall r :: 0 <= r < OutResolution ==> pixels[r] == g[r];
      }
      assert Bright(g) by {
        var r, c :| 0 <= r < OutResolution && 0 <= c < OutResolution && canvas[r, c] == m;
        assert g[r][c] > MinBrightness;
      }
      step := Write(Raster(name, s, pixels));
    } else {
      assert forall r, c :: 0 <= r < OutResolution && 0 <= c < OutResolution ==> g[r][c] <= m;
      step := Skip;
    }
  }

  /**
   * One pass of the slice loop, for depth `s`, after `acc` is written: the
   * rasters written so far and, when the pass raises, the exception.
   */
  method WindowStep(name: string, v: Volume, n: Normalised, s: nat, acc: seq<Raster>)
    returns (written: seq<Raster>, failure: Option<Failure>)
    requires v.Valid() && Compatible(v, n) && SliceMin <= s < SliceMax
    ensures failure.Some? ==>
      Outcome(written, failure) == Then(acc, Collect(Steps(name, v, n)[s - SliceMin..]))
    ensures failure.None? ==>
      Then(written, Collect(Steps(name, v, n)[s + 1 - SliceMin..])) == Then(acc, Collect(Steps(name, v, n)[s - SliceMin..]))
  {
    StepAt(name, v, n, s);
    CollectAdvance(Steps(name, v, n), s - SliceMin, acc);
    var step := GenSlice(name, v, n, s);
    match step {
      case Raise(f) =>
        return acc, Some(f);
      case Skip =>
        return acc, None;
      case Write(x) =>
        return acc + [x], None;
    }
  }

  /** The slice loop over the depth window, on a volume already normalised to `n`. */
  method GenWindow(name: string, v: Volume, n: Normalised) returns (written: seq<Raster>, failure: Option<Failure>)
    requires v.Valid() && Compatible(v, n)
    ensures Outcome(written, failure) == Collect(Steps(name, v, n))
  {
    written, failure := [], None;
    ghost var steps := Steps(name, v, n);
    assert steps[0..] == steps;
    var s := SliceMin;
    while s < SliceMax
      invariant SliceMin <= s <= SliceMax
      invariant Then(written, Collect(steps[s - SliceMin..])) == Collect(steps)
      invariant failure == None
    {
      var more, raised := WindowStep(name, v, n, s, written);
      written := more;
      if raised.Some? {
        failure := raised;
        return;
      }
      s := s + 1;
    }
    StepAt(name, v, n, SliceMin);
    assert steps[s - SliceMin..] == [];
    assert written + [] == written;
  }

  /** One volume: normalise once, then run the slice loop over the depth window. */
  method GenVolume(name: string, v: Volume) returns (written: seq<Raster>, failure: Option<Failure>)
    requires v.Valid()
    ensures Outcome(written, failure) == VolumeOutcome(name, v)
  {
    if v.Empty() {
      return [], Some(EmptyVolume);
    }
    var n := Normalise(v);
    written, failure := GenWindow(name, v, n);
  }

  /** A scan file: its path and the volume read from it. */
  datatype VolumeFile = VolumeFile(path: string, volume: Volume)

  /** Outcomes of successive volumes: their rasters in order, up to the first exception. */
  function Chain(outs: seq<Outcome>): Outcome
  {
    if outs == [] then Outcome([], None)
    else if outs[0].failure.Some? then outs[0]
    else Then(outs[0].written, Chain(outs[1..]))
  }

  /** One outcome of a chain, taken after the rasters `acc` are already written. */
  lemma ChainAdvance(outs: seq<Outcome>, i: nat, acc: seq<Raster>)
    requires i < |outs|
    ensures Then(acc, Chain(outs[i..])) ==
      if outs[i].failure.Some? then Outcome(acc + outs[i].written, outs[i].failure)
      else Then(acc + outs[i].written, Chain(outs[i + 1..]))
  {
    var here := outs[i..];
    assert here[0] == outs[i];
    assert here[1..] == outs[i + 1..];
    if outs[i].failure.None? {
      var w := outs[i].written;
      assert acc + (w + Chain(here[1..]).written) == acc + w + Chain(here[1..]).written;
    }
  }

  /** What each file's volume produces on its own. */
  function VolumeOutcomes(files: seq<VolumeFile>): seq<Outcome>
    requires forall i :: 0 <= i < |files| ==> files[i].volume.Valid()
  {
    seq(|files|, i requires 0 <= i < |files| => VolumeOutcome(Stem(files[i].path), files[i].volume))
  }

  /** The whole `genpng` run over the files in the order they are listed; an exception ends it. */
  function RunOutcome(files: seq<VolumeFile>): Outcome
    requires forall i :: 0 <= i < |files| ==> files[i].volume.Valid()
  {
    Chain(VolumeOutcomes(files))
  }

  /** The loop over the scan files of `genpng`. */
  method GenPng(files: seq<VolumeFile>) returns (written: seq<Raster>, failure: Option<Failure>)
    requires forall i :: 0 <= i < |files| ==> files[i].volume.Valid()
    ensures Outcome(written, failure) == RunOutcome(files)
  {
    written, failure := [], None;
    ghost var outs := VolumeOutcomes(files);
    assert outs[0..] == outs;
    var i := 0;
    while i < |files|
      invariant 0 <= i <= |files| == |outs|
      invariant Then(written, Chain(outs[i..])) == Chain(outs)
    {
      var more, err := GenVolume(Stem(files[i].path), files[i].volume);
      assert outs[i] == Outcome(more, err);
      ChainAdvance(outs, i, written);
      written := written + more;
      if err.Some? {
        failure := err;
        return;
      }
      i := i + 1;
    }
    assert outs[i..] == [];
    assert written + [] == written;
  }
}
