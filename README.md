# noise2noise: MRI slice pipeline and PSNR log parser, in Dafny

This project models two self-contained pieces of the noise2noise scripts and
proves properties of them.

**`dataset_tool_mri.py`** covers two pieces:

- `fftshift2d`: the quadrant-rotating shift of an odd-by-odd 2-D array.
  It is a pure function, with a round-trip lemma and a centring lemma.
- The `genpng` converter. For every scan volume it divides all samples by
  the volume's global maximum. Then, for each depth index
  `s = 25, ..., 124`, it:
  - takes the 2-D slice at depth `s`;
  - writes the slice into a zeroed 256x256 canvas at the centring border
    `(256 - dim) // 2`;
  - clamps the canvas to `[0, 1]` and scales it by 255;
  - saves it as `<stem>_<s:03d>.png`, but only when its maximum exceeds 1.

  The canvas work is imperative, on an `array2<real>`:
  - `Composite`, `ClampAndScale` and `CanvasMax` are methods with loop
    invariants;
  - `GenSlice` is the body of the depth loop, `GenWindow` is the depth
    loop, `GenVolume` is one volume, and `GenPng` is the loop over files.

  Each method is proved against a functional specification:
  - `SliceStep` for one depth;
  - `Collect` for one volume's steps;
  - `VolumeOutcome` for one volume;
  - `RunOutcome` for the whole run.

  The lemmas about those specifications state three things:
  - which exception a volume raises;
  - which depths are written, in increasing order and each at most once;
  - what every written raster holds.

**`psnrstats.py`** covers `parse_psnr_file`:

- The anchored pattern `\s*(\d+):\s+(\d+\.\d+)\s+(\d+\.\d+)\s+(\d+\.\d+)`
  is modelled as a greedy recogniser, `MatchLine`. It is built from maximal
  runs of a character class (`Munch`).
- The lemmas state:
  - soundness: every match spells the line;
  - completeness: every well-formed line is matched with exactly its groups,
    whatever text follows;
  - rejection of signed, pointless and exponent forms.
- Each decimal token is kept as its two digit strings. Its value is taken as
  an exact real.
- The line loop `ParsePsnrFile` accumulates `indices` and the three value
  columns into a `map<string, seq<real>>`. It is proved to produce the
  columns of `Rows(lines)`, which are the rows of the matching lines in
  file order.

Behaviour of the code worth knowing:

- `genpng` has no guard for a volume whose maximum is zero. Every quotient
  is then NaN or -inf, so every slice fails the brightness test and nothing
  is written.
- An exception ends the whole run. Nothing in the script catches it.
- When `256 - dim` is odd, the extra margin row or column goes to the bottom
  or right.
- The stem of a file name is its text before the first dot, so two scan
  files that differ only after their first dot share a stem (`StemOfPath`).
- The line pattern ignores text after the third number, including an
  exponent on it.

## Model

| member | source | states |
|---|---|---|
| FftShift.FftShift2d | dataset_tool_mri.py:28-34 | the shift succeeds exactly on a rectangular array with two odd sides; it keeps the shape, and cell `(i, j)` of the result is `x[(i+s0) mod n0][(j+s1) mod n1]` with `s = n//2 + 1` forward and `n//2` inverse |
| FftShift.ShiftRoundTrip | dataset_tool_mri.py:30-33 | the inverse shift after the forward one, and the forward after the inverse, return the input |
| FftShift.ShiftCentres | dataset_tool_mri.py:30-33 | the forward shift moves `x[0][0]` to the centre cell `[n0//2][n1//2]`, and the inverse shift moves the centre back to `[0][0]` |
| SlicePipeline.VolumeMax | dataset_tool_mri.py:68 | `np.max` of a non-empty volume bounds every sample and is attained by some sample |
| SlicePipeline.Quotient | dataset_tool_mri.py:68 | one divided sample times the maximum gives the sample back; a sample at most a positive maximum becomes at most 1, and the maximum itself becomes 1 |
| SlicePipeline.Normalise | dataset_tool_mri.py:67-68 | normalising gives a volume of the same shape exactly when the maximum is non-zero, and each of its samples is the sample divided by the maximum |
| SlicePipeline.NormalisedUnitMax | dataset_tool_mri.py:68 | with a positive maximum, every normalised sample is at most 1 and the normalised volume's maximum is exactly 1 |
| SlicePipeline.NormalisedNegativeMax | dataset_tool_mri.py:68 | with a negative maximum (an all-negative volume), every normalised sample is at least 1 |
| SlicePipeline.NormaliseIdempotent | dataset_tool_mri.py:68 | a volume whose maximum is already 1 is unchanged by normalising |
| SlicePipeline.SliceAt | dataset_tool_mri.py:72 | `img[:, :, s]` is an `nx` by `ny` grid whose cell `(i, j)` is sample `(i, j, s)` |
| SlicePipeline.Border | dataset_tool_mri.py:64 | the defining function of `(256 - dim) // 2` with floor division; BorderCentres states its properties |
| SlicePipeline.BorderCentres | dataset_tool_mri.py:64 | for a side of at most 256, the border is non-negative, the slice fits inside the canvas, and the margin after it equals the margin before it or exceeds it by one |
| SlicePipeline.CanvasCell | dataset_tool_mri.py:77-78 | the defining function of one cell of the canvas after the slice assignment; CanvasCentred and Composite are about it |
| SlicePipeline.CanvasCentred | dataset_tool_mri.py:77-78 | every slice cell `(i, j)` appears at canvas cell `(b0+i, b1+j)`, and every canvas cell outside that window is 0 |
| SlicePipeline.Composite | dataset_tool_mri.py:77-78 | the method fills a fresh 256x256 array; the assignment fits exactly when both slice sides are at most 256, and then every array cell equals the centred canvas cell |
| SlicePipeline.ClampScaled | dataset_tool_mri.py:79-81 | a clamped and scaled value lies in `[0, 255]`; inputs at least 1 give 255, inputs at most 0 give 0, and inputs in between give `255 v` |
| SlicePipeline.ClampScaledMonotone | dataset_tool_mri.py:79-81 | clamping and scaling preserve the order of values |
| SlicePipeline.ClampAndScale | dataset_tool_mri.py:79-81 | the method replaces every array cell, in place, by its clamped and scaled value |
| SlicePipeline.RasterOf | dataset_tool_mri.py:77-81 | the defining function of the clamped, scaled canvas of one slice; RasterCells states its properties |
| SlicePipeline.RasterCells | dataset_tool_mri.py:77-81 | a raster is a 256x256 grid of values in `[0, 255]`: 0 outside the slice window, and the clamped, scaled slice value inside it |
| SlicePipeline.Bright | dataset_tool_mri.py:83 | the defining predicate of `np.max(output) > 1.0`, as some cell above 1; WrittenIff is about it |
| SlicePipeline.CanvasMax | dataset_tool_mri.py:83 | `np.max(output)` bounds every array cell and is attained by one |
| SlicePipeline.Snapshot | dataset_tool_mri.py:85 | the grid handed to the image writer holds exactly the array's cells |
| SlicePipeline.SliceStep | dataset_tool_mri.py:72-85 | the defining function of one depth's iteration (raise, skip or write); GenSlice is proved equal to it and the Steps lemmas are about it |
| SlicePipeline.GenSlice | dataset_tool_mri.py:72-85 | one depth's iteration, which raises, skips or writes, is the one `SliceStep` specifies |
| SlicePipeline.AfterLastSlash | dataset_tool_mri.py:62 | `basename` starts just after the last `/`: no `/` follows that position, and a `/` precedes it unless it is 0 |
| SlicePipeline.FirstDot | dataset_tool_mri.py:62 | `split(".")[0]` ends at the first `.`: no `.` comes before it, and a `.` sits there unless it is the end |
| SlicePipeline.Basename | dataset_tool_mri.py:62 | the defining function of `os.path.basename`, the text after AfterLastSlash |
| SlicePipeline.FirstField | dataset_tool_mri.py:62 | the defining function of `split(".")[0]`, the text before FirstDot |
| SlicePipeline.Stem | dataset_tool_mri.py:62 | the defining function of the volume name; StemPlain and StemOfPath state its properties |
| SlicePipeline.StemPlain | dataset_tool_mri.py:62 | the volume stem contains neither `/` nor `.` |
| SlicePipeline.StemOfPath | dataset_tool_mri.py:62 | the stem of `dir/stem.ext` is `stem` whatever the extension holds, so names differing only after their first dot share a stem |
| Digits.Format03 | dataset_tool_mri.py:84 | `%03d` gives digits only: exactly three below 1000, and the plain spelling from 1000 up |
| Digits.Format03Value | dataset_tool_mri.py:84 | the zero-padded spelling reads back as the depth index |
| Digits.ShowValue | dataset_tool_mri.py:84 | the decimal spelling of `n` reads back as `n` and has no leading zero unless `n == 0` |
| SlicePipeline.OutName | dataset_tool_mri.py:84 | the defining function of `"%s_%03d.png" % (name, s)`; its properties are stated by OutNameInjective and Digits.Format03Value |
| SlicePipeline.OutNameInjective | dataset_tool_mri.py:84 | for depths below 1000, two equal output names come from the same stem and the same depth, so distinct (stem, depth) pairs get distinct names; within one volume no save overwrites another |
| SlicePipeline.Collect | dataset_tool_mri.py:71-85 | the defining function of running the iterations in order up to the first exception; the Collect lemmas state its properties |
| SlicePipeline.Steps | dataset_tool_mri.py:71 | the defining function of the 100 iterations of `range(25, 125)`; StepAt states its shape |
| SlicePipeline.CollectFromOwnStep | dataset_tool_mri.py:71-85 | every raster the loop writes comes from the iteration of its own depth, inside the window |
| SlicePipeline.CollectIncreasing | dataset_tool_mri.py:71 | the depths of the written rasters strictly increase, so each depth is written at most once |
| SlicePipeline.CollectNoRaise | dataset_tool_mri.py:71-85 | a sequence of iterations ends without an exception exactly when none of them raises |
| SlicePipeline.CollectFirstRaise | dataset_tool_mri.py:71-85 | an exception raised by an iteration is the run's exception when no earlier iteration raises |
| SlicePipeline.CollectIncludes | dataset_tool_mri.py:71-85 | on a run without an exception, every iteration that writes contributes its raster |
| SlicePipeline.CollectWrittenIff | dataset_tool_mri.py:71-85 | on a run without an exception, depth `base + i` is written exactly when iteration `i` writes |
| SlicePipeline.CollectNoWrites | dataset_tool_mri.py:71-85 | iterations that never write produce no raster |
| SlicePipeline.StepAt | dataset_tool_mri.py:71 | the window holds exactly 100 iterations, and the one at offset `s - 25` is depth `s`'s |
| SlicePipeline.VolumeOutcome | dataset_tool_mri.py:67-85 | the defining function of what one volume writes and raises; WrittenDepths, VolumeFailure, WrittenIff and ZeroMaxWritesNothing are about it |
| SlicePipeline.WrittenDepths | dataset_tool_mri.py:71-85 | for one volume, every written raster has a depth in `[25, 125)` and inside the volume; it carries the volume's stem and the clamped canvas of that depth's normalised slice, passes the brightness test, and the depths strictly increase |
| SlicePipeline.VolumeFailure | dataset_tool_mri.py:67-78 | a volume raises as follows: an empty volume fails at `np.max`; a depth of at most 25 fails at `img[:, :, 25]`; a side over 256 fails at the canvas assignment; a depth under 125 fails at the first missing slice; otherwise there is no exception |
| SlicePipeline.WrittenIff | dataset_tool_mri.py:71-85 | on a volume that raises nothing, depth `d` of the window is written exactly when the maximum is non-zero and the raster of the normalised slice at `d` has a cell above 1 |
| SlicePipeline.ZeroMaxWritesNothing | dataset_tool_mri.py:68-83 | a volume whose maximum is 0 produces no raster |
| SlicePipeline.WindowStep | dataset_tool_mri.py:71-85 | one pass of the depth loop advances the run exactly as the specification's next iteration does |
| SlicePipeline.GenWindow | dataset_tool_mri.py:71-85 | the depth loop writes the rasters and raises the exception that `Collect` of the window's iterations specifies |
| SlicePipeline.GenVolume | dataset_tool_mri.py:67-85 | one volume's normalisation and depth loop produce exactly `VolumeOutcome` |
| SlicePipeline.ChainAdvance | dataset_tool_mri.py:59-85 | one volume of the file loop appends its rasters and stops the run when it raises |
| SlicePipeline.RunOutcome | dataset_tool_mri.py:59-85 | the defining function of the whole run over the files, up to the first exception; GenPng is proved equal to it |
| SlicePipeline.GenPng | dataset_tool_mri.py:59-85 | the file loop writes the rasters of the volumes in the order of the files, up to the first exception, which ends the run |
| PsnrParser.Munch | psnrstats.py:25 | a greedy `\s*` or `\d*` splits the text into a run of the class and a remainder that does not start with it |
| PsnrParser.MunchUnique | psnrstats.py:25 | that split is unique: any run followed by a non-class character is exactly what the greedy match takes |
| PsnrParser.MatchDecimal | psnrstats.py:25 | a matched `\d+\.\d+` has two non-empty digit groups that spell the front of the text, and no digit follows it |
| PsnrParser.MatchDecimalComplete | psnrstats.py:25 | every `digits.digits` token followed by a non-digit is matched with exactly its two groups |
| PsnrParser.Decimal.Number | psnrstats.py:29-31 | the defining function of the exact value that `float(val)` reads; NumberBounds states its range |
| PsnrParser.NumberBounds | psnrstats.py:29-31 | the value of `float(val)` lies in `[int(whole), int(whole) + 1)` |
| PsnrParser.MatchHead | psnrstats.py:25 | a matched `\s*(\d+):` is blanks, then a non-empty digit group, then a colon, and spells the front of the line |
| PsnrParser.MatchField | psnrstats.py:25 | a matched `\s+(\d+\.\d+)` is a non-empty blank gap and a well-formed number, spells the front of the text, and no digit follows it |
| PsnrParser.MatchLine | psnrstats.py:25 | a match has well-formed groups and gaps, spells the line exactly as lead, index, `:`, and three gap-number pairs, and is followed by a non-digit |
| PsnrParser.MatchLineComplete | psnrstats.py:25 | every line of that form, followed by a non-digit, is matched with exactly its groups, gaps and remainder |
| PsnrParser.MatchLineAnyRest | psnrstats.py:25 | a line of that form matches whatever follows it: the third fraction takes any leading digits of the rest, and the remaining text is ignored |
| PsnrParser.SignedNumberRejected | psnrstats.py:25 | a sign before the first number makes the line fail |
| PsnrParser.PointlessNumberRejected | psnrstats.py:25 | a first number without a decimal point makes the line fail |
| PsnrParser.ExponentOnFirstRejected | psnrstats.py:25 | an exponent on the first number makes the line fail |
| PsnrParser.Map | psnrstats.py:23-25 | matching every line gives one result per line, in line order |
| PsnrParser.MapAppend | psnrstats.py:23-25 | matching the lines of a concatenation gives the results of the two parts, one after the other |
| PsnrParser.KeptCount | psnrstats.py:26-31 | one row is kept per successful match, and the kept rows are well-formed |
| PsnrParser.Rows | psnrstats.py:23-31 | at most one row per line, each row well-formed |
| PsnrParser.RowsAppend | psnrstats.py:23-31 | the rows of two consecutive blocks of lines are the rows of the first block, then those of the second |
| PsnrParser.RowsOfOne | psnrstats.py:26-31 | a matching line contributes exactly its own row; a non-matching line contributes nothing |
| PsnrParser.RowsCount | psnrstats.py:27-31 | there is exactly one row per matching line |
| PsnrParser.RowsPosition | psnrstats.py:23-31 | the row of matching line `p` comes right after the rows of the lines before it, so file order is kept |
| PsnrParser.IndexColumn | psnrstats.py:28 | entry `k` of `indices` is the decimal value of row `k`'s index group |
| PsnrParser.ValueColumn | psnrstats.py:29-31 | entry `k` of a value column is the exact value of row `k`'s number in that column |
| PsnrParser.ColumnsAppend | psnrstats.py:28-31 | one more row appends exactly one entry to `indices` and to each of the three columns |
| PsnrParser.AppendRow | psnrstats.py:27-31 | the four appends of one matching line keep the dictionary equal to the columns of the rows so far |
| PsnrParser.ParseLine | psnrstats.py:25-31 | one pass of the line loop appends when the line matches and leaves everything unchanged otherwise |
| PsnrParser.ParsePsnrFile | psnrstats.py:14-37 | the result has exactly the keys `noisy`, `denoised_clamped` and `denoised_psnr`; they hold the noisy, clamped and psnr columns of the matching lines in file order, and `indices` holds their index values |
| PsnrParser.ColumnsAligned | psnrstats.py:27-31 | `indices` and each of the three lists have as many entries as there are matching lines, and every entry is non-negative |
| Digits.Value | psnrstats.py:28 | the defining function of the value that `int(idx)` reads from a digit string; ValueIgnoresLeadingZeros, ValueBelowPow10 and ShowValue state its properties |
| Digits.ValueIgnoresLeadingZeros | psnrstats.py:28 | `int(idx)` ignores leading zeros |
| PsnrParser.PlotKeysAsWrittenMissing | psnrstats.py:84 | the keys `denoised_1` and `denoised_2` that the plots read are absent from every dictionary the parser returns |
| PsnrParser.PlotKeysPresent | psnrstats.py:14-18 | the corrected plot keys are three distinct keys, each present in the parser's dictionary |

## Left out

- `undersample_kspace` (dataset_tool_mri.py:36-43) and the `--undersample` branch of lines 74-75: complex FFTs and `np.random.rand` are foreign numerics and randomness. The model is the run without `--undersample`.
- Loading volumes with nibabel, `glob`, `os.makedirs`, argparse and `sys.exit` (dataset_tool_mri.py:45-61, 87-105) are I/O and are left out. The volumes arrive as a parameter of `GenPng`, in the order `glob` lists them.
- Writing PNGs with PIL, including `convert('L')`, and the output directory of `os.path.join` (dataset_tool_mri.py:84-85) are I/O. A written image is a `Raster`; its file name is `OutName`.
- The progress `print` calls are output only and are left out.
- SlicePipeline.Normalise: exact real division stands in for `float32` and Python float arithmetic. Rounding is not modelled, so neither are NaN and infinity. A zero maximum is the abstract `Degenerate` result, which only decides that no slice is written.
- SlicePipeline.ClampScaled: exact reals; no float rounding.
- SlicePipeline.VolumeMax: volumes of rank other than 3 are not modelled.
- SlicePipeline.Composite: only the two outcomes of the assignment are modelled, fitting or raising. Its broadcasting rules are not modelled. A slice side over 256 always fails to broadcast.
- SlicePipeline.Stem: paths are POSIX paths. Only `/` separates components.
- SlicePipeline.GenPng: `written` is the sequence of saves in order, not the final contents of the output directory. Two volumes with the same stem (see StemOfPath) save under the same names, and the later save replaces the earlier file; the model does not compute which files survive.
- FftShift.FftShift2d: the input is a sequence of rows, so rank-1 and rank-3 arrays cannot be written down. A ragged sequence of rows stands for them and is rejected, as the rank check of line 29 rejects those arrays.
- `calculate_statistics`, `print_statistics`, `plot_histograms`, `plot_comparison` and `main` (psnrstats.py:39-147) are floating-point statistics, console output and plotting. They are left out, except for the keys the plots read (see Findings).
- Opening and iterating the file (psnrstats.py:22-23) is I/O. The input is the sequence of its lines.
- The conversion of each list into a numpy array (psnrstats.py:34-35) is not modelled. The columns stay sequences with the same entries.
- PsnrParser.IsSpace: it is the `str.isspace` set, which is what `\s` accepts in a `str` pattern.
- PsnrParser.MatchLine: `\d` accepts ASCII digits only, while Python also accepts other Unicode decimal digits.
- PsnrParser.ValueColumn: `float(val)` is the exact decimal value. Float rounding is not modelled.

## Findings

| source | as written | input that shows it | evidently intended | confidence | as-written member | corrected member |
|---|---|---|---|---|---|---|
| psnrstats.py:84 | `plot_histograms` reads `values['denoised_1']` and `values['denoised_2']`, and `plot_comparison` does the same at lines 104-105; `parse_psnr_file` returns only the keys `noisy`, `denoised_clamped` and `denoised_psnr` (lines 14-18) | any file with at least one matching line (with none, `np.min` in `calculate_statistics` fails first at line 50): the dictionary never has the key `denoised_1`, so the lookup raises `KeyError`; `main` catches it at lines 140-142, prints the error and returns 1, and neither plot is saved | the plots read the clamped and psnr columns, `denoised_clamped` and `denoised_psnr` | high for the missing keys; not executed | PsnrParser.PlotKeysAsWrittenMissing | PsnrParser.PlotKeysPresent |
