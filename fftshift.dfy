/**
 * `fftshift2d` of dataset_tool_mri.py: a rotation of the rows and then of
 * the columns of an odd-sized two-dimensional array.  The forward shift
 * splits each axis at `n / 2 + 1`, the inverse shift at `n / 2`.
 */
module FftShift {
  import opened Wrappers

  /** The assertion at the head of `fftshift2d` failed. */
  datatype ShapeError = ShapeError

  /** Number of columns; a grid without rows has none. */
  function Cols<T>(x: seq<seq<T>>): nat
  {
    if |x| == 0 then 0 else |x[0]|
  }

  /**
   * Every row has the same length: the sequence is a two-dimensional
   * array.  A ragged sequence of rows stands for an input whose shape is
   * not two-dimensional.
   */
  predicate Rectangular<T>(x: seq<seq<T>>)
  {
    forall i :: 0 <= i < |x| ==> |x[i]| == Cols(x)
  }

  /** What the assertion of `fftshift2d` demands: two-dimensional, both extents odd. */
  predicate OddShape<T>(x: seq<seq<T>>)
  {
    Rectangular(x) && |x| % 2 == 1 && Cols(x) % 2 == 1
  }

  /** Split point of one axis of extent `n`. */
  function Offset(n: nat, ifft: bool): nat
  {
    n / 2 + (if ifft then 0 else 1)
  }

  /** Index `i` advanced by `k` on a cyclic axis of extent `n`. */
  function Wrap(i: nat, k: nat, n: nat): (w: nat)
    requires i < n && k <= n
    ensures w < n
  {
    if i + k < n then i + k else i + k - n
  }

  /** `concatenate([s[k:], s[:k]])`: the element at `i` comes from `i + k`, wrapping. */
  function Rotate<T>(s: seq<T>, k: nat): (r: seq<T>)
    requires k <= |s|
    ensures |r| == |s|
    ensures forall i :: 0 <= i < |s| ==> r[i] == s[Wrap(i, k, |s|)]
  {
    s[k..] + s[..k]
  }

  /**
   * The model of `fftshift2d(x, ifft)`: rejects every input that is not an
   * odd-by-odd array, and otherwise returns an array of the same shape whose
   * cell `(i, j)` is `x[(i + s0) % n0][(j + s1) % n1]`.
   */
  function FftShift2d<T>(x: seq<seq<T>>, ifft: bool): (r: Result<seq<seq<T>>, ShapeError>)
    ensures r.Ok? <==> OddShape(x)
    ensures r.Ok? ==> Rectangular(r.value) && |r.value| == |x| && Cols(r.value) == Cols(x)
    ensures r.Ok? ==>
      forall i, j :: 0 <= i < |x| && 0 <= j < Cols(x) ==>
        r.value[i][j] == x[Wrap(i, Offset(|x|, ifft), |x|)][Wrap(j, Offset(Cols(x), ifft), Cols(x))]
  {
    if !OddShape(x) then Err(ShapeError)
    else
      var s0 := Offset(|x|, ifft);
      var s1 := Offset(Cols(x), ifft);
      var byRows := Rotate(x, s0);
      assert forall i :: 0 <= i < |byRows| ==> |byRows[i]| == Cols(x);
      var y := seq(|byRows|, i requires 0 <= i < |byRows| => Rotate(byRows[i], s1));
      Ok(y)
  }

  /** On an odd axis the forward and inverse split points add up to its extent. */
  lemma OffsetsComplement(n: nat, ifft: bool)
    requires n % 2 == 1
    ensures Offset(n, ifft) + Offset(n, !ifft) == n
  {
  }

  /** Advancing by `b` and then by `n - b` comes back to the start. */
  lemma WrapInverse(i: nat, a: nat, b: nat, n: nat)
    requires i < n && a + b == n
    ensures Wrap(Wrap(i, b, n), a, n) == i
  {
  }

  /** Inverse after forward, and forward after inverse, give back the input. */
  lemma ShiftRoundTrip<T>(x: seq<seq<T>>, ifft: bool)
    requires OddShape(x)
    ensures FftShift2d(x, ifft).Ok?
    ensures FftShift2d(FftShift2d(x, ifft).value, !ifft) == Ok(x)
  {
    var n0, n1 := |x|, Cols(x);
    var y := FftShift2d(x, ifft).value;
    assert OddShape(y);
    var z := FftShift2d(y, !ifft).value;
    var a0, b0 := Offset(n0, ifft), Offset(n0, !ifft);
    var a1, b1 := Offset(n1, ifft), Offset(n1, !ifft);
    OffsetsComplement(n0, ifft);
    OffsetsComplement(n1, ifft);
    forall i | 0 <= i < n0 ensures z[i] == x[i] {
      forall j | 0 <= j < n1 ensures z[i][j] == x[i][j] {
        var i', j' := Wrap(i, b0, n0), Wrap(j, b1, n1);
        assert z[i][j] == y[i'][j'];
        WrapInverse(i, a0, b0, n0);
        WrapInverse(j, a1, b1, n1);
      }
    }
    assert z == x;
  }

  /**
   * The forward shift moves the corner cell to the centre cell, and the
   * inverse shift moves the centre cell back to the corner.
   */
  lemma ShiftCentres<T>(x: seq<seq<T>>)
    requires OddShape(x)
    ensures FftShift2d(x, false).Ok? && FftShift2d(x, false).value[|x| / 2][Cols(x) / 2] == x[0][0]
    ensures FftShift2d(x, true).Ok? && FftShift2d(x, true).value[0][0] == x[|x| / 2][Cols(x) / 2]
  {
    var n0, n1 := |x|, Cols(x);
    var y := FftShift2d(x, false).value;
    var c0, c1 := n0 / 2, n1 / 2;
    assert Wrap(c0, Offset(n0, false), n0) == 0 && Wrap(c1, Offset(n1, false), n1) == 0;
    assert y[c0][c1] == x[0][0];
  }
}
