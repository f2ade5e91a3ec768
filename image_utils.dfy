/**
  * The pixel-difference metrics of image_utils.py: `compute_mse` and the
  * difference grid that `compute_difference_heatmap` draws. Both read the two
  * images as arrays of raw 0..255 values; neither scales them into [0, 1].
  */
module ImageUtils {
  import opened Wrappers
  import opened Grids

  /** `(arr1 - arr2) ** 2`, entry by entry. */
  function SquaredDiffs(a: Grid<int>, b: Grid<int>): (r: Grid<real>)
    requires SameShape(a, b)
    ensures SameShape(a, r) && AllNonNegative(r)
    ensures forall i, j, k :: 0 <= i < |a| && 0 <= j < |a[i]| && 0 <= k < |a[i][j]| ==>
      (r[i][j][k] == 0.0 <==> a[i][j][k] == b[i][j][k])
  {
    Zip(a, b, (x: int, y: int) => ((x - y) * (x - y)) as real)
  }

  /**
    * `compute_mse(img1, img2)`: the mean over every pixel and channel of the
    * squared difference. `None` is numpy's NaN, the mean of an empty array.
    */
  function Mse(a: Grid<int>, b: Grid<int>): (r: Option<real>)
    requires IsImage(a) && IsImage(b) && SameShape(a, b)
    ensures r.None? <==> Size(a) == 0
    ensures r.Some? ==> r.value >= 0.0
  {
    TotalZeroIff(SquaredDiffs(a, b));
    if Size(a) == 0 then None else Some(Total(SquaredDiffs(a, b)) / Size(a) as real)
  }

  /** An image compared with itself has error 0. */
  lemma MseSelf(a: Grid<int>)
    requires IsImage(a)
    ensures Mse(a, a) == if Size(a) == 0 then None else Some(0.0)
  {
    TotalZeroIff(SquaredDiffs(a, a));
  }

  /** The error does not depend on the order of the two images. */
  lemma MseSymmetric(a: Grid<int>, b: Grid<int>)
    requires IsImage(a) && IsImage(b) && SameShape(a, b)
    ensures SameShape(b, a) && Mse(a, b) == Mse(b, a)
  {
    SameShapeKeepsRectangular(a, b);
    var ab, ba := SquaredDiffs(a, b), SquaredDiffs(b, a);
    forall i, j, k | 0 <= i < |ab| && 0 <= j < |ab[i]| && 0 <= k < |ab[i][j]| ensures ab[i][j][k] == ba[i][j][k] {
      var x, y := a[i][j][k], b[i][j][k];
      assert (x - y) * (x - y) == (y - x) * (y - x);
    }
    Extensionality(ab, ba);
  }

  /** A non-empty pair of images has error 0 exactly when the images are identical. */
  lemma MseZeroIff(a: Grid<int>, b: Grid<int>)
    requires IsImage(a) && IsImage(b) && SameShape(a, b) && Size(a) > 0
    ensures Mse(a, b) == Some(0.0) <==> a == b
  {
    var d := SquaredDiffs(a, b);
    TotalZeroIff(d);
    if a == b {
      assert AllZero(d);
    }
    if Mse(a, b) == Some(0.0) {
      assert Total(d) == 0.0;
      Extensionality(a, b);
    }
  }

  /** No scaling is applied, so for 8-bit images the error is at most 255 squared, not 1. */
  lemma MseAtMost(a: Grid<int>, b: Grid<int>)
    requires IsImage(a) && IsImage(b) && SameShape(a, b) && Size(a) > 0
    ensures Mse(a, b).value <= 65025.0
  {
    var d := SquaredDiffs(a, b);
    var h, w, c := Height(a), Width(a), Channels(a);
    SameShapeKeepsRectangular(a, d);
    forall i, j, k | 0 <= i < h && 0 <= j < w && 0 <= k < c ensures d[i][j][k] <= 65025.0 {
      SquareAtMost(a[i][j][k], b[i][j][k]);
    }
    TotalAtMost(d, h, w, c, 65025.0);
    var n := Size(a) as real;
    assert Total(d) <= n * 65025.0;
    assert Total(d) / n <= 65025.0;
  }

  /** The bound is reached: a white and a black one-pixel image have error 65025, far outside [0, 1]. */
  lemma MseReachesMax()
    ensures Mse([[[255]]], [[[0]]]) == Some(65025.0)
  {
    var d := SquaredDiffs([[[255]]], [[[0]]]);
    assert d[0][0][0] == 65025.0;
    Extensionality(d, [[[65025.0]]]);
    assert PixelSums(d[0]) == [65025.0];
    assert RowTotals(d) == [65025.0];
    assert Total(d) == 65025.0;
  }

  lemma SquareAtMost(x: int, y: int)
    requires IsByte(x) && IsByte(y)
    ensures ((x - y) * (x - y)) as real <= 65025.0
  {
    var d := AbsDiff(x, y);
    assert (x - y) * (x - y) == d * d;
    MultiplyAtMost(d, 255, d);
    MultiplyAtMost(d, 255, 255);
  }

  lemma MultiplyAtMost(a: nat, b: nat, c: nat)
    requires a <= b
    ensures a * c <= b * c
  {
  }

  /** `|x - y|` over the integers. */
  function AbsDiff(x: int, y: int): (r: nat)
    ensures r == x - y || r == y - x
  {
    if x >= y then x - y else y - x
  }

  /** `np.abs(p - q)` for the channel values of one pixel. */
  function AbsDiffs(p: seq<int>, q: seq<int>): (r: seq<real>)
    requires |p| == |q|
    ensures |r| == |p| && forall k :: 0 <= k < |p| ==> r[k] == AbsDiff(p[k], q[k]) as real
  {
    seq(|p|, k requires 0 <= k < |p| => AbsDiff(p[k], q[k]) as real)
  }

  /** `.mean(axis=2)` of the absolute differences for one pixel. */
  function ChannelMean(p: seq<int>, q: seq<int>): real
    requires |p| == |q| && |p| > 0
  {
    Sum(AbsDiffs(p, q)) / |p| as real
  }

  /**
    * The grid `compute_difference_heatmap` draws (image_utils.py line 79):
    * one value per pixel, the mean over the channels of the absolute difference.
    */
  function DifferenceGrid(a: Grid<int>, b: Grid<int>): (r: seq<seq<real>>)
    requires IsImage(a) && IsImage(b) && SameShape(a, b)
    ensures |r| == Height(a) && forall i :: 0 <= i < |r| ==> |r[i]| == Width(a)
    ensures forall i, j :: 0 <= i < |a| && 0 <= j < |a[i]| ==> r[i][j] == ChannelMean(a[i][j], b[i][j])
  {
    seq(|a|, i requires 0 <= i < |a| =>
      seq(|a[i]|, j requires 0 <= j < |a[i]| => ChannelMean(a[i][j], b[i][j])))
  }

  /** For 8-bit pixels the channel mean lies in [0, 255] and is 0 exactly when the pixels are equal. */
  lemma ChannelMeanRange(p: seq<int>, q: seq<int>)
    requires |p| == |q| && |p| > 0
    requires forall k :: 0 <= k < |p| ==> IsByte(p[k]) && IsByte(q[k])
    ensures 0.0 <= ChannelMean(p, q) <= 255.0
    ensures ChannelMean(p, q) == 0.0 <==> p == q
  {
    var d := AbsDiffs(p, q);
    var n := |p| as real;
    SumNonNegative(d);
    SumZeroIff(d);
    SumAtMost(d, 255.0);
    assert Sum(d) / n <= 255.0;
    if p == q {
      assert forall k :: 0 <= k < |d| ==> d[k] == 0.0;
    }
    if ChannelMean(p, q) == 0.0 {
      assert Sum(d) == 0.0;
      assert forall k :: 0 <= k < |p| ==> p[k] == q[k] by {
        forall k | 0 <= k < |p| ensures p[k] == q[k] {
          assert d[k] == 0.0;
        }
      }
    }
  }

  /**
    * Every entry of the difference grid lies in [0, 255], and it is 0
    * exactly where the two images have the same pixel.
    */
  lemma DifferenceGridRange(a: Grid<int>, b: Grid<int>)
    requires IsImage(a) && IsImage(b) && SameShape(a, b)
    ensures forall i, j :: 0 <= i < |a| && 0 <= j < |a[i]| ==>
      0.0 <= DifferenceGrid(a, b)[i][j] <= 255.0 &&
      (DifferenceGrid(a, b)[i][j] == 0.0 <==> a[i][j] == b[i][j])
  {
    forall i, j | 0 <= i < |a| && 0 <= j < |a[i]|
      ensures 0.0 <= DifferenceGrid(a, b)[i][j] <= 255.0
      ensures DifferenceGrid(a, b)[i][j] == 0.0 <==> a[i][j] == b[i][j]
    {
      ChannelMeanRange(a[i][j], b[i][j]);
    }
  }

  /** An image compared with itself gives an all-zero grid. */
  lemma DifferenceGridSelf(a: Grid<int>)
    requires IsImage(a)
    ensures forall i, j :: 0 <= i < |a| && 0 <= j < |a[i]| ==> DifferenceGrid(a, a)[i][j] == 0.0
  {
    DifferenceGridRange(a, a);
  }

  /** The grid does not depend on the order of the two images. */
  lemma DifferenceGridSymmetric(a: Grid<int>, b: Grid<int>)
    requires IsImage(a) && IsImage(b) && SameShape(a, b)
    ensures SameShape(b, a) && DifferenceGrid(a, b) == DifferenceGrid(b, a)
  {
    var ab, ba := DifferenceGrid(a, b), DifferenceGrid(b, a);
    forall i, j | 0 <= i < |a| && 0 <= j < |a[i]| ensures ab[i][j] == ba[i][j] {
      assert AbsDiffs(a[i][j], b[i][j]) == AbsDiffs(b[i][j], a[i][j]);
    }
    assert forall i :: 0 <= i < |a| ==> ab[i] == ba[i];
  }
}
