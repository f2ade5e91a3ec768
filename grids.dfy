/** An optional value, `None` where the source yields NaN or raises. */
module Wrappers {
  datatype Option<+T> = None | Some(value: T)
}

/**
  * Multi-channel images as numpy sees them: a height x width x channels array,
  * written as rows of pixels of channel values, and the element-wise and
  * reduction operations the core applies to such arrays.
  */
module Grids {

  type Grid<T> = seq<seq<seq<T>>>

  function Height<T>(g: Grid<T>): nat { |g| }

  function Width<T>(g: Grid<T>): nat { if |g| == 0 then 0 else |g[0]| }

  function Channels<T>(g: Grid<T>): nat { if |g| == 0 || |g[0]| == 0 then 0 else |g[0][0]| }

  /** Number of entries of a rectangular grid (numpy's `size`). */
  function Size<T>(g: Grid<T>): nat { Height(g) * Width(g) * Channels(g) }

  /** `g` is an `h` x `w` x `c` array. */
  predicate Shaped<T>(g: Grid<T>, h: nat, w: nat, c: nat) {
    && |g| == h
    && (forall i :: 0 <= i < h ==> |g[i]| == w)
    && (forall i, j :: 0 <= i < h && 0 <= j < w ==> |g[i][j]| == c)
  }

  /** Every row has the same width and every pixel the same channel count. */
  predicate IsGrid<T>(g: Grid<T>) {
    Shaped(g, Height(g), Width(g), Channels(g))
  }

  /** Same dimensions and channel count, position by position. */
  predicate SameShape<T, U>(a: Grid<T>, b: Grid<U>) {
    && |a| == |b|
    && (forall i :: 0 <= i < |a| ==> |a[i]| == |b[i]|)
    && (forall i, j :: 0 <= i < |a| && 0 <= j < |a[i]| ==> |a[i][j]| == |b[i][j]|)
  }

  predicate IsByte(v: int) { 0 <= v <= 255 }

  /** The array of an 8-bit image with at least one channel per pixel. */
  predicate IsImage(img: Grid<int>) {
    && IsGrid(img)
    && (forall i, j :: 0 <= i < |img| && 0 <= j < |img[i]| ==> |img[i][j]| > 0)
    && (forall i, j, k :: 0 <= i < |img| && 0 <= j < |img[i]| && 0 <= k < |img[i][j]| ==> IsByte(img[i][j][k]))
  }

  /** Element-wise application of `f` (a numpy ufunc on one array). */
  function Map<T, U>(g: Grid<T>, f: T -> U): (r: Grid<U>)
    ensures SameShape(g, r)
    ensures forall i, j, k :: 0 <= i < |g| && 0 <= j < |g[i]| && 0 <= k < |g[i][j]| ==> r[i][j][k] == f(g[i][j][k])
  {
    seq(|g|, i requires 0 <= i < |g| =>
      seq(|g[i]|, j requires 0 <= j < |g[i]| =>
        seq(|g[i][j]|, k requires 0 <= k < |g[i][j]| => f(g[i][j][k]))))
  }

  /** Element-wise combination of two same-shaped arrays (a numpy ufunc on two arrays). */
  function Zip<T, U, V>(a: Grid<T>, b: Grid<U>, f: (T, U) -> V): (r: Grid<V>)
    requires SameShape(a, b)
    ensures SameShape(a, r)
    ensures forall i, j, k :: 0 <= i < |a| && 0 <= j < |a[i]| && 0 <= k < |a[i][j]| ==> r[i][j][k] == f(a[i][j][k], b[i][j][k])
  {
    seq(|a|, i requires 0 <= i < |a| =>
      seq(|a[i]|, j requires 0 <= j < |a[i]| =>
        seq(|a[i][j]|, k requires 0 <= k < |a[i][j]| => f(a[i][j][k], b[i][j][k]))))
  }

  /** Two same-shaped grids with equal entries are equal. */
  lemma Extensionality<T>(a: Grid<T>, b: Grid<T>)
    requires SameShape(a, b)
    requires forall i, j, k :: 0 <= i < |a| && 0 <= j < |a[i]| && 0 <= k < |a[i][j]| ==> a[i][j][k] == b[i][j][k]
    ensures a == b
  {
    forall i | 0 <= i < |a| ensures a[i] == b[i] {
      forall j | 0 <= j < |a[i]| ensures a[i][j] == b[i][j] {
      }
    }
  }

  lemma SameShapeKeepsRectangular<T, U>(a: Grid<T>, b: Grid<U>)
    requires IsGrid(a) && SameShape(a, b)
    ensures IsGrid(b)
    ensures Height(b) == Height(a) && Width(b) == Width(a) && Channels(b) == Channels(a)
  {
  }

  // Sums over real sequences, and the three facts the reductions of the core need.

  function Sum(s: seq<real>): real {
    if s == [] then 0.0 else s[0] + Sum(s[1..])
  }

  lemma {:induction false} SumNonNegative(s: seq<real>)
    requires forall n :: 0 <= n < |s| ==> s[n] >= 0.0
    ensures Sum(s) >= 0.0
  {
    if s != [] {
      SumNonNegative(s[1..]);
    }
  }

  /** A sum of non-negative terms vanishes exactly when every term does. */
  lemma {:induction false} SumZeroIff(s: seq<real>)
    requires forall n :: 0 <= n < |s| ==> s[n] >= 0.0
    ensures Sum(s) == 0.0 <==> forall n :: 0 <= n < |s| ==> s[n] == 0.0
  {
    if s != [] {
      SumNonNegative(s[1..]);
      SumZeroIff(s[1..]);
      assert forall n :: 0 <= n < |s| - 1 ==> s[1..][n] == s[n + 1];
    }
  }

  /** A sum of terms each at most `m` is at most `|s| * m`. */
  lemma {:induction false} SumAtMost(s: seq<real>, m: real)
    requires forall n :: 0 <= n < |s| ==> s[n] <= m
    ensures Sum(s) <= |s| as real * m
  {
    if s != [] {
      SumAtMost(s[1..], m);
    }
  }

  /** The channel sums of the pixels of one row. */
  function PixelSums(row: seq<seq<real>>): (r: seq<real>)
    ensures |r| == |row| && forall j :: 0 <= j < |row| ==> r[j] == Sum(row[j])
  {
    seq(|row|, j requires 0 <= j < |row| => Sum(row[j]))
  }

  /** Sum of all entries of one row. */
  function RowTotal(row: seq<seq<real>>): real { Sum(PixelSums(row)) }

  /** The row totals of a grid. */
  function RowTotals(g: Grid<real>): (r: seq<real>)
    ensures |r| == |g| && forall i :: 0 <= i < |g| ==> r[i] == RowTotal(g[i])
  {
    seq(|g|, i requires 0 <= i < |g| => RowTotal(g[i]))
  }

  /** Sum of all entries: numpy's `sum` over every axis. */
  function Total(g: Grid<real>): real { Sum(RowTotals(g)) }

  predicate AllNonNegative(g: Grid<real>) {
    forall i, j, k :: 0 <= i < |g| && 0 <= j < |g[i]| && 0 <= k < |g[i][j]| ==> g[i][j][k] >= 0.0
  }

  predicate AllZero(g: Grid<real>) {
    forall i, j, k :: 0 <= i < |g| && 0 <= j < |g[i]| && 0 <= k < |g[i][j]| ==> g[i][j][k] == 0.0
  }

  /** A row of non-negative entries has a non-negative total, zero exactly when every entry is zero. */
  lemma RowTotalZeroIff(row: seq<seq<real>>)
    requires forall j, k :: 0 <= j < |row| && 0 <= k < |row[j]| ==> row[j][k] >= 0.0
    ensures RowTotal(row) >= 0.0
    ensures RowTotal(row) == 0.0 <==> forall j, k :: 0 <= j < |row| && 0 <= k < |row[j]| ==> row[j][k] == 0.0
  {
    var px := PixelSums(row);
    forall j | 0 <= j < |row|
      ensures px[j] >= 0.0
      ensures px[j] == 0.0 <==> forall k :: 0 <= k < |row[j]| ==> row[j][k] == 0.0
    {
      SumNonNegative(row[j]);
      SumZeroIff(row[j]);
    }
    SumNonNegative(px);
    SumZeroIff(px);
  }

  /** The total of non-negative entries is non-negative, and zero exactly when every entry is zero. */
  lemma TotalZeroIff(g: Grid<real>)
    requires AllNonNegative(g)
    ensures Total(g) >= 0.0
    ensures Total(g) == 0.0 <==> AllZero(g)
  {
    var rows := RowTotals(g);
    forall i | 0 <= i < |g|
      ensures rows[i] >= 0.0
      ensures rows[i] == 0.0 <==> forall j, k :: 0 <= j < |g[i]| && 0 <= k < |g[i][j]| ==> g[i][j][k] == 0.0
    {
      RowTotalZeroIff(g[i]);
    }
    SumNonNegative(rows);
    SumZeroIff(rows);
  }

  /** A row of `w` pixels of `c` entries, each at most `m`, totals at most `w * (c * m)`. */
  lemma RowTotalAtMost(row: seq<seq<real>>, w: nat, c: nat, m: real)
    requires |row| == w && forall j :: 0 <= j < w ==> |row[j]| == c
    requires forall j, k :: 0 <= j < w && 0 <= k < c ==> row[j][k] <= m
    ensures RowTotal(row) <= w as real * (c as real * m)
  {
    var px := PixelSums(row);
    forall j | 0 <= j < w ensures px[j] <= c as real * m {
      SumAtMost(row[j], m);
    }
    SumAtMost(px, c as real * m);
  }

  /** Every entry of an `h` x `w` x `c` grid at most `m` bounds the total by `h * w * c * m`. */
  lemma TotalAtMost(g: Grid<real>, h: nat, w: nat, c: nat, m: real)
    requires Shaped(g, h, w, c)
    requires forall i, j, k :: 0 <= i < h && 0 <= j < w && 0 <= k < c ==> g[i][j][k] <= m
    ensures Total(g) <= (h * w * c) as real * m
  {
    var rows := RowTotals(g);
    var bound := w as real * (c as real * m);
    forall i | 0 <= i < h ensures rows[i] <= bound {
      RowTotalAtMost(g[i], w, c, m);
    }
    SumAtMost(rows, bound);
    ProductAsReal(h, w, c, m);
  }

  lemma ProductAsReal(h: nat, w: nat, c: nat, m: real)
    ensures h as real * (w as real * (c as real * m)) == (h * w * c) as real * m
  {
    assert (h * w) as real == h as real * w as real;
    assert (h * w * c) as real == (h * w) as real * c as real;
  }
}
