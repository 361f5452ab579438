/** The bookkeeping of `process_image`: the enumeration of frequency pairs,
    the per-channel min-max normalisation of the contribution stack and the
    overwrite of its DC channel, the natural and the zero-frequency-centred
    index grids, and the reordering of the normalised stack by the centred
    grid. The contribution images themselves (the DFT loop) are an input. */
module Processing {
  import opened ArrayOps

  /** A real-valued 2-D image, one entry per pixel. */
  type Image = Grid<real>

  /** A stack of images, channel first: `stack[ch][r][c]` is numpy's
      `stack[r, c, ch]`. */
  type Stack = seq<Image>

  /** The side of the square the source image is resized to. */
  const ResizedSide: nat := 86

  /** The guard added to every channel's range before dividing. */
  const Eps: real := 0.00001

  /** The top of the display range channels are scaled to. */
  const ByteMax: real := 255.0

  predicate IsStack(stack: Stack, channels: int, rows: int, cols: int) {
    |stack| == channels && forall ch :: 0 <= ch < |stack| ==> IsShape(stack[ch], rows, cols)
  }

  /** Every row of the image has at least one pixel, and there is a row. */
  predicate NonEmptyImage(img: Image) {
    |img| > 0 && forall r :: 0 <= r < |img| ==> |img[r]| > 0
  }

  // ---------------------------------------------------------------------
  // The enumeration of frequency pairs

  /** `itertools.product(xs, ys)`: all pairs, first components outermost. */
  function Product(xs: seq<int>, ys: seq<int>): (r: seq<(int, int)>)
    ensures |r| == |xs| * |ys|
  {
    if |xs| == 0 then []
    else
      var rest := Product(xs[1..], ys);
      assert |xs| * |ys| == (|xs| - 1) * |ys| + |ys|;
      seq(|ys|, l requires 0 <= l < |ys| => (xs[0], ys[l])) + rest
  }

  /** Position `p` of a product holds the pair `(p / |ys|, p % |ys|)` of
      positions. */
  lemma {:induction false} ProductAt(xs: seq<int>, ys: seq<int>, p: int)
    requires 0 <= p < |xs| * |ys|
    ensures |ys| > 0 && 0 <= p / |ys| < |xs| && 0 <= p % |ys| < |ys|
    ensures Product(xs, ys)[p] == (xs[p / |ys|], ys[p % |ys|])
  {
    var m := |ys|;
    FlatPositionCell(p, |xs|, m);
    var rest := Product(xs[1..], ys);
    var block := seq(m, l requires 0 <= l < m => (xs[0], ys[l]));
    assert Product(xs, ys) == block + rest;
    if p < m {
      DivModUnique(p, m, 0, p);
      assert (block + rest)[p] == block[p];
    } else {
      assert p - m < |xs[1..]| * m by {
        assert |xs| * m == (|xs| - 1) * m + m;
      }
      ProductAt(xs[1..], ys, p - m);
      DivModStep(p, m);
      assert (block + rest)[p] == rest[p - m];
    }
  }

  /** The frequency pairs `product(arange(n), repeat=2)` of an n x n image. */
  function FrequencyPairs(n: nat): (r: seq<(int, int)>)
    ensures |r| == n * n
  {
    Product(Range(n), Range(n))
  }

  /** Pair number `p` is `(p / n, p % n)`: there are n * n pairs and the
      first is the DC pair (0, 0). */
  lemma FrequencyPairAt(n: nat, p: int)
    requires 0 <= p < n * n
    ensures |FrequencyPairs(n)| == n * n
    ensures FrequencyPairs(n)[p] == (p / n, p % n)
    ensures p == 0 ==> FrequencyPairs(n)[p] == (0, 0)
  {
    ProductAt(Range(n), Range(n), p);
  }

  predicate LexLess(a: (int, int), b: (int, int)) {
    a.0 < b.0 || (a.0 == b.0 && a.1 < b.1)
  }

  /** The pairs are enumerated in strictly increasing lexicographic order. */
  lemma FrequencyPairsOrdered(n: nat, p: int, q: int)
    requires 0 <= p < q < n * n
    ensures LexLess(FrequencyPairs(n)[p], FrequencyPairs(n)[q])
  {
    FrequencyPairAt(n, p);
    FrequencyPairAt(n, q);
    FlatPositionCell(q, n, n);
    DivModOrder(p, q, n);
  }

  // ---------------------------------------------------------------------
  // The two index grids

  /** The natural grid `arange(rows * cols).reshape(rows, cols)`. */
  function NaturalGrid(rows: nat, cols: nat): (g: Grid<int>)
    ensures IsShape(g, rows, cols)
  {
    Reshape(Range(rows * cols), rows, cols)
  }

  /** Cell (k, l) of the natural grid holds its row-major position. */
  lemma NaturalGridAt(rows: nat, cols: nat, k: int, l: int)
    requires 0 <= k < rows && 0 <= l < cols
    ensures NaturalGrid(rows, cols)[k][l] == k * cols + l
  {
    FlatPositionBounds(k, l, rows, cols);
  }

  /** Read row by row, the natural grid lists `0 .. rows * cols - 1` in
      order, so each flat index appears exactly once. */
  lemma NaturalGridEnumerates(rows: nat, cols: nat)
    ensures Flatten(NaturalGrid(rows, cols)) == Range(rows * cols)
  {
    FlattenReshape(Range(rows * cols), rows, cols);
  }

  /** The zero-frequency-centred grid `fftshift(idx_mat)`. */
  function ShiftedGrid(rows: nat, cols: nat): (g: Grid<int>)
    ensures IsShape(g, rows, cols)
  {
    FftShift(NaturalGrid(rows, cols))
  }

  /** Display cell (i, j) of the centred grid holds the natural index of
      frequency `((i - rows/2) mod rows, (j - cols/2) mod cols)`. */
  lemma ShiftedGridAt(rows: nat, cols: nat, i: int, j: int)
    requires 0 <= i < rows && 0 <= j < cols
    ensures ShiftedGrid(rows, cols)[i][j] == NaturalGrid(rows, cols)[Roll(i, rows)][Roll(j, cols)]
    ensures ShiftedGrid(rows, cols)[i][j] == Roll(i, rows) * cols + Roll(j, cols)
    ensures 0 <= ShiftedGrid(rows, cols)[i][j] < rows * cols
  {
    assert Cols(NaturalGrid(rows, cols)) == cols;
    NaturalGridAt(rows, cols, Roll(i, rows), Roll(j, cols));
    FlatPositionBounds(Roll(i, rows), Roll(j, cols), rows, cols);
  }

  /** The display cell where flat index `p` is shown. */
  function DisplayCell(p: int, rows: nat, cols: nat): (cell: (int, int))
    requires 0 <= p < rows * cols
    ensures 0 <= cell.0 < rows && 0 <= cell.1 < cols
  {
    FlatPositionCell(p, rows, cols);
    (Unroll(p / cols, rows), Unroll(p % cols, cols))
  }

  /** Every flat index is shown somewhere: at its display cell. */
  lemma ShiftedGridCovers(rows: nat, cols: nat, p: int)
    requires 0 <= p < rows * cols
    ensures ShiftedGrid(rows, cols)[DisplayCell(p, rows, cols).0][DisplayCell(p, rows, cols).1] == p
  {
    FlatPositionCell(p, rows, cols);
    var (i, j) := DisplayCell(p, rows, cols);
    ShiftedGridAt(rows, cols, i, j);
    RollUnroll(p / cols, rows);
    RollUnroll(p % cols, cols);
  }

  /** No flat index is shown twice: distinct display cells hold distinct
      indices. */
  lemma ShiftedGridInjective(rows: nat, cols: nat, i: int, j: int, i': int, j': int)
    requires 0 <= i < rows && 0 <= j < cols && 0 <= i' < rows && 0 <= j' < cols
    requires ShiftedGrid(rows, cols)[i][j] == ShiftedGrid(rows, cols)[i'][j']
    ensures i == i' && j == j'
  {
    ShiftedGridAt(rows, cols, i, j);
    ShiftedGridAt(rows, cols, i', j');
    var v := ShiftedGrid(rows, cols)[i][j];
    DivModUnique(v, cols, Roll(i, rows), Roll(j, cols));
    DivModUnique(v, cols, Roll(i', rows), Roll(j', cols));
    RollInjective(i, i', rows);
    RollInjective(j, j', cols);
  }

  /** The centred grid holds flat indices only, each in one cell at most. */
  lemma ShiftedGridIndexes(rows: nat, cols: nat)
    ensures EntriesBelow(ShiftedGrid(rows, cols), rows * cols)
    ensures CellsDistinct(ShiftedGrid(rows, cols))
  {
    var g := ShiftedGrid(rows, cols);
    forall r, c | 0 <= r < |g| && 0 <= c < |g[r]|
      ensures 0 <= g[r][c] < rows * cols
    {
      ShiftedGridAt(rows, cols, r, c);
    }
    forall r, c, r', c' |
      0 <= r < |g| && 0 <= c < |g[r]| && 0 <= r' < |g| && 0 <= c' < |g[r']| && (r != r' || c != c')
      ensures g[r][c] != g[r'][c']
    {
      if g[r][c] == g[r'][c'] {
        ShiftedGridInjective(rows, cols, r, c, r', c');
      }
    }
  }

  /** `s` lists each of `0 .. n - 1` exactly once. */
  predicate IsPermutation(s: seq<int>, n: int) {
    && |s| == n
    && (forall k :: 0 <= k < |s| ==> 0 <= s[k] < n)
    && (forall k, m :: 0 <= k < m < |s| ==> s[k] != s[m])
    && (forall v :: 0 <= v < n ==> v in s)
  }

  /** `idx_mat_shifted.flatten()` is a permutation of the flat indices. */
  lemma ShiftedFlatIsPermutation(rows: nat, cols: nat)
    ensures IsPermutation(Flatten(ShiftedGrid(rows, cols)), rows * cols)
  {
    var g := ShiftedGrid(rows, cols);
    FlattenLength(g, rows, cols);
    ShiftedGridIndexes(rows, cols);
    FlattenDistinct(g, rows * cols);
    forall v | 0 <= v < rows * cols
      ensures v in Flatten(g)
    {
      var (i, j) := DisplayCell(v, rows, cols);
      ShiftedGridCovers(rows, cols, v);
      FlattenContains(g, i, j);
    }
  }

  /** Display cell (i, j) shows the frequency pair
      `((i - n/2) mod n, (j - n/2) mod n)` of the enumeration. */
  lemma DisplayedFrequency(n: nat, i: int, j: int)
    requires 0 <= i < n && 0 <= j < n
    ensures 0 <= ShiftedGrid(n, n)[i][j] < |FrequencyPairs(n)|
    ensures FrequencyPairs(n)[ShiftedGrid(n, n)[i][j]] == (Roll(i, n), Roll(j, n))
  {
    ShiftedGridAt(n, n, i, j);
    var p := ShiftedGrid(n, n)[i][j];
    FrequencyPairAt(n, p);
    DivModUnique(p, n, Roll(i, n), Roll(j, n));
  }

  /** The DC index 0 is shown at the centre cell `(rows/2, cols/2)`. */
  lemma DcAtCentre(rows: nat, cols: nat)
    requires rows > 0 && cols > 0
    ensures ShiftedGrid(rows, cols)[rows / 2][cols / 2] == 0
  {
    ShiftedGridAt(rows, cols, rows / 2, cols / 2);
    DivModUnique(0, rows, 0, 0);
    DivModUnique(0, cols, 0, 0);
  }

  /** For even dimensions, shifting the centred grid once more gives back the
      natural grid. */
  lemma ShiftedGridTwiceEven(rows: nat, cols: nat)
    requires rows % 2 == 0 && cols % 2 == 0
    ensures FftShift(ShiftedGrid(rows, cols)) == NaturalGrid(rows, cols)
  {
    ShiftTwiceEven(NaturalGrid(rows, cols));
  }

  // ---------------------------------------------------------------------
  // The normalisation of the contribution stack

  /** One pixel of the min-max rescaling with the ε guard,
      `(v - min) / (max - min + ε)`. */
  function StandardisedPixel(v: real, lo: real, hi: real): real
    requires lo <= hi
  {
    (v - lo) / (hi - lo + Eps)
  }

  /** One channel of the min-max rescaling with the ε guard. */
  function Standardise(img: Image): (s: Image)
    requires NonEmptyImage(img)
    ensures |s| == |img| && forall r :: 0 <= r < |s| ==> |s[r]| == |img[r]|
  {
    var lo, hi := GridMin(img), GridMax(img);
    seq(|img|, r requires 0 <= r < |img| =>
      seq(|img[r]|, c requires 0 <= c < |img[r]| => StandardisedPixel(img[r][c], lo, hi)))
  }

  /** Every channel rescaled with the ε guard: the array `X_std` of line 37
      before the multiplication by 255. */
  function StandardiseAll(stack: Stack): (s: Stack)
    requires forall ch :: 0 <= ch < |stack| ==> NonEmptyImage(stack[ch])
    ensures |s| == |stack|
  {
    seq(|stack|, ch requires 0 <= ch < |stack| => Standardise(stack[ch]))
  }

  /** Every pixel multiplied by `factor`. */
  function ScaleImage(img: Image, factor: real): (s: Image)
    ensures |s| == |img| && forall r :: 0 <= r < |s| ==> |s[r]| == |img[r]|
  {
    seq(|img|, r requires 0 <= r < |img| =>
      seq(|img[r]|, c requires 0 <= c < |img[r]| => img[r][c] * factor))
  }

  /** A rows x cols image with every pixel `v`. */
  function ConstImage(rows: nat, cols: nat, v: real): (s: Image)
    ensures IsShape(s, rows, cols)
  {
    seq(rows, r => seq(cols, c => v))
  }

  /** A constant image has its value as both minimum and maximum. */
  lemma ConstImageIsFlat(rows: nat, cols: nat, v: real)
    requires rows > 0 && cols > 0
    ensures NonEmptyImage(ConstImage(rows, cols, v))
    ensures GridMin(ConstImage(rows, cols, v)) == v == GridMax(ConstImage(rows, cols, v))
  {
    var img := ConstImage(rows, cols, v);
    assert img[0][0] == v;
  }

  /** `img.mean()`. */
  function Mean(img: Image): real
    requires |img| > 0 && Cols(img) > 0 && IsRectangular(img)
  {
    Sum(Flatten(img)) / ((|img| * Cols(img)) as real)
  }

  /** The mean of an image lies between its minimum and its maximum. */
  lemma MeanWithinRange(img: Image)
    requires |img| > 0 && Cols(img) > 0 && IsRectangular(img)
    ensures NonEmptyImage(img)
    ensures GridMin(img) <= Mean(img) <= GridMax(img)
  {
    assert NonEmptyImage(img);
    var lo, hi := GridMin(img), GridMax(img);
    FlattenBounded(img, lo, hi);
    assert |Flatten(img)| == |img| * Cols(img) > 0 by {
      FlattenLength(img, |img|, Cols(img));
      MulMonotone(1, |img|, Cols(img));
    }
    AverageBetween(Flatten(img), lo, hi);
  }

  /** The stack after the rescaling, the multiplication by 255 and the
      overwrite of channel 0 with the image mean. */
  function Normalised(stack: Stack, mean: real): (x: Stack)
    requires forall ch :: 0 <= ch < |stack| ==> NonEmptyImage(stack[ch])
    ensures |x| == |stack|
  {
    seq(|stack|, ch requires 0 <= ch < |stack| =>
      if ch == 0 then ConstImage(|stack[0]|, Cols(stack[0]), mean)
      else ScaleImage(Standardise(stack[ch]), ByteMax))
  }

  /** A value inside `[lo, hi]`, rescaled with the ε guard, lies in `[0, 1)`
      and is 0 exactly at `lo`. */
  lemma StandardisedValue(v: real, lo: real, hi: real)
    requires lo <= v <= hi
    ensures 0.0 <= StandardisedPixel(v, lo, hi) < 1.0
    ensures StandardisedPixel(v, lo, hi) == 0.0 <==> v == lo
  {
    var d := hi - lo + Eps;
    var q := (v - lo) / d;
    assert q * d == v - lo;
  }

  /** Every channel but the DC one lies in `[0, 255)` after normalisation,
      and a pixel is 0 exactly where that channel takes its minimum. */
  lemma NormalisedChannelBounds(stack: Stack, mean: real, ch: int, r: int, c: int)
    requires forall k :: 0 <= k < |stack| ==> NonEmptyImage(stack[k])
    requires 0 < ch < |stack| && 0 <= r < |stack[ch]| && 0 <= c < |stack[ch][r]|
    ensures 0.0 <= Normalised(stack, mean)[ch][r][c] < ByteMax
    ensures Normalised(stack, mean)[ch][r][c] == 0.0 <==> stack[ch][r][c] == GridMin(stack[ch])
  {
    var img := stack[ch];
    var lo, hi, v := GridMin(img), GridMax(img), img[r][c];
    assert lo <= v <= hi;
    var s := StandardisedPixel(v, lo, hi);
    assert Normalised(stack, mean)[ch][r][c] == s * ByteMax;
    StandardisedValue(v, lo, hi);
  }

  /** Channel 0 is the constant image mean. */
  lemma NormalisedDc(stack: Stack, mean: real, r: int, c: int)
    requires forall k :: 0 <= k < |stack| ==> NonEmptyImage(stack[k])
    requires |stack| > 0 && 0 <= r < |stack[0]| && 0 <= c < Cols(stack[0])
    ensures Normalised(stack, mean)[0][r][c] == mean
  {
  }

  // ---------------------------------------------------------------------
  // The reordering by the centred grid

  /** numpy's fancy index `stack[:, :, order]`. */
  function Reorder(stack: Stack, order: seq<int>): (x: Stack)
    requires forall p :: 0 <= p < |order| ==> 0 <= order[p] < |stack|
    ensures |x| == |order|
  {
    seq(|order|, p requires 0 <= p < |order| => stack[order[p]])
  }

  /** Reordering by the flattened centred grid keeps the channel count and
      takes each channel of the input exactly once. */
  lemma ReorderIsPermutation(stack: Stack, rows: nat, cols: nat)
    requires |stack| == rows * cols
    ensures var order := Flatten(ShiftedGrid(rows, cols));
      && IsPermutation(order, |stack|)
      && |Reorder(stack, order)| == |stack|
      && forall p :: 0 <= p < |stack| ==> Reorder(stack, order)[p] == stack[order[p]]
  {
    ShiftedFlatIsPermutation(rows, cols);
  }

  /** Looking the flattened centred grid up through the natural grid at a
      display cell gives back that cell of the centred grid. */
  lemma FlatShiftedThroughNatural(rows: nat, cols: nat, i: int, j: int)
    requires 0 <= i < rows && 0 <= j < cols
    ensures |Flatten(ShiftedGrid(rows, cols))| == rows * cols
    ensures 0 <= NaturalGrid(rows, cols)[i][j] < |Flatten(ShiftedGrid(rows, cols))|
    ensures Flatten(ShiftedGrid(rows, cols))[NaturalGrid(rows, cols)[i][j]] == ShiftedGrid(rows, cols)[i][j]
  {
    var g := ShiftedGrid(rows, cols);
    FlattenLength(g, rows, cols);
    NaturalGridAt(rows, cols, i, j);
    FlatPositionBounds(i, j, rows, cols);
    FlattenAt(g, rows, cols, i, j);
  }

  /** Looking the reordered stack up through the natural grid at a display
      cell gives the channel the centred grid names for that cell. */
  lemma ReorderedThroughNatural(stack: Stack, rows: nat, cols: nat, i: int, j: int)
    requires |stack| == rows * cols && 0 <= i < rows && 0 <= j < cols
    ensures IsPermutation(Flatten(ShiftedGrid(rows, cols)), |stack|)
    ensures 0 <= NaturalGrid(rows, cols)[i][j] < |stack|
    ensures 0 <= ShiftedGrid(rows, cols)[i][j] < |stack|
    ensures Reorder(stack, Flatten(ShiftedGrid(rows, cols)))[NaturalGrid(rows, cols)[i][j]]
         == stack[ShiftedGrid(rows, cols)[i][j]]
  {
    ShiftedFlatIsPermutation(rows, cols);
    FlatShiftedThroughNatural(rows, cols, i, j);
    ShiftedGridAt(rows, cols, i, j);
  }

  // ---------------------------------------------------------------------
  // The in-place steps

  /** `X_std *= 255`: every channel of the buffer scaled in place. */
  method ScaleChannels(a: array<Image>, factor: real)
    modifies a
    ensures forall ch :: 0 <= ch < a.Length ==> a[ch] == ScaleImage(old(a[ch]), factor)
  {
    for ch := 0 to a.Length
      invariant forall k :: 0 <= k < ch ==> a[k] == ScaleImage(old(a[k]), factor)
      invariant forall k :: ch <= k < a.Length ==> a[k] == old(a[k])
    {
      a[ch] := ScaleImage(a[ch], factor);
    }
  }

  /** `X_std[:, :, ch] = v`: every pixel of one channel, in the shape it
      already has, overwritten with a constant; the others left alone. */
  method FillChannel(a: array<Image>, ch: nat, v: real)
    requires ch < a.Length
    modifies a
    ensures a[ch] == ConstImage(|old(a[ch])|, Cols(old(a[ch])), v)
    ensures forall k :: 0 <= k < a.Length && k != ch ==> a[k] == old(a[k])
  {
    a[ch] := ConstImage(|a[ch]|, Cols(a[ch]), v);
  }

  /** The three steps of the normalisation, taken one after the other,
      give the normalised stack. */
  lemma NormalisedBySteps(stack: Stack, rows: nat, cols: nat, mean: real, standardised: Stack, scaled: Stack, filled: Stack)
    requires IsStack(stack, |stack|, rows, cols) && |stack| > 0 && rows > 0 && cols > 0
    requires standardised == StandardiseAll(stack)
    requires |scaled| == |filled| == |stack|
    requires forall ch :: 0 <= ch < |stack| ==> scaled[ch] == ScaleImage(standardised[ch], ByteMax)
    requires filled[0] == ConstImage(|scaled[0]|, Cols(scaled[0]), mean)
    requires forall ch :: 0 < ch < |stack| ==> filled[ch] == scaled[ch]
    ensures filled == Normalised(stack, mean)
  {
    var want := Normalised(stack, mean);
    forall ch | 0 <= ch < |stack|
      ensures filled[ch] == want[ch]
    {
    }
  }

  /** Lines 37-40 of `process_image`: the ε-guarded rescaling of every
      channel into a fresh buffer, the in-place multiplication by 255 and
      the overwrite of channel 0 with the image mean. */
  method NormaliseStack(stack: Stack, rows: nat, cols: nat, mean: real) returns (x: Stack)
    requires rows > 0 && cols > 0 && IsStack(stack, |stack|, rows, cols) && |stack| > 0
    ensures x == Normalised(stack, mean)
  {
    var standardised := StandardiseAll(stack);
    var buf := new Image[|standardised|](ch requires 0 <= ch < |standardised| => standardised[ch]);
    ghost var before := buf[..];
    assert before == standardised;
    ScaleChannels(buf, ByteMax);
    ghost var scaled := buf[..];
    FillChannel(buf, 0, mean);
    NormalisedBySteps(stack, rows, cols, mean, before, scaled, buf[..]);
    x := buf[..];
  }

  /** What `process_image` returns to the application, less the magnitude
      map: the raw stack, the normalised stack reordered for display, and
      the two index grids. */
  datatype Processed = Processed(images: Stack, imgs: Stack, natural: Grid<int>, shifted: Grid<int>)

  /** `process_image` after the DFT loop, for an n x n image whose
      contribution stack (one channel per frequency pair) is given. */
  method ProcessImage(img: Image, contributions: Stack) returns (out: Processed)
    requires |img| > 0 && IsShape(img, |img|, |img|)
    requires IsStack(contributions, |img| * |img|, |img|, |img|)
    ensures |FrequencyPairs(|img|)| == |out.images| == |out.imgs|
    ensures out.images == contributions
    ensures out.natural == NaturalGrid(|img|, |img|)
    ensures out.shifted == ShiftedGrid(|img|, |img|)
    ensures IsPermutation(Flatten(out.shifted), |img| * |img|)
    ensures out.imgs == Reorder(Normalised(contributions, Mean(img)), Flatten(out.shifted))
  {
    var n := |img|;
    var xStd := NormaliseStack(contributions, n, n, Mean(img));
    var natural := NaturalGrid(n, n);
    var shifted := ShiftedGrid(n, n);
    var order := Flatten(shifted);
    ShiftedFlatIsPermutation(n, n);
    out := Processed(contributions, Reorder(xStd, order), natural, shifted);
  }
}
