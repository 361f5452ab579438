/** The application's start-up: it runs `process_image` once and hands the
    centred grid with the raw stack to the selection handler, and the
    natural grid with the reordered display stack to the hover handler.
    The lemmas here show that the two handlers, wired this way, agree on
    which frequency a display cell stands for. */
module App {
  import opened ArrayOps
  import opened Processing
  import opened Callbacks

  /** What the application holds after start-up, for an n x n image whose
      contribution stack is `contributions`. */
  predicate Started(img: Image, contributions: Stack, out: Processed) {
    && |img| > 0 && IsShape(img, |img|, |img|)
    && IsStack(contributions, |img| * |img|, |img|, |img|)
    && out.images == contributions
    && out.natural == NaturalGrid(|img|, |img|)
    && out.shifted == ShiftedGrid(|img|, |img|)
    && IsPermutation(Flatten(out.shifted), |img| * |img|)
    && out.imgs == Reorder(Normalised(contributions, Mean(img)), Flatten(out.shifted))
  }

  /** How the two handlers are wired to what start-up produced: the hover
      handler gets the natural grid and the stack `x` reordered by the
      centred grid, the selection handler the centred grid and the raw stack
      of n * n channels. */
  predicate Wired(out: Processed, x: Stack, n: nat) {
    && n > 0
    && out.natural == NaturalGrid(n, n)
    && out.shifted == ShiftedGrid(n, n)
    && IsStack(out.images, n * n, n, n)
    && |x| == n * n
    && IsPermutation(Flatten(out.shifted), n * n)
    && out.imgs == Reorder(x, Flatten(out.shifted))
  }

  /** The module-level call of `process_image`; what it returns meets what
      both handlers expect of their arguments. */
  method Startup(img: Image, contributions: Stack) returns (out: Processed)
    requires |img| > 0 && IsShape(img, |img|, |img|)
    requires IsStack(contributions, |img| * |img|, |img|, |img|)
    ensures Started(img, contributions, out)
    ensures Wired(out, Normalised(contributions, Mean(img)), |img|)
    ensures SelectionContext(out.shifted, out.images)
    ensures IsRectangular(out.natural) && |out.imgs| == |img| * |img|
  {
    out := ProcessImage(img, contributions);
    CentredGridContext(|img|, contributions);
  }

  /** For the 86 x 86 image the application resizes to: 7396 frequency
      pairs, and the DC index shown at display cell (43, 43). The side is a
      parameter fixed by the precondition, so that the grid is reasoned about
      symbolically rather than unfolded cell by cell from the literal. */
  lemma ResizedLayout(n: nat)
    requires n == ResizedSide
    ensures |FrequencyPairs(n)| == 7396
    ensures ShiftedGrid(n, n)[43][43] == 0
  {
    FrequencyPairAt(n, 0);
    assert n / 2 == 43;
    DcAtCentre(n, n);
  }

  /** In hover mode a hover whose first point lies on cell (row i, column j)
      previews the channel the grid holds there. */
  lemma HoverAtCell(natural: Grid<int>, imgs: Stack, i: int, j: int, rest: seq<Point>)
    requires IsRectangular(natural) && 0 <= i < |natural| && 0 <= j < Cols(natural)
    requires 0 <= natural[i][j] < |imgs|
    ensures DisplayImageOnHover(Hovered([Point(j, i)] + rest), Hover, natural, imgs) == Preview(imgs[natural[i][j]])
  {
    assert ([Point(j, i)] + rest)[0] == Point(j, i);
  }

  /** With the display stack `imgs` reordered from `x` by the centred grid,
      hovering display cell (row i, column j) previews the channel of `x`
      the centred grid shows there. */
  lemma HoverShowsReordered(x: Stack, n: nat, natural: Grid<int>, shifted: Grid<int>, imgs: Stack, i: int, j: int, rest: seq<Point>)
    requires |x| == n * n && 0 <= i < n && 0 <= j < n
    requires natural == NaturalGrid(n, n) && shifted == ShiftedGrid(n, n)
    requires IsPermutation(Flatten(shifted), n * n) && imgs == Reorder(x, Flatten(shifted))
    ensures 0 <= shifted[i][j] < n * n
    ensures DisplayImageOnHover(Hovered([Point(j, i)] + rest), Hover, natural, imgs) == Preview(x[shifted[i][j]])
  {
    ReorderedThroughNatural(x, n, n, i, j);
    HoverAtCell(natural, imgs, i, j, rest);
  }

  /** Hovering display cell (row i, column j) previews the normalised
      contribution of the frequency the centred grid shows there. */
  lemma HoverShowsShiftedChannel(img: Image, contributions: Stack, out: Processed, i: int, j: int, rest: seq<Point>)
    requires Started(img, contributions, out)
    requires 0 <= i < |img| && 0 <= j < |img|
    ensures 0 <= out.shifted[i][j] < |contributions|
    ensures DisplayImageOnHover(Hovered([Point(j, i)] + rest), Hover, out.natural, out.imgs)
         == Preview(Normalised(contributions, Mean(img))[out.shifted[i][j]])
  {
    HoverShowsReordered(Normalised(contributions, Mean(img)), |img|, out.natural, out.shifted, out.imgs, i, j, rest);
  }

  /** The box around the single display cell (row i, column j) gathers the
      one channel the centred grid shows there, and sums to it. */
  lemma SingleCellSelection(shifted: Grid<int>, images: Stack, i: int, j: int)
    requires SelectionContext(shifted, images)
    requires 0 <= i < |shifted| && 0 <= j < |shifted|
    ensures IsRectangular(shifted) && 0 <= shifted[i][j] < |images|
    ensures SelectedIndices(shifted, BoxRange([j, j + 1], [i, i + 1])) == [shifted[i][j]]
    ensures SumChannels(images, [shifted[i][j]], |shifted|, |shifted|) == images[shifted[i][j]]
  {
    var n := |shifted|;
    var box := BoxRange([j, j + 1], [i, i + 1]);
    assert MinOf(box.y) == i && MaxOf(box.y) == i + 1;
    assert MinOf(box.x) == j && MaxOf(box.x) == j + 1;
    assert Cols(shifted) == n;
    SubGridCell(shifted, i, j);
    SumChannelsSingle(images, shifted[i][j], n, n);
  }

  /** Selecting just a display cell whose channel is a constant image gives
      NaN: the sum is that constant image, whose range is zero, and the
      selection handler rescales without a guard. */
  lemma ConstantCellIsNotANumber(shifted: Grid<int>, images: Stack, i: int, j: int, v: real)
    requires SelectionContext(shifted, images)
    requires 0 <= i < |shifted| && 0 <= j < |shifted|
    requires images[shifted[i][j]] == ConstImage(|shifted|, |shifted|, v)
    ensures DisplaySelectedData(Some(SelectedData(Some(BoxRange([j, j + 1], [i, i + 1])))), shifted, images)
         == NotANumber
  {
    var n := |shifted|;
    var box := BoxRange([j, j + 1], [i, i + 1]);
    BoxViewCases(shifted, images, box);
    assert SumChannels(images, SelectedIndices(shifted, box), n, n) == ConstImage(n, n, v) by {
      SingleCellSelection(shifted, images, i, j);
    }
    ConstImageIsFlat(n, n, v);
    assert DisplaySelectedData(Some(SelectedData(Some(box))), shifted, images) == BoxView(shifted, images, box);
  }

  /** The DC contribution of an image is constant (every pixel is the image
      sum), so selecting just the centre display cell, where the centred
      grid shows the DC index, gives NaN. */
  lemma DcCellIsNotANumber(shifted: Grid<int>, images: Stack, v: real)
    requires SelectionContext(shifted, images) && shifted == ShiftedGrid(|shifted|, |shifted|)
    requires images[0] == ConstImage(|shifted|, |shifted|, v)
    ensures var c := |shifted| / 2;
      DisplaySelectedData(Some(SelectedData(Some(BoxRange([c, c + 1], [c, c + 1])))), shifted, images)
      == NotANumber
  {
    var n, c := |shifted|, |shifted| / 2;
    assert images[shifted[c][c]] == ConstImage(n, n, v) by {
      DcAtCentre(n, n);
    }
    ConstantCellIsNotANumber(shifted, images, c, c, v);
  }

  /** The box over the whole display gathers every channel exactly once. */
  lemma WholeGridSelection(shifted: Grid<int>, images: Stack)
    requires SelectionContext(shifted, images) && shifted == ShiftedGrid(|shifted|, |shifted|)
    ensures IsRectangular(shifted)
    ensures var idx := SelectedIndices(shifted, BoxRange([0, |shifted|], [0, |shifted|]));
      && idx == Flatten(shifted)
      && IsPermutation(idx, |images|)
  {
    var n := |shifted|;
    var box := BoxRange([0, n], [0, n]);
    assert MinOf(box.y) == 0 && MaxOf(box.y) == n;
    assert MinOf(box.x) == 0 && MaxOf(box.x) == n;
    SubGridWhole(shifted);
    ShiftedFlatIsPermutation(n, n);
  }

  /** At every display cell the two handlers agree: hovering previews
      channel `q` of the display stack's source `x`, selecting just that
      cell sums the raw channel `q`, and `q` is the frequency pair
      `((i - n/2) mod n, (j - n/2) mod n)`. After start-up, `x` is the
      normalised stack (see `Startup`). */
  lemma HoverAndSelectionAgree(out: Processed, x: Stack, n: nat, i: int, j: int)
    requires Wired(out, x, n)
    requires 0 <= i < n && 0 <= j < n
    ensures SelectionContext(out.shifted, out.images) && IsRectangular(out.natural)
    ensures 0 <= out.shifted[i][j] < n * n && IsRectangular(out.shifted)
    ensures DisplayImageOnHover(Hovered([Point(j, i)]), Hover, out.natural, out.imgs) == Preview(x[out.shifted[i][j]])
    ensures SelectedIndices(out.shifted, BoxRange([j, j + 1], [i, i + 1])) == [out.shifted[i][j]]
    ensures SumChannels(out.images, [out.shifted[i][j]], n, n) == out.images[out.shifted[i][j]]
    ensures FrequencyPairs(n)[out.shifted[i][j]] == (Roll(i, n), Roll(j, n))
  {
    assert [Point(j, i)] + [] == [Point(j, i)];
    HoverShowsReordered(x, n, out.natural, out.shifted, out.imgs, i, j, []);
    CentredGridContext(n, out.images);
    SingleCellSelection(out.shifted, out.images, i, j);
    DisplayedFrequency(n, i, j);
  }
}
