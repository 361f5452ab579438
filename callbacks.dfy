/** The handlers the page calls: the rectangle selection, which sums the
    contribution images behind the selected display cells and rescales the
    sum; the rule that tells hovering from selecting; and the hover preview
    of a single contribution. Every handler is a pure function of the event
    data and of what `process_image` produced. */
module Callbacks {
  import opened ArrayOps
  import opened Processing

  /** The Python exceptions a handler can raise. */
  datatype PyError = KeyError | ValueError | IndexError

  // ---------------------------------------------------------------------
  // The rectangle selection

  /** The `range` of a box selection: its x (column) and y (row) corner
      coordinates, already truncated to integers. */
  datatype BoxRange = BoxRange(x: seq<int>, y: seq<int>)

  /** The heatmap's `selectedData`: a box selection carries a range, a lasso
      selection does not. */
  datatype SelectedData = SelectedData(range: Option<BoxRange>)

  /** What the selection handler hands back to the page. */
  datatype SelectionView =
    | Placeholder                    // the path of the placeholder image
    | Reconstructed(pixels: Image)   // the rescaled sum, before the uint8 cast and encoding
    | NotANumber                     // the sum has zero range: every pixel is 0 / 0
    | SelectionFailed(error: PyError)

  /** Python's `min` of a non-empty list. */
  function MinOf(s: seq<int>): (m: int)
    requires |s| > 0
    ensures m in s && forall k :: 0 <= k < |s| ==> m <= s[k]
  {
    if |s| == 1 then s[0]
    else
      var rest := MinOf(s[1..]);
      assert forall k :: 1 <= k < |s| ==> s[k] == s[1..][k - 1];
      if s[0] <= rest then s[0] else rest
  }

  /** Python's `max` of a non-empty list. */
  function MaxOf(s: seq<int>): (m: int)
    requires |s| > 0
    ensures m in s && forall k :: 0 <= k < |s| ==> s[k] <= m
  {
    if |s| == 1 then s[0]
    else
      var rest := MaxOf(s[1..]);
      assert forall k :: 1 <= k < |s| ==> s[k] == s[1..][k - 1];
      if s[0] >= rest then s[0] else rest
  }

  /** What the application gives the selection handler: an n x n grid of
      distinct channel numbers (the centred grid is one, see
      `CentredGridContext`) and a stack of n * n raw contribution images. */
  predicate SelectionContext(shifted: Grid<int>, images: Stack) {
    && |shifted| > 0
    && IsShape(shifted, |shifted|, |shifted|)
    && IsStack(images, |shifted| * |shifted|, |shifted|, |shifted|)
    && EntriesBelow(shifted, |images|)
    && CellsDistinct(shifted)
  }

  /** The centred grid of an n x n image, with its n * n contributions, is
      what the selection handler expects. */
  lemma CentredGridContext(n: nat, images: Stack)
    requires n > 0 && IsStack(images, n * n, n, n)
    ensures SelectionContext(ShiftedGrid(n, n), images)
  {
    ShiftedGridIndexes(n, n);
  }

  /** `idx_mat_shifted[y0:y1, x0:x1].flatten()`. */
  function GatherIndices(shifted: Grid<int>, y0: int, y1: int, x0: int, x1: int): seq<int>
    requires IsRectangular(shifted)
  {
    Flatten(SubGrid(shifted, y0, y1, x0, x1))
  }

  /** The gathered indices are valid, pairwise distinct channel numbers. */
  lemma GatheredIndicesValid(shifted: Grid<int>, channels: int, y0: int, y1: int, x0: int, x1: int)
    requires IsRectangular(shifted) && EntriesBelow(shifted, channels) && CellsDistinct(shifted)
    ensures var idx := GatherIndices(shifted, y0, y1, x0, x1);
      && (forall k :: 0 <= k < |idx| ==> 0 <= idx[k] < channels)
      && (forall k, m :: 0 <= k < m < |idx| ==> idx[k] != idx[m])
  {
    SubGridFlatDistinct(shifted, channels, y0, y1, x0, x1);
  }

  /** A box keeping `h` rows and `w` columns gathers `h * w` indices, so
      none when it keeps no row or no column. */
  lemma GatheredIndicesCount(shifted: Grid<int>, y0: int, y1: int, x0: int, x1: int)
    requires IsRectangular(shifted)
    ensures |GatherIndices(shifted, y0, y1, x0, x1)|
         == SliceLength(y0, y1, |shifted|) * SliceLength(x0, x1, Cols(shifted))
    ensures SliceLength(y0, y1, |shifted|) == 0 || SliceLength(x0, x1, Cols(shifted)) == 0
         ==> GatherIndices(shifted, y0, y1, x0, x1) == []
  {
    var sub := SubGrid(shifted, y0, y1, x0, x1);
    FlattenLength(sub, SliceLength(y0, y1, |shifted|), SliceLength(x0, x1, Cols(shifted)));
  }

  /** The indices a box range selects: rows `[min(ys), max(ys))` and columns
      `[min(xs), max(xs))` of the centred grid, under Python's slice rules. */
  function SelectedIndices(shifted: Grid<int>, box: BoxRange): seq<int>
    requires IsRectangular(shifted) && |box.x| > 0 && |box.y| > 0
  {
    GatherIndices(shifted, MinOf(box.y), MaxOf(box.y), MinOf(box.x), MaxOf(box.x))
  }

  /** Pixel (r, c) of each selected channel, in selection order. */
  function PixelColumn(images: Stack, idx: seq<int>, r: int, c: int): (px: seq<real>)
    requires forall k :: 0 <= k < |idx| ==> 0 <= idx[k] < |images|
    requires forall k :: 0 <= k < |idx| ==> 0 <= r < |images[idx[k]]| && 0 <= c < |images[idx[k]][r]|
    ensures |px| == |idx|
  {
    seq(|idx|, k requires 0 <= k < |idx| => images[idx[k]][r][c])
  }

  /** `images[:, :, idx].sum(axis=-1)`: pixel by pixel, the sum of the selected
      channels. */
  function SumChannels(images: Stack, idx: seq<int>, rows: nat, cols: nat): (chunk: Image)
    requires IsStack(images, |images|, rows, cols)
    requires forall k :: 0 <= k < |idx| ==> 0 <= idx[k] < |images|
    ensures IsShape(chunk, rows, cols)
  {
    seq(rows, r requires 0 <= r < rows =>
      seq(cols, c requires 0 <= c < cols => Sum(PixelColumn(images, idx, r, c))))
  }

  /** Selecting nothing sums to the all-zero image. */
  lemma SumChannelsEmpty(images: Stack, rows: nat, cols: nat)
    requires IsStack(images, |images|, rows, cols)
    ensures SumChannels(images, [], rows, cols) == ConstImage(rows, cols, 0.0)
  {
    var chunk, zero := SumChannels(images, [], rows, cols), ConstImage(rows, cols, 0.0);
    forall r | 0 <= r < rows
      ensures chunk[r] == zero[r]
    {
      forall c | 0 <= c < cols
        ensures chunk[r][c] == zero[r][c]
      {
        assert PixelColumn(images, [], r, c) == [];
      }
    }
  }

  /** Selecting one channel reproduces it. */
  lemma SumChannelsSingle(images: Stack, q: int, rows: nat, cols: nat)
    requires IsStack(images, |images|, rows, cols) && 0 <= q < |images|
    ensures SumChannels(images, [q], rows, cols) == images[q]
  {
    var chunk := SumChannels(images, [q], rows, cols);
    forall r | 0 <= r < rows
      ensures chunk[r] == images[q][r]
    {
      forall c | 0 <= c < cols
        ensures chunk[r][c] == images[q][r][c]
      {
        var px := PixelColumn(images, [q], r, c);
        assert chunk[r][c] == Sum(px);
        assert px[0] == images[q][r][c];
        assert px[1..] == [];
        assert Sum(px) == px[0] + Sum(px[1..]);
      }
    }
  }

  /** The sum of two selections taken together is the sum of their sums. */
  lemma SumChannelsAppend(images: Stack, a: seq<int>, b: seq<int>, rows: nat, cols: nat, r: int, c: int)
    requires IsStack(images, |images|, rows, cols)
    requires forall k :: 0 <= k < |a| ==> 0 <= a[k] < |images|
    requires forall k :: 0 <= k < |b| ==> 0 <= b[k] < |images|
    requires 0 <= r < rows && 0 <= c < cols
    ensures SumChannels(images, a + b, rows, cols)[r][c]
         == SumChannels(images, a, rows, cols)[r][c] + SumChannels(images, b, rows, cols)[r][c]
  {
    var pa, pb := PixelColumn(images, a, r, c), PixelColumn(images, b, r, c);
    assert PixelColumn(images, a + b, r, c) == pa + pb;
    SumAppend(pa, pb);
  }

  /** One pixel of the rescaling without the ε guard,
      `(v - min) / (max - min) * 255`. */
  function RescaledPixel(v: real, lo: real, hi: real): real
    requires lo < hi
  {
    (v - lo) / (hi - lo) * ByteMax
  }

  /** The rescaling of a whole chunk; it is defined only for a chunk whose
      maximum exceeds its minimum. */
  function Rescale(chunk: Image): (res: Image)
    requires NonEmptyImage(chunk) && GridMax(chunk) > GridMin(chunk)
    ensures |res| == |chunk| && forall r :: 0 <= r < |res| ==> |res[r]| == |chunk[r]|
  {
    var lo, hi := GridMin(chunk), GridMax(chunk);
    seq(|chunk|, r requires 0 <= r < |chunk| =>
      seq(|chunk[r]|, c requires 0 <= c < |chunk[r]| => RescaledPixel(chunk[r][c], lo, hi)))
  }

  /** A value inside `[lo, hi]` with `lo < hi`, rescaled onto `[0, 255]`,
      lands on 0 exactly at `lo` and on 255 exactly at `hi`. */
  lemma RescaledValue(v: real, lo: real, hi: real)
    requires lo <= v <= hi && lo < hi
    ensures 0.0 <= RescaledPixel(v, lo, hi) <= ByteMax
    ensures RescaledPixel(v, lo, hi) == 0.0 <==> v == lo
    ensures RescaledPixel(v, lo, hi) == ByteMax <==> v == hi
  {
    var d := hi - lo;
    var q := (v - lo) / d;
    assert q * d == v - lo;
    assert 0.0 <= q <= 1.0;
    if v == hi {
      assert (q - 1.0) * d == 0.0;
      assert q == 1.0;
    }
    assert q == 1.0 ==> v == hi;
    assert q * ByteMax == ByteMax <==> q == 1.0;
  }

  /** Every rescaled pixel lies in `[0, 255]`; the minimum goes to 0 and the
      maximum to 255, and no other pixel does. */
  lemma RescaleBounds(chunk: Image, r: int, c: int)
    requires NonEmptyImage(chunk) && GridMax(chunk) > GridMin(chunk)
    requires 0 <= r < |chunk| && 0 <= c < |chunk[r]|
    ensures 0.0 <= Rescale(chunk)[r][c] <= ByteMax
    ensures Rescale(chunk)[r][c] == 0.0 <==> chunk[r][c] == GridMin(chunk)
    ensures Rescale(chunk)[r][c] == ByteMax <==> chunk[r][c] == GridMax(chunk)
  {
    var lo, hi, v := GridMin(chunk), GridMax(chunk), chunk[r][c];
    assert lo <= v <= hi;
    assert Rescale(chunk)[r][c] == RescaledPixel(v, lo, hi);
    RescaledValue(v, lo, hi);
  }

  /** The rescaled image uses the whole range: some pixel is 0 and some
      pixel is 255. */
  lemma RescaleSpansRange(chunk: Image)
    requires NonEmptyImage(chunk) && GridMax(chunk) > GridMin(chunk)
    ensures exists r, c :: 0 <= r < |chunk| && 0 <= c < |chunk[r]| && Rescale(chunk)[r][c] == 0.0
    ensures exists r, c :: 0 <= r < |chunk| && 0 <= c < |chunk[r]| && Rescale(chunk)[r][c] == ByteMax
  {
    var r0, c0 :| 0 <= r0 < |chunk| && 0 <= c0 < |chunk[r0]| && chunk[r0][c0] == GridMin(chunk);
    var r1, c1 :| 0 <= r1 < |chunk| && 0 <= c1 < |chunk[r1]| && chunk[r1][c1] == GridMax(chunk);
    RescaleBounds(chunk, r0, c0);
    RescaleBounds(chunk, r1, c1);
  }

  /** The handler's work on a box range with corners: gather the channels
      behind the selected display cells, sum them pixel by pixel and rescale
      the sum onto `[0, 255]`. */
  function BoxView(shifted: Grid<int>, images: Stack, box: BoxRange): (v: SelectionView)
    requires SelectionContext(shifted, images) && |box.x| > 0 && |box.y| > 0
    ensures v.Reconstructed? || v == NotANumber
    ensures v.Reconstructed? ==> IsShape(v.pixels, |shifted|, |shifted|)
  {
    var n := |shifted|;
    assert Cols(shifted) == n;
    var idx := SelectedIndices(shifted, box);
    GatheredIndicesValid(shifted, |images|, MinOf(box.y), MaxOf(box.y), MinOf(box.x), MaxOf(box.x));
    var chunk := SumChannels(images, idx, n, n);
    assert NonEmptyImage(chunk);
    if GridMax(chunk) > GridMin(chunk) then Reconstructed(Rescale(chunk)) else NotANumber
  }

  /** `display_selected_data`. */
  function DisplaySelectedData(selected: Option<SelectedData>, shifted: Grid<int>, images: Stack): (v: SelectionView)
    requires SelectionContext(shifted, images)
    ensures v == Placeholder <==> selected.None?
    ensures v.SelectionFailed? <==>
      selected.Some? && (selected.value.range.None? || |selected.value.range.value.x| == 0
                         || |selected.value.range.value.y| == 0)
    ensures v == SelectionFailed(KeyError) <==> selected.Some? && selected.value.range.None?
    ensures v == SelectionFailed(ValueError) <==>
      selected.Some? && selected.value.range.Some?
      && (|selected.value.range.value.x| == 0 || |selected.value.range.value.y| == 0)
    ensures v.Reconstructed? ==> IsShape(v.pixels, |shifted|, |shifted|)
  {
    match selected
    case None => Placeholder
    case Some(data) =>
      match data.range
      case None => SelectionFailed(KeyError)
      case Some(box) =>
        if |box.x| == 0 || |box.y| == 0 then SelectionFailed(ValueError)
        else BoxView(shifted, images, box)
  }

  /** A box whose row or column slice keeps nothing gathers no index. */
  lemma EmptyBoxSelectsNothing(shifted: Grid<int>, images: Stack, box: BoxRange)
    requires SelectionContext(shifted, images) && |box.x| > 0 && |box.y| > 0
    requires SliceLength(MinOf(box.y), MaxOf(box.y), |shifted|) == 0
          || SliceLength(MinOf(box.x), MaxOf(box.x), |shifted|) == 0
    ensures IsRectangular(shifted) && SelectedIndices(shifted, box) == []
  {
    assert Cols(shifted) == |shifted|;
    GatheredIndicesCount(shifted, MinOf(box.y), MaxOf(box.y), MinOf(box.x), MaxOf(box.x));
  }

  /** A box that gathers no index sums the all-zero image, whose range is
      zero, so the handler divides 0 by 0. */
  lemma NoIndexIsNotANumber(shifted: Grid<int>, images: Stack, box: BoxRange)
    requires SelectionContext(shifted, images) && |box.x| > 0 && |box.y| > 0
    requires IsRectangular(shifted) && SelectedIndices(shifted, box) == []
    ensures DisplaySelectedData(Some(SelectedData(Some(box))), shifted, images) == NotANumber
  {
    var n := |shifted|;
    SumChannelsEmpty(images, n, n);
    ConstImageIsFlat(n, n, 0.0);
  }

  /** A box whose row or column slice keeps nothing gives NaN, not the
      placeholder. */
  lemma EmptyBoxIsNotANumber(shifted: Grid<int>, images: Stack, box: BoxRange)
    requires SelectionContext(shifted, images) && |box.x| > 0 && |box.y| > 0
    requires SliceLength(MinOf(box.y), MaxOf(box.y), |shifted|) == 0
          || SliceLength(MinOf(box.x), MaxOf(box.x), |shifted|) == 0
    ensures DisplaySelectedData(Some(SelectedData(Some(box))), shifted, images) == NotANumber
  {
    EmptyBoxSelectsNothing(shifted, images, box);
    NoIndexIsNotANumber(shifted, images, box);
  }

  /** A box whose corners share a row or a column selects nothing. */
  lemma FlatBoxIsNotANumber(shifted: Grid<int>, images: Stack, box: BoxRange)
    requires SelectionContext(shifted, images) && |box.x| > 0 && |box.y| > 0
    requires MinOf(box.y) == MaxOf(box.y) || MinOf(box.x) == MaxOf(box.x)
    ensures DisplaySelectedData(Some(SelectedData(Some(box))), shifted, images) == NotANumber
  {
    EmptyBoxIsNotANumber(shifted, images, box);
  }

  /** The two outcomes of `BoxView`, with the indices and the summed chunk
      named. */
  lemma BoxViewCases(shifted: Grid<int>, images: Stack, box: BoxRange)
    requires SelectionContext(shifted, images) && |box.x| > 0 && |box.y| > 0
    ensures IsRectangular(shifted)
    ensures var idx := SelectedIndices(shifted, box);
      forall k :: 0 <= k < |idx| ==> 0 <= idx[k] < |images|
    ensures NonEmptyImage(SumChannels(images, SelectedIndices(shifted, box), |shifted|, |shifted|))
    ensures var chunk := SumChannels(images, SelectedIndices(shifted, box), |shifted|, |shifted|);
      BoxView(shifted, images, box) ==
        if GridMax(chunk) > GridMin(chunk) then Reconstructed(Rescale(chunk)) else NotANumber
  {
    var n := |shifted|;
    assert Cols(shifted) == n;
    GatheredIndicesValid(shifted, |images|, MinOf(box.y), MaxOf(box.y), MinOf(box.x), MaxOf(box.x));
    assert NonEmptyImage(SumChannels(images, SelectedIndices(shifted, box), n, n));
  }

  /** A box selection is reconstructed exactly when the summed chunk is not
      flat (the chunk being the pixelwise sum of the selected channels), and
      the reconstruction's pixel (r, c) lies in `[0, 255]`, is 0 exactly
      where the chunk is smallest and 255 exactly where it is largest. */
  lemma ReconstructionIsRescaledSum(shifted: Grid<int>, images: Stack, box: BoxRange, r: int, c: int)
    requires SelectionContext(shifted, images) && |box.x| > 0 && |box.y| > 0
    requires 0 <= r < |shifted| && 0 <= c < |shifted|
    ensures IsRectangular(shifted)
    ensures var idx := SelectedIndices(shifted, box);
      forall k :: 0 <= k < |idx| ==> 0 <= idx[k] < |images|
    ensures NonEmptyImage(SumChannels(images, SelectedIndices(shifted, box), |shifted|, |shifted|))
    ensures var chunk := SumChannels(images, SelectedIndices(shifted, box), |shifted|, |shifted|);
      var v := DisplaySelectedData(Some(SelectedData(Some(box))), shifted, images);
      && (v.Reconstructed? <==> GridMax(chunk) > GridMin(chunk))
      && (v.Reconstructed? ==>
            && v.pixels == Rescale(chunk)
            && 0.0 <= v.pixels[r][c] <= ByteMax
            && (v.pixels[r][c] == 0.0 <==> chunk[r][c] == GridMin(chunk))
            && (v.pixels[r][c] == ByteMax <==> chunk[r][c] == GridMax(chunk)))
  {
    BoxViewCases(shifted, images, box);
    var chunk := SumChannels(images, SelectedIndices(shifted, box), |shifted|, |shifted|);
    assert DisplaySelectedData(Some(SelectedData(Some(box))), shifted, images) == BoxView(shifted, images, box);
    if GridMax(chunk) > GridMin(chunk) {
      RescaleBounds(chunk, r, c);
    }
  }

  // ---------------------------------------------------------------------
  // The interaction mode

  /** The value of the `interaction-mode` store. */
  datatype Mode = Hover | Selecting

  /** Python's `s.startswith(prefix)`. */
  predicate StartsWith(s: string, prefix: string) {
    |prefix| <= |s| && s[..|prefix|] == prefix
  }

  /** `s` starts with `prefix` exactly when `s` is `prefix` followed by
      something. */
  lemma StartsWithConcat(s: string, prefix: string)
    ensures StartsWith(s, prefix) <==> exists rest :: s == prefix + rest
  {
    if StartsWith(s, prefix) {
      assert s == prefix + s[|prefix|..];
    }
  }

  /** A relayout key that belongs to an axis range change. */
  predicate IsRangeKey(k: string) {
    StartsWith(k, "xaxis.range") || StartsWith(k, "yaxis.range")
  }

  /** The generator `any(... for k in keys)`, evaluated front to back. */
  function AnyRangeKey(keys: seq<string>): (b: bool)
    ensures b <==> exists k :: 0 <= k < |keys| && IsRangeKey(keys[k])
  {
    if |keys| == 0 then false
    else
      assert forall k :: 1 <= k < |keys| ==> keys[k] == keys[1..][k - 1];
      IsRangeKey(keys[0]) || AnyRangeKey(keys[1..])
  }

  /** `update_interaction_mode`: `relayout` is the key list of the heatmap's
      `relayoutData`, or `None`. */
  function UpdateInteractionMode(relayout: Option<seq<string>>): (m: Mode)
    ensures m == Selecting <==>
      relayout.Some? && exists k :: 0 <= k < |relayout.value| && IsRangeKey(relayout.value[k])
  {
    match relayout
    case None => Hover
    case Some(keys) => if AnyRangeKey(keys) then Selecting else Hover
  }

  /** Dragging a range selects; resetting the axes does not. */
  lemma InteractionModeExamples()
    ensures UpdateInteractionMode(Some(["xaxis.range[0]", "xaxis.range[1]"])) == Selecting
    ensures UpdateInteractionMode(Some(["dragmode", "yaxis.range"])) == Selecting
    ensures UpdateInteractionMode(Some(["xaxis.autorange", "yaxis.autorange"])) == Hover
    ensures UpdateInteractionMode(Some([])) == Hover
  {
    assert IsRangeKey("xaxis.range[0]") by {
      assert "xaxis.range[0]"[..|"xaxis.range"|] == "xaxis.range";
    }
    assert !IsRangeKey("xaxis.autorange") by {
      assert "xaxis.autorange"[..|"xaxis.range"|] != "xaxis.range" by {
        assert "xaxis.autorange"[6] != "xaxis.range"[6];
      }
      assert "xaxis.autorange"[..|"yaxis.range"|] != "yaxis.range" by {
        assert "xaxis.autorange"[0] != "yaxis.range"[0];
      }
    }
    assert !IsRangeKey("yaxis.autorange") by {
      assert "yaxis.autorange"[..|"xaxis.range"|] != "xaxis.range" by {
        assert "yaxis.autorange"[0] != "xaxis.range"[0];
      }
      assert "yaxis.autorange"[..|"yaxis.range"|] != "yaxis.range" by {
        assert "yaxis.autorange"[6] != "yaxis.range"[6];
      }
    }
    assert IsRangeKey("yaxis.range") by {
      assert "yaxis.range"[..|"yaxis.range"|] == "yaxis.range";
    }
  }

  // ---------------------------------------------------------------------
  // The hover preview

  /** A hovered heatmap point: its column `x` and row `y`. */
  datatype Point = Point(x: int, y: int)

  /** The heatmap's `hoverData`. `NoHover` stands for both of its falsy
      values, `None` and the empty dict. */
  datatype HoverData = NoHover | Hovered(points: seq<Point>)

  /** What the hover handler hands back to the page. */
  datatype HoverView = NoPreview | Preview(pixels: Image) | HoverFailed(error: PyError)

  /** `display_image_on_hover`: outside hover mode, or without hover data,
      nothing; otherwise channel `idx_mat[y, x]` of the display stack. */
  function DisplayImageOnHover(hover: HoverData, mode: Mode, natural: Grid<int>, imgs: Stack): (v: HoverView)
    requires IsRectangular(natural)
    ensures v == NoPreview <==> mode != Hover || hover.NoHover?
    ensures v.Preview? ==> exists ch :: 0 <= ch < |imgs| && v.pixels == imgs[ch]
    ensures v.HoverFailed? ==> v.error == IndexError
    ensures mode == Hover && hover.Hovered? && |hover.points| == 0 ==> v == HoverFailed(IndexError)
    ensures mode == Hover && hover.Hovered? && |hover.points| > 0
         && 0 <= hover.points[0].y < |natural| && 0 <= hover.points[0].x < Cols(natural)
         && 0 <= natural[hover.points[0].y][hover.points[0].x] < |imgs|
         ==> v == Preview(imgs[natural[hover.points[0].y][hover.points[0].x]])
  {
    if mode != Hover || hover.NoHover? then NoPreview
    else if |hover.points| == 0 then HoverFailed(IndexError)
    else
      var point := hover.points[0];
      match GridIndex(natural, point.y, point.x)
      case None => HoverFailed(IndexError)
      case Some(idx) =>
        match AxisIndex(idx, |imgs|)
        case None => HoverFailed(IndexError)
        case Some(ch) => Preview(imgs[ch])
  }

  /** A hover point off the array on either axis, even counting from the
      end, raises IndexError. */
  lemma HoverOffGridFails(p: Point, rest: seq<Point>, natural: Grid<int>, imgs: Stack)
    requires IsRectangular(natural)
    requires !(0 <= p.y + |natural| && p.y < |natural| && 0 <= p.x + Cols(natural) && p.x < Cols(natural))
    ensures DisplayImageOnHover(Hovered([p] + rest), Hover, natural, imgs) == HoverFailed(IndexError)
  {
    assert ([p] + rest)[0] == p;
  }

  /** numpy's negative indices count from the end: hovering at
      `(x - cols, y - rows)` previews what hovering at `(x, y)` does. */
  lemma HoverWrapsNegative(natural: Grid<int>, imgs: Stack, i: int, j: int)
    requires IsRectangular(natural) && 0 <= i < |natural| && 0 <= j < Cols(natural)
    ensures DisplayImageOnHover(Hovered([Point(j - Cols(natural), i - |natural|)]), Hover, natural, imgs)
         == DisplayImageOnHover(Hovered([Point(j, i)]), Hover, natural, imgs)
  {
  }
}
