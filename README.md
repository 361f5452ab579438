# k-space visualiser: the index bookkeeping and the reconstruction handlers

kspace-vis decomposes a grayscale image into one real-valued contribution
image per spatial-frequency pair (k, l). It shows the frequency-magnitude map
zero-frequency-centred, so the DC pair (0, 0) sits in the middle. It lets the user:

- hover a cell of that map to preview the one contribution it stands for;
- drag a rectangle to sum the contributions it covers into a partial
  reconstruction.

This project models, in Dafny, everything that work relies on after the
discrete Fourier transform.

`process_image` (module `Processing`):
- enumerates the frequency pairs;
- min-max normalises each contribution channel, with an ε guard, onto
  `[0, 255)` in real arithmetic (float32 rounding can reach 255, see
  "Left out");
- overwrites the DC channel with the image mean;
- builds the natural index grid and its centred (`fftshift`ed) copy;
- reorders the normalised stack by the centred grid for the hover preview.

Following the source:
- the rescaling is a pure function;
- the in-place steps (`X_std *= 255`, the channel-0 overwrite) are methods on
  an `array` of channel images;
- `NormaliseStack` composes them and is proved equal to the specifying
  function `Normalised`.

The three handlers (module `Callbacks`):
- `display_selected_data` gathers the centred grid's indices inside the box
  under Python's slice rules, sums the raw contributions and rescales the sum
  without a guard;
- `update_interaction_mode` tells hovering from selecting;
- `display_image_on_hover` looks the hovered cell up in the natural grid and
  indexes the reordered stack with numpy's negative-index rule.

Each handler is a total function. An exception or a NaN result is a value of
the outcome datatype.

Module `App` is the start-up: one call of `process_image`, and the two
handlers wired to its results. There the model proves that:
- hover and single-cell selection at any display cell name the same channel,
  and that channel is the frequency pair `((i - n/2) mod n, (j - n/2) mod n)`;
- the whole-display box gathers every channel exactly once.

Module `ArrayOps` holds the array semantics the rest relies on:
- row-major `flatten`/`reshape`;
- `fftshift` as a roll by `n / 2` on each axis, with its inverse;
- Python slices, with a negative bound counting from the end and clamping,
  and numpy scalar indexing;
- sums, minima and maxima.

Data representation:
- a 2-D array is a `seq<seq<T>>`;
- the numpy stack `images[r, c, ch]` is channel-first: `stack[ch][r][c]`;
- floating-point values are modelled as `real`.

Behaviour of the handlers that the model makes explicit:

- The selection handler rescales the summed chunk *without* ε
  (utils/callbacks.py:28). A box that keeps no cell sums to the all-zero
  image and gives `0 / 0`, that is NaN, not the placeholder
  (`Callbacks.EmptyBoxIsNotANumber`, `Callbacks.FlatBoxIsNotANumber`). So
  does any box whose sum is constant, including one around the DC cell alone
  when its contribution is a constant image (`App.DcCellIsNotANumber`). Only a
  missing `selectedData` gives the placeholder.
- The handler does no bounds check of its own (utils/callbacks.py:22).
  Python's slice rules count a negative bound from the end and then clamp to
  the grid.
- The hover path looks the natural grid up in a stack already reordered by
  the centred grid (processing.py:47, utils/callbacks.py:66). It therefore
  reads the same channel as selection at every display cell
  (`App.HoverShowsReordered`, `App.HoverAndSelectionAgree`).

## Model

| member | source | states |
|---|---|---|
| Processing.ProductAt | processing.py:21 | position `p` of `product(xs, ys)` is `(xs[p / len(ys)], ys[p % len(ys)])` |
| Processing.FrequencyPairAt | processing.py:21 | there are n·n pairs, pair `p` is `(p / n, p % n)`, and pair 0 is the DC pair `(0, 0)` |
| Processing.FrequencyPairsOrdered | processing.py:21 | the pairs come in strictly increasing lexicographic order |
| Processing.Product | processing.py:21 | `itertools.product` has `len(xs)·len(ys)` pairs |
| Processing.FrequencyPairs | processing.py:21 | defines `product(arange(n), repeat=2)`, the n·n frequency pairs, first component outermost |
| Processing.Standardise | processing.py:37 | the per-channel ε-guarded min-max rescaling keeps the channel's shape |
| Processing.StandardiseAll | processing.py:37 | the rescaled array `X_std` has one channel per input channel |
| Processing.StandardisedValue | processing.py:37 | a value in `[min, max]` rescales with ε into `[0, 1)`, and to 0 exactly at the minimum |
| Processing.StandardisedPixel | processing.py:37 | defines one pixel of the ε-guarded rescaling, `(v - min) / (max - min + 1e-5)` |
| Processing.ScaleImage | processing.py:38 | multiplying every pixel by a factor keeps the image's shape |
| Processing.ScaleChannels | processing.py:38 | `X_std *= 255` in place: every channel becomes itself times the factor |
| Processing.FillChannel | processing.py:40 | `X_std[:, :, 0] = mean` in place: channel `ch` becomes the constant image in the shape it already had, and no other channel changes |
| Processing.Normalised | processing.py:37-40 | the normalised stack has one channel per input channel |
| Processing.NormaliseStack | processing.py:37-40 | the three in-place steps in source order produce exactly `Normalised(stack, mean)` |
| Processing.NormalisedChannelBounds | processing.py:37-38 | every non-DC normalised pixel lies in `[0, 255)`, and is 0 exactly where its channel is minimal |
| Processing.NormalisedDc | processing.py:40 | every pixel of normalised channel 0 is the image mean |
| Processing.Mean | processing.py:40 | defines `img.mean()`, the sum of the flattened image over its pixel count |
| Processing.MeanWithinRange | processing.py:40 | the image mean, the value written into every pixel of channel 0, lies between the image's minimum and maximum |
| Processing.ConstImage | processing.py:40 | a constant image has the requested shape |
| Processing.ConstImageIsFlat | processing.py:40 | a constant image's minimum and maximum are both its value |
| Processing.NaturalGrid | processing.py:44 | `arange(rows·cols).reshape(rows, cols)` has shape rows × cols |
| Processing.NaturalGridAt | processing.py:44 | natural cell `(k, l)` holds its row-major position `k·cols + l` |
| Processing.NaturalGridEnumerates | processing.py:44 | the natural grid flattens to `0 .. rows·cols - 1` in order |
| Processing.ShiftedGrid | processing.py:45 | `fftshift(idx_mat)` has shape rows × cols |
| Processing.ShiftedGridAt | processing.py:45 | centred cell `(i, j)` holds natural index `Roll(i)·cols + Roll(j)`, with `Roll(i) = (i - rows/2) mod rows` |
| Processing.DisplayCell | processing.py:45 | the display cell of a flat index lies on the grid |
| Processing.ShiftedGridCovers | processing.py:45 | every flat index is shown at its display cell |
| Processing.ShiftedGridInjective | processing.py:45 | two display cells holding the same index are the same cell |
| Processing.ShiftedGridIndexes | processing.py:45 | the centred grid's entries are flat indices, each in at most one cell |
| Processing.DcAtCentre | processing.py:45 | the DC index 0 is shown at display cell `(rows/2, cols/2)` |
| Processing.ShiftedGridTwiceEven | processing.py:45 | for even sides, shifting the centred grid again gives the natural grid back |
| Processing.DisplayedFrequency | processing.py:45 | display cell `(i, j)` shows the pair `(Roll(i), Roll(j))` of the line-21 enumeration |
| Processing.ShiftedFlatIsPermutation | processing.py:47 | `idx_mat_shifted.flatten()` lists each of `0 .. rows·cols - 1` exactly once |
| Processing.Reorder | processing.py:47 | the fancy index `X_std[:, :, order]` has one channel per entry of `order` |
| Processing.ReorderIsPermutation | processing.py:47 | reordering by the flattened centred grid takes every input channel once, and channel `p` is `stack[order[p]]` |
| Processing.FlatShiftedThroughNatural | processing.py:47 | position `idx_mat[i, j]` of the flattened centred grid is centred cell `(i, j)` |
| Processing.ReorderedThroughNatural | processing.py:47 | the reordered stack read at `idx_mat[i, j]` is the input channel `idx_mat_shifted[i, j]` |
| Processing.ProcessImage | processing.py:10-48 | returns the raw stack, the normalised stack reordered by the flattened centred grid (a permutation), and both index grids, with one channel per frequency pair |
| ArrayOps.Range | processing.py:44 | `arange(n)` has n entries |
| ArrayOps.Flatten | processing.py:47 | defines numpy's C-order `flatten()`: the rows one after the other |
| ArrayOps.FlattenLength | processing.py:47 | a rows × cols array flattens to `rows·cols` entries |
| ArrayOps.FlattenAt | processing.py:47 | cell `(i, j)` is at position `i·cols + j` of the flattening |
| ArrayOps.FlattenAtPosition | processing.py:47 | position `p` of the flattening is cell `(p / cols, p % cols)` |
| ArrayOps.FlattenContains | processing.py:47 | every cell's entry occurs in the flattening |
| ArrayOps.FlattenDistinct | processing.py:47 | an array of distinct entries below n flattens to distinct entries below n |
| ArrayOps.Reshape | processing.py:44 | `reshape(rows, cols)` of `rows·cols` entries has shape rows × cols |
| ArrayOps.FlattenReshape | processing.py:44 | flattening undoes reshaping |
| ArrayOps.Roll | processing.py:45 | `fftshift`'s source position on an axis of length n is in `[0, n)` |
| ArrayOps.Unroll | processing.py:45 | the inverse roll stays in `[0, n)` |
| ArrayOps.RollUnroll | processing.py:45 | rolling undoes unrolling |
| ArrayOps.UnrollRoll | processing.py:45 | unrolling undoes rolling |
| ArrayOps.RollInjective | processing.py:45 | the roll sends distinct positions to distinct positions |
| ArrayOps.RollTwiceEven | processing.py:45 | on an even axis, rolling twice is the identity |
| ArrayOps.FftShift | processing.py:45 | `fftshift` keeps the shape |
| ArrayOps.IFftShift | processing.py:45 | `ifftshift` keeps the shape |
| ArrayOps.UnshiftShift | processing.py:45 | `ifftshift(fftshift(g)) == g` |
| ArrayOps.ShiftTwiceEven | processing.py:45 | for even sides, `fftshift(fftshift(g)) == g` |
| ArrayOps.GridMin | processing.py:37 | a minimum below every entry and attained at some entry |
| ArrayOps.GridMax | processing.py:37 | a maximum above every entry and attained at some entry |
| ArrayOps.SeqMin | processing.py:37 | a minimum of a row, attained |
| ArrayOps.SeqMax | processing.py:37 | a maximum of a row, attained |
| ArrayOps.SliceBound | utils/callbacks.py:22 | a slice bound, after the negative-index rule and clamping, lies in `[0, n]` |
| ArrayOps.SliceLength | utils/callbacks.py:22 | the length of `s[start:stop]` for a sequence of length n is at most n |
| ArrayOps.Slice | utils/callbacks.py:22 | `s[start:stop]` has `SliceLength` entries, entry `k` being `s[lo + k]` |
| ArrayOps.SliceInRange | utils/callbacks.py:22 | for in-range bounds, the slice is `s[start..stop]`, or empty when `stop <= start` |
| ArrayOps.SubGrid | utils/callbacks.py:22 | `g[y0:y1, x0:x1]` has the two slice lengths as its shape, and cell `(a, b)` is `g[lo_r + a][lo_c + b]` |
| ArrayOps.SubGridWhole | utils/callbacks.py:22 | the full slices give the array back |
| ArrayOps.SubGridCell | utils/callbacks.py:22 | the slices `[i:i+1, j:j+1]` keep exactly cell `(i, j)` |
| ArrayOps.SubGridFlatAt | utils/callbacks.py:22-24 | position `k` of the flattened sub-array is cell `(lo_r + k / w, lo_c + k % w)` |
| ArrayOps.SubGridFlatDistinct | utils/callbacks.py:22-24 | a sub-array of distinct entries below n flattens to `h·w` distinct entries below n |
| ArrayOps.SumAppend | utils/callbacks.py:25 | the sum of a concatenation is the sum of the sums |
| ArrayOps.Sum | utils/callbacks.py:25 | defines the sum of a sequence of values |
| ArrayOps.SumBounds | processing.py:40 | a sum of values in `[lo, hi]` lies between `len·lo` and `len·hi` |
| ArrayOps.AverageBetween | processing.py:40 | the average of values in `[lo, hi]` lies in `[lo, hi]` |
| ArrayOps.FlattenBounded | processing.py:40 | bounds on every entry of an array hold for every entry of its flattening |
| ArrayOps.AxisIndex | utils/callbacks.py:66 | a numpy scalar index is valid exactly in `[-n, n)`, and a negative one counts from the end |
| ArrayOps.GridIndex | utils/callbacks.py:66 | `g[i, j]` is the cell for in-range indices, and IndexError outside `[-rows, rows) × [-cols, cols)` |
| Callbacks.MinOf | utils/callbacks.py:22 | Python's `min` of a non-empty list: attained and below every element |
| Callbacks.MaxOf | utils/callbacks.py:22 | Python's `max` of a non-empty list: attained and above every element |
| Callbacks.GatherIndices | utils/callbacks.py:22-24 | defines `idx_mat_shifted[y0:y1, x0:x1].flatten()` |
| Callbacks.SelectedIndices | utils/callbacks.py:22-24 | defines the indices a box range selects: rows `[min(ys), max(ys))` and columns `[min(xs), max(xs))` of the centred grid |
| Callbacks.GatheredIndicesValid | utils/callbacks.py:22-24 | the gathered indices are valid and pairwise distinct channel numbers |
| Callbacks.GatheredIndicesCount | utils/callbacks.py:22-24 | a box keeping h rows and w columns gathers `h·w` indices, none if h or w is 0 |
| Callbacks.CentredGridContext | app.py:177 | the centred grid and the n·n raw contributions are valid inputs to the selection handler |
| Callbacks.PixelColumn | utils/callbacks.py:24 | one pixel per selected channel |
| Callbacks.SumChannels | utils/callbacks.py:24-25 | the summed chunk has the images' shape |
| Callbacks.SumChannelsEmpty | utils/callbacks.py:25 | summing no channel gives the all-zero image |
| Callbacks.SumChannelsSingle | utils/callbacks.py:25 | summing one channel reproduces it |
| Callbacks.SumChannelsAppend | utils/callbacks.py:25 | the sum over two selections together is the sum of their sums |
| Callbacks.RescaledPixel | utils/callbacks.py:28-29 | defines one pixel of the unguarded rescaling, `(v - min) / (max - min) * 255` |
| Callbacks.Rescale | utils/callbacks.py:28-29 | rescaling a non-flat chunk keeps its shape |
| Callbacks.RescaledValue | utils/callbacks.py:28-29 | a value in `[lo, hi]` rescales into `[0, 255]`, to 0 exactly at `lo` and to 255 exactly at `hi` |
| Callbacks.RescaleBounds | utils/callbacks.py:28-29 | every rescaled pixel is in `[0, 255]`, 0 exactly at the chunk minimum, 255 exactly at its maximum |
| Callbacks.RescaleSpansRange | utils/callbacks.py:28-29 | some rescaled pixel is 0 and some is 255 |
| Callbacks.BoxView | utils/callbacks.py:20-29 | a box with corners gives either an n × n reconstruction or NaN |
| Callbacks.DisplaySelectedData | utils/callbacks.py:16-29 | placeholder exactly when `selectedData` is None; an exception exactly when the range is missing (KeyError) or a corner list is empty (ValueError); otherwise an n × n reconstruction or NaN |
| Callbacks.ReconstructionIsRescaledSum | utils/callbacks.py:22-29 | a box reconstructs exactly when the summed chunk is not flat; each pixel is then in `[0, 255]`, 0 exactly at the chunk minimum and 255 exactly at its maximum |
| Callbacks.EmptyBoxSelectsNothing | utils/callbacks.py:22 | a box whose row or column slice is empty gathers no index |
| Callbacks.NoIndexIsNotANumber | utils/callbacks.py:24-28 | a box gathering no index gives NaN (0 / 0) |
| Callbacks.EmptyBoxIsNotANumber | utils/callbacks.py:22-28 | a box whose row or column slice is empty gives NaN, not the placeholder |
| Callbacks.FlatBoxIsNotANumber | utils/callbacks.py:22-28 | a box whose corners share a row or a column gives NaN |
| Callbacks.StartsWith | utils/callbacks.py:49 | defines Python's `s.startswith(prefix)` |
| Callbacks.IsRangeKey | utils/callbacks.py:49 | defines a relayout key that starts with `xaxis.range` or `yaxis.range` |
| Callbacks.StartsWithConcat | utils/callbacks.py:49 | `startswith(prefix)` holds exactly when the string is the prefix followed by something |
| Callbacks.AnyRangeKey | utils/callbacks.py:49 | the `any(...)` generator is true exactly when some key starts with `xaxis.range` or `yaxis.range` |
| Callbacks.UpdateInteractionMode | utils/callbacks.py:44-51 | the mode is selecting exactly when `relayoutData` is present and has an axis-range key; otherwise hover |
| Callbacks.InteractionModeExamples | utils/callbacks.py:44-51 | range keys select; `autorange` keys and an empty relayout stay in hover |
| Callbacks.DisplayImageOnHover | utils/callbacks.py:60-67 | no preview exactly outside hover mode or without hover data; a preview is a channel of the display stack, namely `imgs[idx_mat[y, x]]` for an in-range point; every failure is an IndexError, including an empty point list |
| Callbacks.HoverOffGridFails | utils/callbacks.py:63-66 | a hover point outside `[-rows, rows) × [-cols, cols)` raises IndexError |
| Callbacks.HoverWrapsNegative | utils/callbacks.py:66 | hovering at `(x - cols, y - rows)` previews the same as hovering at `(x, y)` |
| App.Startup | app.py:45 | after start-up, the grids, the raw stack and the reordered normalised stack are what `process_image` defines, and both handlers' input requirements hold |
| App.ResizedLayout | processing.py:14 | for the 86 × 86 image there are 7396 frequency pairs, and the DC index is shown at cell (43, 43) |
| App.HoverShowsReordered | app.py:178 | with the reordered display stack, hovering cell `(i, j)` previews source channel `idx_mat_shifted[i, j]` |
| App.HoverShowsShiftedChannel | app.py:178 | after start-up, hovering cell `(i, j)` previews the normalised contribution `idx_mat_shifted[i, j]` |
| App.SingleCellSelection | app.py:177 | the box `[j, j+1] × [i, i+1]` gathers just `idx_mat_shifted[i, j]` and sums to that raw channel |
| App.WholeGridSelection | app.py:177 | the box over the whole display gathers the flattened centred grid, every channel exactly once |
| App.ConstantCellIsNotANumber | app.py:177 | selecting just a cell whose channel is a constant image gives NaN |
| App.DcCellIsNotANumber | app.py:177 | selecting just the centre cell gives NaN when the DC contribution is constant |
| App.HoverAndSelectionAgree | app.py:177-178 | at every display cell, hover previews channel q of the display stack's source, single-cell selection sums raw channel q, and q is the pair `(Roll(i), Roll(j))` |

## Left out

- The manual DFT loop (processing.py:22-32) is left out: complex exponentials and floating-point sums. The contribution stack is an input of `ProcessImage`.
- `fft2` and `fftshift(y)` (processing.py:34-35) and the log-magnitude map (processing.py:43) are left out. They feed the heatmap's colours and, through their shape, which is the image's, the index grid (processing.py:44); `Processed` has no magnitude map, and the grids take the image's side instead.
- Opening and resizing the image with PIL (processing.py:12-17) is left out: file and library I/O. The image arrives as an n × n real grid. The resize side 86 is kept as `ResizedSide`.
- `print` and the `tqdm` progress bar (processing.py:18, 28) have no effect on the result.
- In the selection handler, the `uint8` cast, the resize to 200 × 200, and the PNG and base64 encoding (utils/callbacks.py:31-37) are left out: library code. The model stops at the rescaled real image.
- The hover handler's `encode_array_to_base64` (utils/callbacks.py:67) is left out: library code. The preview is the selected channel itself.
- The `int()` truncation of the corner coordinates (utils/callbacks.py:20-21) is done by the caller. `BoxRange` holds integers already.
- Dash's registration of callbacks, the layout, the client-side reset callback (utils/callbacks.py:70-79) and the JavaScript assets are left out: event glue, not computation.
- Floating point is modelled as `real`: no float32 rounding, no overflow, and no dependence on summation order. NaN appears only as the `NotANumber` outcome. In particular the strict bound `[0, 255)` of `Processing.NormalisedChannelBounds` holds in real arithmetic only: the source computes in float32 (processing.py:23), where for a channel whose range is 256 or more the sum `max - min + 1e-5` rounds back to `max - min` (half a float32 step there exceeds 1e-5), so the channel maximum becomes exactly 255.
- A `relayoutData` dict is modelled by the sequence of its keys, in the dict's iteration order.
- `hoverData` values other than `None` and a dict with a `points` list are not modelled. Both falsy values, `None` and `{}`, are `NoHover`.
- A `hover_data` without the `points` key, and a `mode` string other than `'hover'` and `'selecting'`, are not modelled.
- The KeyError raised when `selectedData['range']` lacks `'x'` or `'y'` (utils/callbacks.py:20-21), or a hover point lacks `'x'` or `'y'` (utils/callbacks.py:64-65), is not modelled: `BoxRange` and `Point` always carry both coordinates.
- Processing.ProcessImage: does not state that the full-grid sum reconstructs the image, because that needs the DFT, which is an input here. `App.WholeGridSelection` states the index half: every channel is summed exactly once.
