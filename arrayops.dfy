/** The array semantics the k-space core relies on, written out: row-major
    flattening and reshaping, numpy's zero-frequency-centring circular shift,
    Python slicing and numpy scalar indexing, sums, minima and maxima.
    A 2-D array is a sequence of rows; `g[r][c]` is numpy's `g[r, c]`. */
module ArrayOps {

  datatype Option<T> = None | Some(value: T)

  type Grid<T> = seq<seq<T>>

  /** `g` has `rows` rows of `cols` entries each. */
  predicate IsShape<T>(g: Grid<T>, rows: int, cols: int) {
    |g| == rows && forall r :: 0 <= r < |g| ==> |g[r]| == cols
  }

  /** Length of the rows of `g` (0 for an array without rows). */
  function Cols<T>(g: Grid<T>): nat {
    if |g| == 0 then 0 else |g[0]|
  }

  predicate IsRectangular<T>(g: Grid<T>) {
    IsShape(g, |g|, Cols(g))
  }

  /** numpy's `arange(n)`. */
  function Range(n: nat): (s: seq<int>)
    ensures |s| == n
  {
    seq(n, i => i)
  }

  // ---------------------------------------------------------------------
  // Integer division facts

  /** Division and remainder are determined by any decomposition
      `a == q * n + r` with `0 <= r < n`. */
  lemma DivModUnique(a: int, n: int, q: int, r: int)
    requires n > 0 && 0 <= r < n && a == q * n + r
    ensures a / n == q && a % n == r
  {
    var q', r' := a / n, a % n;
    assert a == q' * n + r';
    if q' > q {
      MulMonotone(q + 1, q', n);
      assert false;
    } else if q' < q {
      MulMonotone(q' + 1, q, n);
      assert false;
    }
  }

  lemma MulMonotone(a: int, b: int, n: int)
    requires a <= b && n >= 0
    ensures a * n <= b * n
  {
    assert b * n - a * n == (b - a) * n;
  }

  /** Taking `n` off a non-negative `p >= n` lowers its quotient by one and
      keeps its remainder. */
  lemma DivModStep(p: int, n: int)
    requires n > 0 && p >= n
    ensures p / n == (p - n) / n + 1 && p % n == (p - n) % n
  {
    var q, r := (p - n) / n, (p - n) % n;
    assert p - n == q * n + r;
    assert (q + 1) * n == q * n + n;
    DivModUnique(p, n, q + 1, r);
  }

  /** Quotient and remainder order non-negative numbers lexicographically. */
  lemma DivModOrder(p: int, q: int, n: int)
    requires n > 0 && 0 <= p < q
    ensures p / n < q / n || (p / n == q / n && p % n < q % n)
  {
    var a, r, b, s := p / n, p % n, q / n, q % n;
    assert p == a * n + r && q == b * n + s;
    if a > b {
      MulMonotone(b + 1, a, n);
      assert false;
    }
  }

  /** The row-major position of cell (i, j) is one row past that of cell
      (i - 1, j). */
  lemma NextRowPosition(i: int, j: int, cols: int)
    ensures i * cols + j == cols + ((i - 1) * cols + j)
  {
  }

  /** A cell (i, j) of a rows x cols array has a row-major position inside
      `[0, rows * cols)`. */
  lemma FlatPositionBounds(i: int, j: int, rows: int, cols: int)
    requires 0 <= i < rows && 0 <= j < cols
    ensures 0 <= i * cols + j < rows * cols
  {
    MulMonotone(i, rows - 1, cols);
    assert (rows - 1) * cols == rows * cols - cols;
  }

  /** The row-major position `p` of a rows x cols array is the cell
      `(p / cols, p % cols)`. */
  lemma FlatPositionCell(p: int, rows: nat, cols: nat)
    requires 0 <= p < rows * cols
    ensures cols > 0 && 0 <= p / cols < rows && 0 <= p % cols < cols
    ensures p == (p / cols) * cols + p % cols
  {
    if cols == 0 {
      assert false;
    }
    if p / cols >= rows {
      MulMonotone(rows, p / cols, cols);
      assert false;
    }
  }

  // ---------------------------------------------------------------------
  // Row-major flattening and reshaping

  /** numpy's `flatten()` (C order): the rows of `g`, one after the other. */
  function Flatten<T>(g: Grid<T>): seq<T> {
    if |g| == 0 then [] else g[0] + Flatten(g[1..])
  }

  lemma {:induction false} FlattenLength<T>(g: Grid<T>, rows: nat, cols: nat)
    requires IsShape(g, rows, cols)
    ensures |Flatten(g)| == rows * cols
  {
    if rows > 0 {
      FlattenLength(g[1..], rows - 1, cols);
      assert (rows - 1) * cols + cols == rows * cols;
    }
  }

  /** Cell (i, j) of a rows x cols array sits at position `i * cols + j` of its
      flattening. */
  lemma {:induction false} FlattenAt<T>(g: Grid<T>, rows: nat, cols: nat, i: int, j: int)
    requires IsShape(g, rows, cols) && 0 <= i < rows && 0 <= j < cols
    ensures i * cols + j < |Flatten(g)| && Flatten(g)[i * cols + j] == g[i][j]
  {
    var rest := Flatten(g[1..]);
    assert Flatten(g) == g[0] + rest;
    if i > 0 {
      assert IsShape(g[1..], rows - 1, cols);
      FlattenAt(g[1..], rows - 1, cols, i - 1, j);
      var k := (i - 1) * cols + j;
      NextRowPosition(i, j, cols);
      assert (g[0] + rest)[cols + k] == rest[k];
    }
  }

  /** Position `p` of the flattening of a rows x cols array holds the cell
      `(p / cols, p % cols)`. */
  lemma FlattenAtPosition<T>(g: Grid<T>, rows: nat, cols: nat, p: int)
    requires IsShape(g, rows, cols) && 0 <= p < rows * cols
    ensures |Flatten(g)| == rows * cols
    ensures 0 <= p / cols < rows && 0 <= p % cols < cols
    ensures p == (p / cols) * cols + p % cols
    ensures Flatten(g)[p] == g[p / cols][p % cols]
  {
    FlatPositionCell(p, rows, cols);
    FlattenLength(g, rows, cols);
    FlattenAt(g, rows, cols, p / cols, p % cols);
  }

  /** Every entry of `g` occurs in its flattening, whatever the row lengths. */
  lemma {:induction false} FlattenContains<T>(g: Grid<T>, r: int, c: int)
    requires 0 <= r < |g| && 0 <= c < |g[r]|
    ensures g[r][c] in Flatten(g)
  {
    if r > 0 {
      FlattenContains(g[1..], r - 1, c);
    }
  }

  /** numpy's `reshape(rows, cols)` of a one-dimensional array. */
  function Reshape<T>(s: seq<T>, rows: nat, cols: nat): (g: Grid<T>)
    requires |s| == rows * cols
    ensures IsShape(g, rows, cols)
  {
    seq(rows, i requires 0 <= i < rows =>
      seq(cols, j requires 0 <= j < cols =>
        FlatPositionBounds(i, j, rows, cols); s[i * cols + j]))
  }

  /** Flattening undoes reshaping. */
  lemma FlattenReshape<T>(s: seq<T>, rows: nat, cols: nat)
    requires |s| == rows * cols
    ensures Flatten(Reshape(s, rows, cols)) == s
  {
    var g := Reshape(s, rows, cols);
    FlattenLength(g, rows, cols);
    forall p | 0 <= p < |s|
      ensures Flatten(g)[p] == s[p]
    {
      FlattenAtPosition(g, rows, cols, p);
      var i, j := p / cols, p % cols;
      assert g[i][j] == s[i * cols + j];
    }
  }

  // ---------------------------------------------------------------------
  // The zero-frequency-centring circular shift (scipy's `fftshift`)

  /** `fftshift` rolls an axis of length n by `n / 2`: output position `i`
      holds input position `Roll(i, n)`. */
  function Roll(i: int, n: int): (k: int)
    requires n > 0
    ensures 0 <= k < n
  {
    (i - n / 2) % n
  }

  /** The output position of input position `k`: the inverse roll
      (numpy's `ifftshift`). */
  function Unroll(k: int, n: int): (i: int)
    requires n > 0
    ensures 0 <= i < n
  {
    (k + n / 2) % n
  }

  lemma RollUnroll(k: int, n: int)
    requires n > 0 && 0 <= k < n
    ensures Roll(Unroll(k, n), n) == k
  {
    var h := n / 2;
    if k + h < n {
      DivModUnique(k + h, n, 0, k + h);
      DivModUnique(k, n, 0, k);
    } else {
      DivModUnique(k + h, n, 1, k + h - n);
      DivModUnique(k - n, n, -1, k);
    }
  }

  lemma UnrollRoll(i: int, n: int)
    requires n > 0 && 0 <= i < n
    ensures Unroll(Roll(i, n), n) == i
  {
    var h := n / 2;
    if i >= h {
      DivModUnique(i - h, n, 0, i - h);
      DivModUnique(i, n, 0, i);
    } else {
      DivModUnique(i - h, n, -1, i - h + n);
      DivModUnique(i + n, n, 1, i);
    }
  }

  /** Distinct positions of an axis are rolled to distinct positions. */
  lemma RollInjective(i: int, i': int, n: int)
    requires n > 0 && 0 <= i < n && 0 <= i' < n && Roll(i, n) == Roll(i', n)
    ensures i == i'
  {
    UnrollRoll(i, n);
    UnrollRoll(i', n);
  }

  /** On an axis of even length, rolling twice by half the length is the
      identity. */
  lemma RollTwiceEven(i: int, n: int)
    requires n > 0 && n % 2 == 0 && 0 <= i < n
    ensures Roll(Roll(i, n), n) == i
  {
    var h := n / 2;
    assert h + h == n;
    if i >= h {
      DivModUnique(i - h, n, 0, i - h);
      DivModUnique(i - h - h, n, -1, i);
    } else {
      DivModUnique(i - h, n, -1, i - h + n);
      DivModUnique(i - h + n - h, n, 0, i);
    }
  }

  /** scipy's `fftshift` of a 2-D array: both axes rolled by half their
      length, `out[i][j] == g[(i - rows/2) mod rows][(j - cols/2) mod cols]`. */
  function FftShift<T>(g: Grid<T>): (s: Grid<T>)
    requires IsRectangular(g)
    ensures IsShape(s, |g|, Cols(g))
  {
    seq(|g|, i requires 0 <= i < |g| =>
      seq(Cols(g), j requires 0 <= j < Cols(g) => g[Roll(i, |g|)][Roll(j, Cols(g))]))
  }

  /** numpy's `ifftshift`: both axes rolled back. */
  function IFftShift<T>(g: Grid<T>): (s: Grid<T>)
    requires IsRectangular(g)
    ensures IsShape(s, |g|, Cols(g))
  {
    seq(|g|, i requires 0 <= i < |g| =>
      seq(Cols(g), j requires 0 <= j < Cols(g) => g[Unroll(i, |g|)][Unroll(j, Cols(g))]))
  }

  /** The shift loses nothing: shifting back restores the array, for every
      shape. */
  lemma UnshiftShift<T>(g: Grid<T>)
    requires IsRectangular(g)
    ensures IFftShift(FftShift(g)) == g
  {
    var s := FftShift(g);
    assert Cols(s) == Cols(g);
    var u := IFftShift(s);
    forall i | 0 <= i < |g|
      ensures u[i] == g[i]
    {
      forall j | 0 <= j < Cols(g)
        ensures u[i][j] == g[i][j]
      {
        RollUnroll(i, |g|);
        RollUnroll(j, Cols(g));
      }
    }
  }

  /** For even dimensions the shift is its own inverse. */
  lemma ShiftTwiceEven<T>(g: Grid<T>)
    requires IsRectangular(g) && |g| % 2 == 0 && Cols(g) % 2 == 0
    ensures FftShift(FftShift(g)) == g
  {
    var s := FftShift(g);
    assert Cols(s) == Cols(g);
    var t := FftShift(s);
    forall i | 0 <= i < |g|
      ensures t[i] == g[i]
    {
      forall j | 0 <= j < Cols(g)
        ensures t[i][j] == g[i][j]
      {
        RollTwiceEven(i, |g|);
        RollTwiceEven(j, Cols(g));
      }
    }
  }

  // ---------------------------------------------------------------------
  // Python slicing and numpy scalar indexing

  /** Where the bound `b` of the Python slice `s[start:stop]` (step 1) falls in
      a sequence of length `n`: a negative bound counts from the end, and the
      result is clamped to `[0, n]`. */
  function SliceBound(b: int, n: nat): (p: nat)
    ensures p <= n
  {
    if b < 0 then (if b + n < 0 then 0 else b + n)
    else if b > n then n
    else b
  }

  /** Number of elements of `s[start:stop]` for a sequence of length `n`. */
  function SliceLength(start: int, stop: int, n: nat): (r: nat)
    ensures r <= n
  {
    var lo, hi := SliceBound(start, n), SliceBound(stop, n);
    if lo < hi then hi - lo else 0
  }

  /** The Python slice `s[start:stop]`. */
  function Slice<T>(s: seq<T>, start: int, stop: int): (r: seq<T>)
    ensures |r| == SliceLength(start, stop, |s|)
    ensures forall k :: 0 <= k < |r| ==> r[k] == s[SliceBound(start, |s|) + k]
  {
    var lo, hi := SliceBound(start, |s|), SliceBound(stop, |s|);
    if lo < hi then s[lo..hi] else []
  }

  /** For in-range bounds, the slice is the sub-sequence between them, and
      equal bounds select nothing. */
  lemma SliceInRange<T>(s: seq<T>, start: int, stop: int)
    requires 0 <= start <= |s| && 0 <= stop <= |s|
    ensures start <= stop ==> Slice(s, start, stop) == s[start..stop]
    ensures stop <= start ==> Slice(s, start, stop) == []
  {
  }

  /** numpy's `g[start0:stop0, start1:stop1]`. */
  function SubGrid<T>(g: Grid<T>, start0: int, stop0: int, start1: int, stop1: int): (s: Grid<T>)
    requires IsRectangular(g)
    ensures IsShape(s, SliceLength(start0, stop0, |g|), SliceLength(start1, stop1, Cols(g)))
    ensures forall a, b :: 0 <= a < |s| && 0 <= b < |s[a]| ==>
      s[a][b] == g[SliceBound(start0, |g|) + a][SliceBound(start1, Cols(g)) + b]
  {
    var rows := Slice(g, start0, stop0);
    seq(|rows|, a requires 0 <= a < |rows| => Slice(rows[a], start1, stop1))
  }

  /** Slicing every row and every column in full gives the array back. */
  lemma SubGridWhole<T>(g: Grid<T>)
    requires IsRectangular(g)
    ensures SubGrid(g, 0, |g|, 0, Cols(g)) == g
  {
    var s := SubGrid(g, 0, |g|, 0, Cols(g));
    forall a | 0 <= a < |g|
      ensures s[a] == g[a]
    {
    }
  }

  /** The slices `[i:i+1]` and `[j:j+1]` of in-range `i` and `j` keep the
      single cell (i, j), and it flattens to that one entry. */
  lemma SubGridCell<T>(g: Grid<T>, i: int, j: int)
    requires IsRectangular(g) && 0 <= i < |g| && 0 <= j < Cols(g)
    ensures SubGrid(g, i, i + 1, j, j + 1) == [[g[i][j]]]
    ensures Flatten(SubGrid(g, i, i + 1, j, j + 1)) == [g[i][j]]
  {
    var sub := SubGrid(g, i, i + 1, j, j + 1);
    assert SliceLength(i, i + 1, |g|) == 1 && SliceLength(j, j + 1, Cols(g)) == 1;
    assert sub[0][0] == g[i][j];
    assert sub[0] == [g[i][j]];
    assert sub == [[g[i][j]]];
    assert Flatten(sub) == sub[0] + Flatten(sub[1..]);
    assert sub[1..] == [];
  }

  /** Every entry of `g` lies in `[0, n)`. */
  predicate EntriesBelow(g: Grid<int>, n: int) {
    forall r, c :: 0 <= r < |g| && 0 <= c < |g[r]| ==> 0 <= g[r][c] < n
  }

  /** Distinct cells of `g` hold distinct entries. */
  predicate CellsDistinct<T(==)>(g: Grid<T>) {
    forall r, c, r', c' ::
      0 <= r < |g| && 0 <= c < |g[r]| && 0 <= r' < |g| && 0 <= c' < |g[r']| && (r != r' || c != c')
      ==> g[r][c] != g[r'][c']
  }

  /** Position `k` of `g[y0:y1, x0:x1].flatten()` is the cell
      `(lo_r + k / w, lo_c + k % w)` of `g`, where the slices start at `lo_r`
      and `lo_c` and keep `h` rows of `w` columns. */
  lemma SubGridFlatAt<T>(g: Grid<T>, y0: int, y1: int, x0: int, x1: int, k: int)
    requires IsRectangular(g)
    requires 0 <= k < SliceLength(y0, y1, |g|) * SliceLength(x0, x1, Cols(g))
    ensures var w := SliceLength(x0, x1, Cols(g));
      && |Flatten(SubGrid(g, y0, y1, x0, x1))| == SliceLength(y0, y1, |g|) * w
      && w > 0 && 0 <= k / w < SliceLength(y0, y1, |g|) && 0 <= k % w < w
      && SliceBound(y0, |g|) + k / w < |g| && SliceBound(x0, Cols(g)) + k % w < Cols(g)
      && Flatten(SubGrid(g, y0, y1, x0, x1))[k]
         == g[SliceBound(y0, |g|) + k / w][SliceBound(x0, Cols(g)) + k % w]
  {
    var h, w := SliceLength(y0, y1, |g|), SliceLength(x0, x1, Cols(g));
    var sub := SubGrid(g, y0, y1, x0, x1);
    FlattenAtPosition(sub, h, w, k);
  }

  /** Gathering a sub-array of an array with distinct entries below `n`
      yields `h * w` distinct entries below `n`. */
  lemma SubGridFlatDistinct(g: Grid<int>, n: int, y0: int, y1: int, x0: int, x1: int)
    requires IsRectangular(g) && EntriesBelow(g, n) && CellsDistinct(g)
    ensures var s := Flatten(SubGrid(g, y0, y1, x0, x1));
      && |s| == SliceLength(y0, y1, |g|) * SliceLength(x0, x1, Cols(g))
      && (forall k :: 0 <= k < |s| ==> 0 <= s[k] < n)
      && (forall k, m :: 0 <= k < m < |s| ==> s[k] != s[m])
  {
    var h, w := SliceLength(y0, y1, |g|), SliceLength(x0, x1, Cols(g));
    var sub := SubGrid(g, y0, y1, x0, x1);
    var s := Flatten(sub);
    FlattenLength(sub, h, w);
    forall k | 0 <= k < |s|
      ensures 0 <= s[k] < n
    {
      SubGridFlatAt(g, y0, y1, x0, x1, k);
    }
    forall k, m | 0 <= k < m < |s|
      ensures s[k] != s[m]
    {
      SubGridFlatAt(g, y0, y1, x0, x1, k);
      SubGridFlatAt(g, y0, y1, x0, x1, m);
      DivModOrder(k, m, w);
    }
  }

  /** A rectangular array of distinct entries below `n` flattens to a
      sequence of distinct entries below `n`. */
  lemma FlattenDistinct(g: Grid<int>, n: int)
    requires IsRectangular(g) && EntriesBelow(g, n) && CellsDistinct(g)
    ensures var s := Flatten(g);
      && (forall k :: 0 <= k < |s| ==> 0 <= s[k] < n)
      && (forall k, m :: 0 <= k < m < |s| ==> s[k] != s[m])
  {
    SubGridWhole(g);
    SubGridFlatDistinct(g, n, 0, |g|, 0, Cols(g));
  }

  /** numpy's scalar index `i` into an axis of length `n`: a negative index
      counts from the end; anything else outside the axis raises IndexError
      (`None`). */
  function AxisIndex(i: int, n: nat): (k: Option<nat>)
    ensures k.Some? <==> 0 <= i + n && i < n
    ensures k.Some? ==> k.value < n && (k.value == i || k.value == i + n)
  {
    if 0 <= i < n then Some(i)
    else if 0 <= i + n && i < 0 then Some(i + n)
    else None
  }

  /** numpy's `g[i, j]` on a rectangular array. */
  function GridIndex<T>(g: Grid<T>, i: int, j: int): (v: Option<T>)
    requires IsRectangular(g)
    ensures 0 <= i < |g| && 0 <= j < Cols(g) ==> v == Some(g[i][j])
    ensures !(0 <= i + |g| && i < |g| && 0 <= j + Cols(g) && j < Cols(g)) ==> v == None
  {
    match (AxisIndex(i, |g|), AxisIndex(j, Cols(g)))
    case (Some(r), Some(c)) => Some(g[r][c])
    case _ => None
  }

  // ---------------------------------------------------------------------
  // Sums, minima and maxima

  function Sum(s: seq<real>): real {
    if |s| == 0 then 0.0 else s[0] + Sum(s[1..])
  }

  /** Summing a concatenation sums the parts. */
  lemma {:induction false} SumAppend(a: seq<real>, b: seq<real>)
    ensures Sum(a + b) == Sum(a) + Sum(b)
  {
    if |a| > 0 {
      assert (a + b)[0] == a[0];
      assert (a + b)[1..] == a[1..] + b;
      SumAppend(a[1..], b);
    } else {
      assert a + b == b;
    }
  }

  /** A sum of `|s|` values inside `[lo, hi]` lies between `|s| * lo` and
      `|s| * hi`. */
  lemma {:induction false} SumBounds(s: seq<real>, lo: real, hi: real)
    requires forall k :: 0 <= k < |s| ==> lo <= s[k] <= hi
    ensures (|s| as real) * lo <= Sum(s) <= (|s| as real) * hi
  {
    if |s| > 0 {
      SumBounds(s[1..], lo, hi);
      var m := (|s| - 1) as real;
      assert (|s| as real) * lo == m * lo + lo;
      assert (|s| as real) * hi == m * hi + hi;
    }
  }

  /** The average of a non-empty sequence of values inside `[lo, hi]` lies
      inside `[lo, hi]`. */
  lemma AverageBetween(s: seq<real>, lo: real, hi: real)
    requires |s| > 0 && forall k :: 0 <= k < |s| ==> lo <= s[k] <= hi
    ensures lo <= Sum(s) / (|s| as real) <= hi
  {
    SumBounds(s, lo, hi);
  }

  /** Bounds that hold for every entry of `g` hold for every entry of its
      flattening. */
  lemma {:induction false} FlattenBounded(g: Grid<real>, lo: real, hi: real)
    requires forall r, c :: 0 <= r < |g| && 0 <= c < |g[r]| ==> lo <= g[r][c] <= hi
    ensures forall k :: 0 <= k < |Flatten(g)| ==> lo <= Flatten(g)[k] <= hi
  {
    if |g| > 0 {
      assert forall r, c :: 0 <= r < |g[1..]| && 0 <= c < |g[1..][r]| ==> g[1..][r][c] == g[r + 1][c];
      FlattenBounded(g[1..], lo, hi);
      assert forall k :: 0 <= k < |g[0]| ==> lo <= g[0][k] <= hi;
    }
  }

  /** `g.min()` of a 2-D array with at least one entry in every row. */
  function GridMin(g: Grid<real>): (m: real)
    requires |g| > 0 && forall r :: 0 <= r < |g| ==> |g[r]| > 0
    ensures forall r, c :: 0 <= r < |g| && 0 <= c < |g[r]| ==> m <= g[r][c]
    ensures exists r, c :: 0 <= r < |g| && 0 <= c < |g[r]| && g[r][c] == m
  {
    var here := SeqMin(g[0]);
    if |g| == 1 then here
    else
      var rest := GridMin(g[1..]);
      assert forall r, c :: 1 <= r < |g| && 0 <= c < |g[r]| ==> g[r][c] == g[1..][r - 1][c];
      if here <= rest then here else rest
  }

  /** `g.max()` of a 2-D array with at least one entry in every row. */
  function GridMax(g: Grid<real>): (m: real)
    requires |g| > 0 && forall r :: 0 <= r < |g| ==> |g[r]| > 0
    ensures forall r, c :: 0 <= r < |g| && 0 <= c < |g[r]| ==> g[r][c] <= m
    ensures exists r, c :: 0 <= r < |g| && 0 <= c < |g[r]| && g[r][c] == m
  {
    var here := SeqMax(g[0]);
    if |g| == 1 then here
    else
      var rest := GridMax(g[1..]);
      assert forall r, c :: 1 <= r < |g| && 0 <= c < |g[r]| ==> g[r][c] == g[1..][r - 1][c];
      if here >= rest then here else rest
  }

  function SeqMin(s: seq<real>): (m: real)
    requires |s| > 0
    ensures forall k :: 0 <= k < |s| ==> m <= s[k]
    ensures exists k :: 0 <= k < |s| && s[k] == m
  {
    if |s| == 1 then s[0]
    else
      var rest := SeqMin(s[1..]);
      assert forall k :: 1 <= k < |s| ==> s[k] == s[1..][k - 1];
      if s[0] <= rest then s[0] else rest
  }

  function SeqMax(s: seq<real>): (m: real)
    requires |s| > 0
    ensures forall k :: 0 <= k < |s| ==> s[k] <= m
    ensures exists k :: 0 <= k < |s| && s[k] == m
  {
    if |s| == 1 then s[0]
    else
      var rest := SeqMax(s[1..]);
      assert forall k :: 1 <= k < |s| ==> s[k] == s[1..][k - 1];
      if s[0] >= rest then s[0] else rest
  }
}
