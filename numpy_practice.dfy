/**
 * The three array exercises of NUMPY_practice.py, on two-dimensional
 * buffers updated in place:
 *   - a 10x10 grid of ones turned into a 0/1 checkerboard by two strided
 *     slice assignments;
 *   - the shape, element count, element size and byte size of a zero-filled
 *     1000x1000 buffer of 8-byte floats;
 *   - the first and last rows of a 4x5 buffer holding 0..19 swapped through
 *     a copy of one row.
 */
module NumpyPractice {

  // ---------------------------------------------------------------------
  // Checkerboard
  // ---------------------------------------------------------------------

  /** Index `k` is selected by the slice `start::2` along one axis. */
  predicate InStride(start: nat, k: nat) {
    start <= k && (k - start) % 2 == 0
  }

  /** The checkerboard rule: cell (i, j) holds 0 exactly when i + j is odd. */
  function ChessCell(i: nat, j: nat): int {
    if (i + j) % 2 == 1 then 0 else 1
  }

  /** `np.full((rows, cols), v)`: a fresh buffer with every cell set to `v`. */
  method Full(rows: nat, cols: nat, v: int) returns (a: array2<int>)
    ensures fresh(a) && a.Length0 == rows && a.Length1 == cols
    ensures forall i, j :: 0 <= i < rows && 0 <= j < cols ==> a[i, j] == v
  {
    a := new int[rows, cols]((i, j) => v);
  }

  /** `a[r0::2, c0::2] = v`: the cells on the strided rows and columns become `v`, the others keep their value. */
  method AssignStrided(a: array2<int>, r0: nat, c0: nat, v: int)
    modifies a
    ensures forall i, j :: 0 <= i < a.Length0 && 0 <= j < a.Length1 ==>
      a[i, j] == if InStride(r0, i) && InStride(c0, j) then v else old(a[i, j])
  {
    forall i, j | 0 <= i < a.Length0 && 0 <= j < a.Length1 && InStride(r0, i) && InStride(c0, j) {
      a[i, j] := v;
    }
  }

  /**
   * The two slices `1::2, ::2` (odd row, even column) and `::2, 1::2`
   * (even row, odd column) never share a cell, and together they are
   * exactly the cells whose coordinates sum to an odd number.
   */
  lemma StridesAreOddCells(i: nat, j: nat)
    ensures !(InStride(1, i) && InStride(0, j) && InStride(0, i) && InStride(1, j))
    ensures (InStride(1, i) && InStride(0, j)) || (InStride(0, i) && InStride(1, j)) <==> (i + j) % 2 == 1
  {
  }

  /** Horizontally and vertically adjacent cells differ; cells whose coordinates have the same parity hold 1. */
  lemma NeighboursDiffer(i: nat, j: nat)
    ensures ChessCell(i, j) + ChessCell(i + 1, j) == 1
    ensures ChessCell(i, j) + ChessCell(i, j + 1) == 1
    ensures i % 2 == j % 2 ==> ChessCell(i, j) == 1
  {
  }

  /** Lines 4-6: a 10x10 grid of ones, then zeros written on two strided slices. */
  method Checkerboard() returns (arr: array2<int>)
    ensures fresh(arr) && arr.Length0 == 10 && arr.Length1 == 10
    ensures forall i, j :: 0 <= i < 10 && 0 <= j < 10 ==> arr[i, j] == ChessCell(i, j)
    ensures arr[0, 0] == 1 && arr[1, 0] == 0 && arr[0, 1] == 0
  {
    arr := Full(10, 10, 1);
    AssignStrided(arr, 1, 0, 0);
    AssignStrided(arr, 0, 1, 0);
    forall i, j | 0 <= i < 10 && 0 <= j < 10 ensures arr[i, j] == ChessCell(i, j) {
      StridesAreOddCells(i, j);
    }
  }

  // ---------------------------------------------------------------------
  // Memory footprint
  // ---------------------------------------------------------------------

  /** The attributes `shape`, `ndim`, `size`, `itemsize` and `nbytes` of an array. */
  datatype ArrayInfo = ArrayInfo(shape: seq<nat>, ndim: nat, size: nat, itemsize: nat, nbytes: nat)

  /** Width of one `float64` element, in bytes. */
  const Float64Bytes: nat := 8

  /** The number of elements of an array of the given shape. */
  function Product(shape: seq<nat>): nat {
    if shape == [] then 1 else shape[0] * Product(shape[1..])
  }

  /** The attributes of a contiguous array of the given shape and element width. */
  function Describe(shape: seq<nat>, itemsize: nat): (info: ArrayInfo)
    ensures info.shape == shape && info.ndim == |shape| && info.itemsize == itemsize
    ensures info.nbytes == info.size * itemsize
    ensures |shape| == 2 ==> info.size == shape[0] * shape[1]
  {
    assert |shape| == 2 ==> Product(shape) == shape[0] * shape[1] by {
      if |shape| == 2 {
        assert shape == [shape[0], shape[1]];
        ProductOfPair(shape[0], shape[1]);
      }
    }
    ArrayInfo(shape, |shape|, Product(shape), itemsize, Product(shape) * itemsize)
  }

  /** Row-major position of cell (i, j) in a buffer with `cols` columns. */
  function FlatIndex(i: nat, j: nat, cols: nat): nat {
    i * cols + j
  }

  /**
   * Row-major layout is a bijection between the cells of a rows x cols
   * buffer and the positions 0 .. size - 1, and every element's `itemsize`
   * bytes lie inside the `nbytes` of the buffer.
   */
  lemma FlatIndexLayout(rows: nat, cols: nat, itemsize: nat, i: nat, j: nat)
    requires i < rows && j < cols
    ensures FlatIndex(i, j, cols) < Describe([rows, cols], itemsize).size
    ensures FlatIndex(i, j, cols) / cols == i && FlatIndex(i, j, cols) % cols == j
    ensures (FlatIndex(i, j, cols) + 1) * itemsize <= Describe([rows, cols], itemsize).nbytes
  {
    var k := FlatIndex(i, j, cols);
    ProductOfPair(rows, cols);
    assert k + 1 <= (i + 1) * cols;
    assert (i + 1) * cols <= rows * cols by {
      MulMono(i + 1, rows, cols);
    }
    LowerDiv(i, j, cols);
    MulMono(k + 1, rows * cols, itemsize);
  }

  lemma MulMono(a: nat, b: nat, c: nat)
    requires a <= b
    ensures a * c <= b * c
  {
  }

  lemma LowerDiv(i: nat, j: nat, cols: nat)
    requires j < cols
    ensures (i * cols + j) / cols == i && (i * cols + j) % cols == j
  {
    var k := i * cols + j;
    var q, m := k / cols, k % cols;
    assert q * cols + m == i * cols + j;
    if q > i {
      MulMono(i + 1, q, cols);
      assert false;
    } else if q < i {
      MulMono(q + 1, i, cols);
      assert false;
    }
  }

  /** A zero-filled `float64` buffer of the given shape and its attributes. */
  method Zeros(rows: nat, cols: nat) returns (m: array2<real>, info: ArrayInfo)
    ensures fresh(m) && m.Length0 == rows && m.Length1 == cols
    ensures forall i, j :: 0 <= i < rows && 0 <= j < cols ==> m[i, j] == 0.0
    ensures info.shape == [rows, cols] && info.ndim == 2
    ensures info.size == rows * cols && info.itemsize == Float64Bytes && info.nbytes == rows * cols * Float64Bytes
  {
    m := new real[rows, cols]((i, j) => 0.0);
    info := Describe([m.Length0, m.Length1], Float64Bytes);
  }

  lemma ProductOfPair(rows: nat, cols: nat)
    ensures Product([rows, cols]) == rows * cols
  {
    assert [rows, cols][1..] == [cols];
    assert Product([cols]) == cols * Product([]);
  }

  /** Lines 11-12: the script's 1000x1000 buffer and the figures it prints. */
  method FootprintExercise() returns (m: array2<real>, info: ArrayInfo)
    ensures m.Length0 == 1000 && m.Length1 == 1000
    ensures info == ArrayInfo([1000, 1000], 2, 1000000, 8, 8000000)
  {
    m, info := Zeros(1000, 1000);
  }

  // ---------------------------------------------------------------------
  // Row swap
  // ---------------------------------------------------------------------

  /** The contents of a two-dimensional buffer as a sequence of rows. */
  ghost function Grid(a: array2<int>): (g: seq<seq<int>>)
    reads a
    ensures |g| == a.Length0
    ensures forall i :: 0 <= i < |g| ==> |g[i]| == a.Length1
    ensures forall i, j :: 0 <= i < |g| && 0 <= j < a.Length1 ==> g[i][j] == a[i, j]
  {
    seq(a.Length0, i requires 0 <= i < a.Length0 reads a =>
      seq(a.Length1, j requires 0 <= j < a.Length1 reads a => a[i, j]))
  }

  /** A sequence of rows that agrees with the buffer cell by cell is its Grid. */
  lemma GridFromCells(a: array2<int>, g: seq<seq<int>>)
    requires |g| == a.Length0
    requires forall i :: 0 <= i < |g| ==> |g[i]| == a.Length1
    requires forall i, j :: 0 <= i < |g| && 0 <= j < a.Length1 ==> g[i][j] == a[i, j]
    ensures Grid(a) == g
  {
    forall i | 0 <= i < |g| ensures Grid(a)[i] == g[i] {
    }
  }

  /** Rows r and s exchanged, every other row kept. */
  function SwapRows<T>(g: seq<T>, r: nat, s: nat): (h: seq<T>)
    requires r < |g| && s < |g|
    ensures |h| == |g| && h[r] == g[s] && h[s] == g[r]
    ensures forall i :: 0 <= i < |g| && i != r && i != s ==> h[i] == g[i]
  {
    g[r := g[s]][s := g[r]]
  }

  /** `np.arange(0, rows * cols).reshape(rows, cols)`: each cell holds its row-major position. */
  method ArangeReshape(rows: nat, cols: nat) returns (a: array2<int>)
    ensures fresh(a) && a.Length0 == rows && a.Length1 == cols
    ensures forall i, j :: 0 <= i < rows && 0 <= j < cols ==> a[i, j] == FlatIndex(i, j, cols)
  {
    a := new int[rows, cols]((i, j) => if 0 <= i && 0 <= j then FlatIndex(i, j, cols) else 0);
  }

  /**
   * In the buffer `ArangeReshape` builds, each value 0 .. rows * cols - 1
   * sits in exactly one cell: row v / cols, column v % cols.
   */
  lemma ArangeHoldsEachValueOnce(rows: nat, cols: nat, v: nat)
    requires v < rows * cols
    ensures cols > 0 && v / cols < rows && v % cols < cols
    ensures FlatIndex(v / cols, v % cols, cols) == v
    ensures forall i: nat, j: nat :: i < rows && j < cols && FlatIndex(i, j, cols) == v ==> i == v / cols && j == v % cols
  {
    assert cols > 0;
    if v / cols >= rows {
      MulMono(rows, v / cols, cols);
      assert false;
    }
    forall i: nat, j: nat | i < rows && j < cols && FlatIndex(i, j, cols) == v ensures i == v / cols && j == v % cols {
      FlatIndexLayout(rows, cols, Float64Bytes, i, j);
    }
  }

  /** `a[r, :].copy()`: a fresh one-dimensional array holding row r. */
  method CopyRow(a: array2<int>, r: nat) returns (b: array<int>)
    requires r < a.Length0
    ensures fresh(b) && b[..] == Grid(a)[r]
  {
    b := new int[a.Length1](j requires 0 <= j < a.Length1 reads a => a[r, j]);
  }

  /** `a[dst, :] = a[src, :]`: row dst takes the values row src held before the assignment. */
  method AssignRowFromRow(a: array2<int>, dst: nat, src: nat)
    requires dst < a.Length0 && src < a.Length0
    modifies a
    ensures Grid(a) == old(Grid(a))[dst := old(Grid(a))[src]]
  {
    ghost var g := Grid(a);
    forall j | 0 <= j < a.Length1 {
      a[dst, j] := a[src, j];
    }
    GridFromCells(a, g[dst := g[src]]);
  }

  /** `a[dst, :] = b`: row dst takes the values of the one-dimensional array b. */
  method AssignRowFromArray(a: array2<int>, dst: nat, b: array<int>)
    requires dst < a.Length0 && b.Length == a.Length1
    modifies a
    ensures Grid(a) == old(Grid(a))[dst := b[..]]
  {
    ghost var g := Grid(a);
    forall j | 0 <= j < a.Length1 {
      a[dst, j] := b[j];
    }
    GridFromCells(a, g[dst := b[..]]);
  }

  /** Lines 19-21: swap rows r and s, saving row r in a copy before either row is overwritten. */
  method SwapRowsViaCopy(a: array2<int>, r: nat, s: nat)
    requires r < a.Length0 && s < a.Length0
    modifies a
    ensures Grid(a) == SwapRows(old(Grid(a)), r, s)
  {
    var b := CopyRow(a, r);
    AssignRowFromRow(a, r, s);
    AssignRowFromArray(a, s, b);
  }

  /** Lines 16-21: the 4x5 buffer 0..19 with its first and last rows swapped. */
  method RowSwapExercise() returns (a: array2<int>)
    ensures fresh(a) && a.Length0 == 4 && a.Length1 == 5
    ensures Grid(a) == [[15, 16, 17, 18, 19], [5, 6, 7, 8, 9], [10, 11, 12, 13, 14], [0, 1, 2, 3, 4]]
  {
    a := ArangeReshape(4, 5);
    GridFromCells(a, [[0, 1, 2, 3, 4], [5, 6, 7, 8, 9], [10, 11, 12, 13, 14], [15, 16, 17, 18, 19]]);
    SwapRowsViaCopy(a, 0, 3);
  }

  /** All elements of a buffer, row after row. */
  function Flatten<T>(g: seq<seq<T>>): seq<T> {
    if g == [] then [] else g[0] + Flatten(g[1..])
  }

  /** Replacing row i changes the multiset of elements by exactly the old and new row. */
  lemma {:induction false} FlattenUpdate<T>(g: seq<seq<T>>, i: nat, row: seq<T>)
    requires i < |g|
    ensures multiset(Flatten(g[i := row])) + multiset(g[i]) == multiset(Flatten(g)) + multiset(row)
  {
    var h := g[i := row];
    assert Flatten(g) == g[0] + Flatten(g[1..]);
    assert Flatten(h) == h[0] + Flatten(h[1..]);
    if i == 0 {
      assert h[1..] == g[1..];
    } else {
      var t := g[1..];
      FlattenUpdate(t, i - 1, row);
      assert h[1..] == t[i - 1 := row];
      assert t[i - 1] == g[i];
      assert multiset(Flatten(h)) == multiset(g[0]) + multiset(Flatten(h[1..]));
      assert multiset(Flatten(g)) == multiset(g[0]) + multiset(Flatten(t));
      assert multiset(Flatten(h[1..])) + multiset(g[i]) == multiset(Flatten(t)) + multiset(row);
      calc {
        multiset(Flatten(h)) + multiset(g[i]);
        (multiset(g[0]) + multiset(Flatten(h[1..]))) + multiset(g[i]);
        multiset(g[0]) + (multiset(Flatten(h[1..])) + multiset(g[i]));
        multiset(g[0]) + (multiset(Flatten(t)) + multiset(row));
        (multiset(g[0]) + multiset(Flatten(t))) + multiset(row);
        multiset(Flatten(g)) + multiset(row);
      }
    }
  }

  /** Swapping the same two rows again restores the buffer. */
  lemma SwapRowsInvolution<T>(g: seq<T>, r: nat, s: nat)
    requires r < |g| && s < |g|
    ensures SwapRows(SwapRows(g, r, s), r, s) == g
  {
  }

  /** Swapping two rows keeps the multiset of elements of the buffer. */
  lemma SwapRowsPermutes<T>(g: seq<seq<T>>, r: nat, s: nat)
    requires r < |g| && s < |g|
    ensures multiset(Flatten(SwapRows(g, r, s))) == multiset(Flatten(g))
  {
    var g1 := g[r := g[s]];
    var g2 := g1[s := g[r]];
    assert g2 == SwapRows(g, r, s);
    if r == s {
      assert g2 == g;
    } else {
      FlattenUpdate(g, r, g[s]);
      FlattenUpdate(g1, s, g[r]);
      assert g1[s] == g[s];
      MultisetCancel(multiset(Flatten(g2)), multiset(Flatten(g)), multiset(g[s]));
    }
  }

  lemma MultisetCancel<T>(a: multiset<T>, b: multiset<T>, c: multiset<T>)
    requires a + c == b + c
    ensures a == b
  {
    forall x ensures a[x] == b[x] {
      assert (a + c)[x] == (b + c)[x];
    }
  }

  /**
   * Without the copy, `a[r, :] = a[s, :]; a[s, :] = a[r, :]` leaves both
   * rows holding old row s: old row r is lost whenever the two rows differ.
   */
  function NaiveSwap<T>(g: seq<T>, r: nat, s: nat): seq<T>
    requires r < |g| && s < |g|
  {
    var g1 := g[r := g[s]];
    g1[s := g1[r]]
  }

  lemma NaiveSwapLosesRow<T>(g: seq<T>, r: nat, s: nat)
    requires r < |g| && s < |g|
    ensures NaiveSwap(g, r, s)[r] == NaiveSwap(g, r, s)[s] == g[s]
    ensures g[r] != g[s] ==> NaiveSwap(g, r, s) != SwapRows(g, r, s)
  {
    if g[r] != g[s] {
      assert SwapRows(g, r, s)[s] == g[r];
    }
  }
}
