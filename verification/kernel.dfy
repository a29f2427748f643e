/**
 The reference transpose-multiply-accumulate kernel `mTxm` of the tensor
 test harness.

 Matrices are flat buffers: A is dimk rows by dimi columns (entry (k, i) at
 k*dimi + i), B is dimk rows by dimj columns (entry (k, j) at k*dimj + j) and
 C is dimi rows by dimj columns (entry (i, j) at i*dimj + j). The kernel adds
 the product transpose(A) * B into C; it never overwrites. Arithmetic is
 exact (`real`): double rounding is not part of this model.
 */
module Kernel {

  import opened Arith

  /** Row-major flat position of entry (row, col) in a matrix with `cols` columns. */
  function Idx(row: nat, col: nat, cols: nat): nat
  {
    row * cols + col
  }

  /** Every entry of a `rows` by `cols` matrix lies inside the first rows*cols slots. */
  lemma IdxBound(row: nat, col: nat, rows: nat, cols: nat)
    requires row < rows && col < cols
    ensures Idx(row, col, cols) < rows * cols
  {
    calc {
      Idx(row, col, cols);
    <
      row * cols + cols;
    ==
      (row + 1) * cols;
    <= { MulMono(row + 1, rows, cols); }
      rows * cols;
    }
  }

  /** Flat positions follow row order: every entry of an earlier row comes first. */
  lemma IdxOrder(r1: nat, c1: nat, r2: nat, c2: nat, cols: nat)
    requires c1 < cols && r1 < r2
    ensures Idx(r1, c1, cols) < Idx(r2, c2, cols)
  {
    MulMono(r1 + 1, r2, cols);
    assert (r1 + 1) * cols == r1 * cols + cols;
  }

  /** Distinct entries of a matrix occupy distinct flat positions. */
  lemma IdxInjective(r1: nat, c1: nat, r2: nat, c2: nat, cols: nat)
    requires c1 < cols && c2 < cols
    requires Idx(r1, c1, cols) == Idx(r2, c2, cols)
    ensures r1 == r2 && c1 == c2
  {
    if r1 < r2 {
      IdxOrder(r1, c1, r2, c2, cols);
      assert false;
    } else if r2 < r1 {
      IdxOrder(r2, c2, r1, c1, cols);
      assert false;
    }
  }

  /** A flat position below rows*cols splits back into its row and column. */
  lemma IdxSplit(p: nat, rows: nat, cols: nat)
    requires p < rows * cols
    ensures cols > 0 && p / cols < rows && p % cols < cols
    ensures Idx(p / cols, p % cols, cols) == p
  {
    if cols == 0 {
      assert false;
    }
    var q, r := p / cols, p % cols;
    assert p == q * cols + r;
    if q >= rows {
      MulMono(rows, q, cols);
      assert false;
    }
  }

  /** The flat position of an entry recovers its row and column by division. */
  lemma IdxDivMod(row: nat, col: nat, cols: nat)
    requires col < cols
    ensures Idx(row, col, cols) / cols == row
    ensures Idx(row, col, cols) % cols == col
  {
    var p := Idx(row, col, cols);
    var q, r := p / cols, p % cols;
    assert p == q * cols + r;
    IdxInjective(q, r, row, col, cols);
  }

  /** The input buffers hold a dimk by dimi matrix A and a dimk by dimj matrix B. */
  predicate InputsFit(dimi: nat, dimj: nat, dimk: nat, a: seq<real>, b: seq<real>)
  {
    |a| >= dimk * dimi && |b| >= dimk * dimj
  }

  /** All three buffers are large enough for a call with these extents. */
  predicate Fits(dimi: nat, dimj: nat, dimk: nat, c: seq<real>, a: seq<real>, b: seq<real>)
  {
    InputsFit(dimi, dimj, dimk, a, b) && |c| >= dimi * dimj
  }

  /** The partial contraction sum over the first `kk` rows: sum of A[k, i] * B[k, j] for k < kk. */
  function Dot(a: seq<real>, b: seq<real>, dimi: nat, dimj: nat, dimk: nat, i: nat, j: nat, kk: nat): real
    requires InputsFit(dimi, dimj, dimk, a, b)
    requires i < dimi && j < dimj && kk <= dimk
    decreases kk
  {
    if kk == 0 then 0.0
    else
      IdxBound(kk - 1, i, dimk, dimi);
      IdxBound(kk - 1, j, dimk, dimj);
      Dot(a, b, dimi, dimj, dimk, i, j, kk - 1) + a[Idx(kk - 1, i, dimi)] * b[Idx(kk - 1, j, dimj)]
  }

  /**
   The mathematical contract of the kernel as a function of the whole output
   buffer: entry (i, j) of the leading dimi*dimj region gains the full
   contraction sum, every later slot keeps its value.
   */
  function Accumulated(dimi: nat, dimj: nat, dimk: nat, c: seq<real>, a: seq<real>, b: seq<real>): (r: seq<real>)
    requires Fits(dimi, dimj, dimk, c, a, b)
    ensures |r| == |c|
  {
    seq(|c|, p requires 0 <= p < |c| =>
      if p < dimi * dimj then
        IdxSplit(p, dimi, dimj);
        c[p] + Dot(a, b, dimi, dimj, dimk, p / dimj, p % dimj, dimk)
      else c[p])
  }

  /** Accumulated, read through row and column: the accumulate law at entry (i, j). */
  lemma AccumulatedAt(dimi: nat, dimj: nat, dimk: nat, c: seq<real>, a: seq<real>, b: seq<real>, i: nat, j: nat)
    requires Fits(dimi, dimj, dimk, c, a, b)
    requires i < dimi && j < dimj
    ensures Idx(i, j, dimj) < |c|
    ensures Accumulated(dimi, dimj, dimk, c, a, b)[Idx(i, j, dimj)]
         == c[Idx(i, j, dimj)] + Dot(a, b, dimi, dimj, dimk, i, j, dimk)
  {
    IdxBound(i, j, dimi, dimj);
    IdxDivMod(i, j, dimj);
  }

  /** Which rows of the contraction entry (ii, jj) has absorbed when the loops stand at (k, j, i). */
  function Absorbed(k: nat, j: nat, i: nat, jj: nat, ii: nat): nat
  {
    if jj < j || (jj == j && ii < i) then k + 1 else k
  }

  /** Every entry of a `rows` by `cols` matrix lies inside the first rows*cols slots. */
  lemma IdxBoundAll(rows: nat, cols: nat)
    ensures forall r: nat, c: nat :: r < rows && c < cols ==> Idx(r, c, cols) < rows * cols
  {
    forall r: nat, c: nat | r < rows && c < cols
      ensures Idx(r, c, cols) < rows * cols
    {
      IdxBound(r, c, rows, cols);
    }
  }

  /**
   Entry (ii, jj) of cur holds its starting value in c plus the rows of its
   sum it has absorbed when the loops stand at (k, j, i).
   */
  ghost predicate EntryHolds(dimi: nat, dimj: nat, dimk: nat, c: seq<real>, a: seq<real>, b: seq<real>,
                             cur: seq<real>, k: nat, j: nat, i: nat, ii: nat, jj: nat)
    requires InputsFit(dimi, dimj, dimk, a, b)
    requires ii < dimi && jj < dimj
    requires k < dimk || (k == dimk && j == 0 && i == 0)
  {
    && Idx(ii, jj, dimj) < |c|
    && Idx(ii, jj, dimj) < |cur|
    && cur[Idx(ii, jj, dimj)] == c[Idx(ii, jj, dimj)] + Dot(a, b, dimi, dimj, dimk, ii, jj, Absorbed(k, j, i, jj, ii))
  }

  /**
   The state of the output buffer when the kernel's loops stand at (k, j, i):
   nothing outside the leading region has changed, and every entry of the
   region holds its starting value plus the rows of the sum it has absorbed.
   */
  ghost predicate Partial(dimi: nat, dimj: nat, dimk: nat, c: seq<real>, a: seq<real>, b: seq<real>,
                          cur: seq<real>, k: nat, j: nat, i: nat)
    requires Fits(dimi, dimj, dimk, c, a, b)
    requires k < dimk || (k == dimk && j == 0 && i == 0)
  {
    && |cur| == |c|
    && (forall p :: dimi * dimj <= p < |c| ==> cur[p] == c[p])
    && forall ii: nat, jj: nat :: ii < dimi && jj < dimj ==>
         EntryHolds(dimi, dimj, dimk, c, a, b, cur, k, j, i, ii, jj)
  }

  /** One innermost step of the kernel moves the loop state from (k, j, i) to (k, j, i + 1). */
  lemma PartialStep(dimi: nat, dimj: nat, dimk: nat, c: seq<real>, a: seq<real>, b: seq<real>,
                    cur: seq<real>, k: nat, j: nat, i: nat)
    requires Fits(dimi, dimj, dimk, c, a, b)
    requires k < dimk && j < dimj && i < dimi
    requires Partial(dimi, dimj, dimk, c, a, b, cur, k, j, i)
    ensures Idx(i, j, dimj) < |cur| && Idx(k, i, dimi) < |a| && Idx(k, j, dimj) < |b|
    ensures Partial(dimi, dimj, dimk, c, a, b,
                    cur[Idx(i, j, dimj) := cur[Idx(i, j, dimj)] + a[Idx(k, i, dimi)] * b[Idx(k, j, dimj)]],
                    k, j, i + 1)
  {
    IdxBound(i, j, dimi, dimj);
    IdxBound(k, i, dimk, dimi);
    IdxBound(k, j, dimk, dimj);
    var p := Idx(i, j, dimj);
    var term := a[Idx(k, i, dimi)] * b[Idx(k, j, dimj)];
    var next := cur[p := cur[p] + term];
    forall ii: nat, jj: nat {:trigger Idx(ii, jj, dimj)} | ii < dimi && jj < dimj
      ensures EntryHolds(dimi, dimj, dimk, c, a, b, next, k, j, i + 1, ii, jj)
    {
      assert EntryHolds(dimi, dimj, dimk, c, a, b, cur, k, j, i, ii, jj);
      if ii == i && jj == j {
        assert Dot(a, b, dimi, dimj, dimk, i, j, k + 1) == Dot(a, b, dimi, dimj, dimk, i, j, k) + term;
      } else {
        if Idx(ii, jj, dimj) == p {
          IdxInjective(ii, jj, i, j, dimj);
        }
      }
    }
  }

  /** Finishing the innermost loop over i moves the state to the next column j + 1. */
  lemma PartialNextColumn(dimi: nat, dimj: nat, dimk: nat, c: seq<real>, a: seq<real>, b: seq<real>,
                          cur: seq<real>, k: nat, j: nat)
    requires Fits(dimi, dimj, dimk, c, a, b)
    requires k < dimk && j < dimj
    requires Partial(dimi, dimj, dimk, c, a, b, cur, k, j, dimi)
    ensures Partial(dimi, dimj, dimk, c, a, b, cur, k, j + 1, 0)
  {
    forall ii: nat, jj: nat {:trigger Idx(ii, jj, dimj)} | ii < dimi && jj < dimj
      ensures EntryHolds(dimi, dimj, dimk, c, a, b, cur, k, j + 1, 0, ii, jj)
    {
      assert EntryHolds(dimi, dimj, dimk, c, a, b, cur, k, j, dimi, ii, jj);
    }
  }

  /** Finishing the loop over j moves the state to the next row k + 1. */
  lemma PartialNextRow(dimi: nat, dimj: nat, dimk: nat, c: seq<real>, a: seq<real>, b: seq<real>,
                       cur: seq<real>, k: nat)
    requires Fits(dimi, dimj, dimk, c, a, b)
    requires k < dimk
    requires Partial(dimi, dimj, dimk, c, a, b, cur, k, dimj, 0)
    ensures Partial(dimi, dimj, dimk, c, a, b, cur, k + 1, 0, 0)
  {
    forall ii: nat, jj: nat {:trigger Idx(ii, jj, dimj)} | ii < dimi && jj < dimj
      ensures EntryHolds(dimi, dimj, dimk, c, a, b, cur, k + 1, 0, 0, ii, jj)
    {
      assert EntryHolds(dimi, dimj, dimk, c, a, b, cur, k, dimj, 0, ii, jj);
    }
  }

  /** The innermost loop of mTxm for fixed k and j: i runs over the dimi entries of column j. */
  method AccumulateColumn(dimi: nat, dimj: nat, dimk: nat, c: seq<real>, a: seq<real>, b: seq<real>,
                          cur: seq<real>, k: nat, j: nat)
    returns (next: seq<real>)
    requires Fits(dimi, dimj, dimk, c, a, b)
    requires k < dimk && j < dimj
    requires Partial(dimi, dimj, dimk, c, a, b, cur, k, j, 0)
    ensures Partial(dimi, dimj, dimk, c, a, b, next, k, j + 1, 0)
  {
    next := cur;
    var i := 0;
    while i < dimi
      invariant i <= dimi
      invariant Partial(dimi, dimj, dimk, c, a, b, next, k, j, i)
    {
      PartialStep(dimi, dimj, dimk, c, a, b, next, k, j, i);
      var p := Idx(i, j, dimj);
      next := next[p := next[p] + a[Idx(k, i, dimi)] * b[Idx(k, j, dimj)]];
      i := i + 1;
    }
    PartialNextColumn(dimi, dimj, dimk, c, a, b, next, k, j);
  }

  /** The middle loop of mTxm for fixed k: j runs over the dimj columns. */
  method AccumulateRow(dimi: nat, dimj: nat, dimk: nat, c: seq<real>, a: seq<real>, b: seq<real>,
                       cur: seq<real>, k: nat)
    returns (next: seq<real>)
    requires Fits(dimi, dimj, dimk, c, a, b)
    requires k < dimk
    requires Partial(dimi, dimj, dimk, c, a, b, cur, k, 0, 0)
    ensures Partial(dimi, dimj, dimk, c, a, b, next, k + 1, 0, 0)
  {
    next := cur;
    var j := 0;
    while j < dimj
      invariant j <= dimj
      invariant Partial(dimi, dimj, dimk, c, a, b, next, k, j, 0)
    {
      next := AccumulateColumn(dimi, dimj, dimk, c, a, b, next, k, j);
      j := j + 1;
    }
    PartialNextRow(dimi, dimj, dimk, c, a, b, next, k);
  }

  /**
   The reference kernel mTxm: k outermost, then j, then i (the two inner
   loops are AccumulateRow and AccumulateColumn), each innermost step adding
   A[k, i] * B[k, j] into C[i, j]. The result is the input buffer with
   transpose(A) * B added into its leading dimi*dimj region.
   */
  method MTxm(dimi: nat, dimj: nat, dimk: nat, c: seq<real>, a: seq<real>, b: seq<real>)
    returns (c': seq<real>)
    requires Fits(dimi, dimj, dimk, c, a, b)
    ensures |c'| == |c|
    ensures forall i, j :: 0 <= i < dimi && 0 <= j < dimj ==>
              Idx(i, j, dimj) < |c| &&
              c'[Idx(i, j, dimj)] == c[Idx(i, j, dimj)] + Dot(a, b, dimi, dimj, dimk, i, j, dimk)
    ensures forall p :: dimi * dimj <= p < |c| ==> c'[p] == c[p]
    ensures c' == Accumulated(dimi, dimj, dimk, c, a, b)
  {
    c' := c;
    var k := 0;
    IdxBoundAll(dimi, dimj);
    while k < dimk
      invariant k <= dimk
      invariant Partial(dimi, dimj, dimk, c, a, b, c', k, 0, 0)
    {
      c' := AccumulateRow(dimi, dimj, dimk, c, a, b, c', k);
      k := k + 1;
    }
    PartialDone(dimi, dimj, dimk, c, a, b, c');
  }

  /** When the outer loop has run all dimk rows the buffer meets the kernel's contract. */
  lemma PartialDone(dimi: nat, dimj: nat, dimk: nat, c: seq<real>, a: seq<real>, b: seq<real>, cur: seq<real>)
    requires Fits(dimi, dimj, dimk, c, a, b)
    requires Partial(dimi, dimj, dimk, c, a, b, cur, dimk, 0, 0)
    ensures |cur| == |c|
    ensures forall i, j :: 0 <= i < dimi && 0 <= j < dimj ==>
              Idx(i, j, dimj) < |c| &&
              cur[Idx(i, j, dimj)] == c[Idx(i, j, dimj)] + Dot(a, b, dimi, dimj, dimk, i, j, dimk)
    ensures forall p :: dimi * dimj <= p < |c| ==> cur[p] == c[p]
    ensures cur == Accumulated(dimi, dimj, dimk, c, a, b)
  {
    forall i, j | 0 <= i < dimi && 0 <= j < dimj
      ensures Idx(i, j, dimj) < |c| && cur[Idx(i, j, dimj)] == c[Idx(i, j, dimj)] + Dot(a, b, dimi, dimj, dimk, i, j, dimk)
    {
      assert EntryHolds(dimi, dimj, dimk, c, a, b, cur, dimk, 0, 0, i, j);
    }
    forall p | 0 <= p < |c|
      ensures cur[p] == Accumulated(dimi, dimj, dimk, c, a, b)[p]
    {
      if p < dimi * dimj {
        IdxSplit(p, dimi, dimj);
        AccumulatedAt(dimi, dimj, dimk, c, a, b, p / dimj, p % dimj);
      }
    }
  }

  /** The first n slots of c set to zero, the rest kept (the sweep's clearing loop). */
  function ZeroPrefix(c: seq<real>, n: nat): (r: seq<real>)
    requires n <= |c|
    ensures |r| == |c|
    ensures forall p :: 0 <= p < n ==> r[p] == 0.0
    ensures forall p :: n <= p < |c| ==> r[p] == c[p]
  {
    seq(|c|, p requires 0 <= p < |c| => if p < n then 0.0 else c[p])
  }

  /** The product transpose(A) * B as a flat dimi by dimj matrix. */
  function Product(dimi: nat, dimj: nat, dimk: nat, a: seq<real>, b: seq<real>): (r: seq<real>)
    requires |a| >= dimk * dimi && |b| >= dimk * dimj
    ensures |r| == dimi * dimj
    ensures forall i, j :: 0 <= i < dimi && 0 <= j < dimj ==>
              Idx(i, j, dimj) < |r| && r[Idx(i, j, dimj)] == Dot(a, b, dimi, dimj, dimk, i, j, dimk)
  {
    var r := seq(dimi * dimj, p requires 0 <= p < dimi * dimj =>
      IdxSplit(p, dimi, dimj);
      Dot(a, b, dimi, dimj, dimk, p / dimj, p % dimj, dimk));
    assert forall i, j :: 0 <= i < dimi && 0 <= j < dimj ==>
        Idx(i, j, dimj) < |r| && r[Idx(i, j, dimj)] == Dot(a, b, dimi, dimj, dimk, i, j, dimk) by {
      forall i, j | 0 <= i < dimi && 0 <= j < dimj
        ensures Idx(i, j, dimj) < |r| && r[Idx(i, j, dimj)] == Dot(a, b, dimi, dimj, dimk, i, j, dimk)
      {
        IdxBound(i, j, dimi, dimj);
        IdxDivMod(i, j, dimj);
      }
    }
    r
  }

  /**
   Clearing the leading dimi*dimj slots and then accumulating leaves exactly
   transpose(A) * B there, whatever the buffer held before, and leaves the
   rest of the buffer untouched.
   */
  lemma ZeroedRunIsProduct(dimi: nat, dimj: nat, dimk: nat, c: seq<real>, a: seq<real>, b: seq<real>)
    requires Fits(dimi, dimj, dimk, c, a, b)
    ensures Accumulated(dimi, dimj, dimk, ZeroPrefix(c, dimi * dimj), a, b)[..dimi * dimj]
         == Product(dimi, dimj, dimk, a, b)
    ensures Accumulated(dimi, dimj, dimk, ZeroPrefix(c, dimi * dimj), a, b)[dimi * dimj..]
         == c[dimi * dimj..]
  {
    var n := dimi * dimj;
    var z := ZeroPrefix(c, n);
    var r := Accumulated(dimi, dimj, dimk, z, a, b);
    var pr := Product(dimi, dimj, dimk, a, b);
    forall p | 0 <= p < n
      ensures r[p] == pr[p]
    {
      IdxSplit(p, dimi, dimj);
      AccumulatedAt(dimi, dimj, dimk, z, a, b, p / dimj, p % dimj);
    }
  }

}
