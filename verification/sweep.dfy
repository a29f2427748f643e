/**
 The correctness sweep of the tensor test harness: for every dimension
 triple of a grid, clear the leading ni*nj slots of two output buffers, run
 the reference kernel into one and the kernel under test into the other,
 and compare them slot by slot. The first slot whose absolute difference
 exceeds the tolerance ends the run with a report of the triple and the
 error (the harness then exits with status 1); if no slot does, the sweep
 passes.

 The kernel under test is not part of this model. Since the input buffers
 stay the same for the whole sweep and the output is cleared before each
 call, it is represented by what it adds at each output slot for each
 triple: a function of the triple and the flat slot index.
 */
module Sweep {

  import opened Options
  import opened Grid
  import opened Kernel

  /** What the kernel under test adds at each flat output slot, for each dimension triple. */
  type KernelUnderTest = (Dims, nat) -> real

  /** The harness's threshold on the absolute difference, 1e-15. */
  const Tolerance: real := 0.000000000000001

  /** The report of a failed comparison: the triple and the error that exceeded the tolerance. */
  datatype Mismatch = Mismatch(at: Dims, err: real)

  /** Absolute value, as fabs computes it on exact values. */
  function Abs(x: real): (r: real)
    ensures r >= 0.0
    ensures r == x || r == -x
  {
    if x < 0.0 then -x else x
  }

  /** The shared input buffers are large enough for every triple of the grid. */
  predicate FitsAll(grid: seq<Dims>, a: seq<real>, b: seq<real>)
  {
    forall t :: t in grid ==> InputsFit(t.ni, t.nj, t.nk, a, b)
  }

  /** The leading ni*nj slots the kernel under test produces for triple t on a cleared buffer. */
  function Candidate(t: Dims, kut: KernelUnderTest): (r: seq<real>)
    ensures |r| == t.ni * t.nj
  {
    seq(t.ni * t.nj, p requires 0 <= p < t.ni * t.nj => kut(t, p))
  }

  /** The error the harness computes at slot p: |d[p] - c[p]|. */
  function Err(ref: seq<real>, out: seq<real>, p: nat): real
    requires p < |ref| && p < |out|
  {
    Abs(out[p] - ref[p])
  }

  /** Triple t fails when some slot of its output differs from the product by more than tol. */
  predicate Fails(t: Dims, a: seq<real>, b: seq<real>, kut: KernelUnderTest, tol: real)
    requires InputsFit(t.ni, t.nj, t.nk, a, b)
  {
    exists p :: 0 <= p < t.ni * t.nj && Err(Product(t.ni, t.nj, t.nk, a, b), Candidate(t, kut), p) > tol
  }

  /**
   The first slot at or after `from` whose error exceeds tol, scanning upward
   as the comparison loop does; None when every slot is within tol.
   */
  function FirstExcess(ref: seq<real>, out: seq<real>, tol: real, from: nat): (r: Option<nat>)
    requires |ref| == |out| && from <= |ref|
    ensures r.None? <==> forall p :: from <= p < |ref| ==> Err(ref, out, p) <= tol
    ensures r.Some? ==> from <= r.value < |ref| && Err(ref, out, r.value) > tol
    ensures r.Some? ==> forall p :: from <= p < r.value ==> Err(ref, out, p) <= tol
    decreases |ref| - from
  {
    if from == |ref| then None
    else if Err(ref, out, from) > tol then Some(from)
    else FirstExcess(ref, out, tol, from + 1)
  }

  /** A scan from `from` stops at p exactly when p is the first slot from there whose error exceeds tol. */
  lemma {:induction false} FirstExcessIs(ref: seq<real>, out: seq<real>, tol: real, from: nat, p: nat)
    requires |ref| == |out| && from <= p < |ref|
    requires Err(ref, out, p) > tol
    requires forall q :: from <= q < p ==> Err(ref, out, q) <= tol
    ensures FirstExcess(ref, out, tol, from) == Some(p)
    decreases p - from
  {
    if from < p {
      FirstExcessIs(ref, out, tol, from + 1, p);
    }
  }

  /** The report for one triple: None when it passes, otherwise the error at its first bad slot. */
  function Check(t: Dims, a: seq<real>, b: seq<real>, kut: KernelUnderTest, tol: real): (r: Option<Mismatch>)
    requires InputsFit(t.ni, t.nj, t.nk, a, b)
    ensures r.None? <==> !Fails(t, a, b, kut, tol)
    ensures r.Some? ==> r.value.at == t && r.value.err > tol
    ensures r.Some? ==> exists p :: 0 <= p < t.ni * t.nj && FirstBadSlot(t, a, b, kut, tol, p) &&
                                    r.value.err == Err(Product(t.ni, t.nj, t.nk, a, b), Candidate(t, kut), p)
  {
    var ref := Product(t.ni, t.nj, t.nk, a, b);
    var out := Candidate(t, kut);
    match FirstExcess(ref, out, tol, 0)
    case None => None
    case Some(p) => Some(Mismatch(t, Err(ref, out, p)))
  }

  /** Slot p of triple t is over tol and every earlier slot is within it. */
  predicate FirstBadSlot(t: Dims, a: seq<real>, b: seq<real>, kut: KernelUnderTest, tol: real, p: nat)
    requires InputsFit(t.ni, t.nj, t.nk, a, b)
  {
    var ref, out := Product(t.ni, t.nj, t.nk, a, b), Candidate(t, kut);
    p < t.ni * t.nj && Err(ref, out, p) > tol &&
    forall q :: 0 <= q < p ==> Err(ref, out, q) <= tol
  }

  /**
   The outcome of the whole sweep over `grid`, in visiting order: the report
   of the first failing triple, or None when every triple passes.
   */
  function Verdict(grid: seq<Dims>, a: seq<real>, b: seq<real>, kut: KernelUnderTest, tol: real): (v: Option<Mismatch>)
    requires FitsAll(grid, a, b)
    ensures v.None? <==> forall q :: 0 <= q < |grid| ==> !Fails(grid[q], a, b, kut, tol)
    ensures v.Some? ==> v.value.err > tol &&
                        exists q :: 0 <= q < |grid| && FirstFailure(grid, a, b, kut, tol, q) && v.value.at == grid[q] &&
                                    v == Check(grid[q], a, b, kut, tol)
  {
    if |grid| == 0 then None
    else
      var head := Check(grid[0], a, b, kut, tol);
      if head.Some? then
        assert FirstFailure(grid, a, b, kut, tol, 0);
        head
      else
        var rest := Verdict(grid[1..], a, b, kut, tol);
        if rest.Some? then
          var q :| 0 <= q < |grid[1..]| && FirstFailure(grid[1..], a, b, kut, tol, q) && rest.value.at == grid[1..][q] &&
                   rest == Check(grid[1..][q], a, b, kut, tol);
          assert FirstFailure(grid, a, b, kut, tol, q + 1) by {
            forall r | 0 <= r < q + 1
              ensures !Fails(grid[r], a, b, kut, tol)
            {
              if r > 0 {
                assert grid[r] == grid[1..][r - 1];
              }
            }
          }
          assert rest.value.at == grid[q + 1];
          rest
        else
          assert forall q :: 0 <= q < |grid| ==> !Fails(grid[q], a, b, kut, tol) by {
            forall q | 0 <= q < |grid|
              ensures !Fails(grid[q], a, b, kut, tol)
            {
              if q > 0 {
                assert grid[q] == grid[1..][q - 1];
              }
            }
          }
          rest
  }

  /** Position q of the grid fails and every earlier position passes. */
  predicate FirstFailure(grid: seq<Dims>, a: seq<real>, b: seq<real>, kut: KernelUnderTest, tol: real, q: nat)
    requires FitsAll(grid, a, b)
  {
    q < |grid| && Fails(grid[q], a, b, kut, tol) &&
    forall r :: 0 <= r < q ==> !Fails(grid[r], a, b, kut, tol)
  }

  /**
   A kernel under test that adds exactly the product passes the sweep at
   any non-negative tolerance, the harness's 1e-15 included.
   */
  lemma ConformingKernelPasses(grid: seq<Dims>, a: seq<real>, b: seq<real>, kut: KernelUnderTest, tol: real)
    requires FitsAll(grid, a, b)
    requires tol >= 0.0
    requires forall t, p :: t in grid && 0 <= p < t.ni * t.nj ==>
               InputsFit(t.ni, t.nj, t.nk, a, b) && kut(t, p) == Product(t.ni, t.nj, t.nk, a, b)[p]
    ensures Verdict(grid, a, b, kut, tol) == None
  {
    forall q | 0 <= q < |grid|
      ensures !Fails(grid[q], a, b, kut, tol)
    {
      var t := grid[q];
      forall p | 0 <= p < t.ni * t.nj
        ensures Err(Product(t.ni, t.nj, t.nk, a, b), Candidate(t, kut), p) <= tol
      {
        assert kut(t, p) == Product(t.ni, t.nj, t.nk, a, b)[p];
      }
    }
  }

  /**
   On a grid visited in increasing lexicographic order, a reported triple is
   the lexicographically smallest failing one: every triple of the grid
   before it passes.
   */
  lemma VerdictIsLexFirst(grid: seq<Dims>, a: seq<real>, b: seq<real>, kut: KernelUnderTest, tol: real, s: Dims)
    requires FitsAll(grid, a, b)
    requires LexSorted(grid)
    requires Verdict(grid, a, b, kut, tol).Some?
    requires s in grid && LexBefore(s, Verdict(grid, a, b, kut, tol).value.at)
    ensures !Fails(s, a, b, kut, tol)
  {
    var v := Verdict(grid, a, b, kut, tol);
    var q :| 0 <= q < |grid| && FirstFailure(grid, a, b, kut, tol, q) && v.value.at == grid[q];
    var r :| 0 <= r < |grid| && grid[r] == s;
    if q <= r {
      SortedNotBackward(grid, q, r);
    }
  }

  /** The kernel under test run into buffer d for triple t: its contribution added to the leading ni*nj slots. */
  function RunKernel(t: Dims, kut: KernelUnderTest, d: seq<real>): (r: seq<real>)
    requires t.ni * t.nj <= |d|
    ensures |r| == |d|
    ensures forall p :: 0 <= p < t.ni * t.nj ==> r[p] == d[p] + kut(t, p)
    ensures forall p :: t.ni * t.nj <= p < |d| ==> r[p] == d[p]
  {
    seq(|d|, p requires 0 <= p < |d| => if p < t.ni * t.nj then d[p] + kut(t, p) else d[p])
  }

  /**
   The comparison loop: `for (i=0; i<ni*nj; i++)` computing |d[i] - c[i]|
   and stopping at the first error above tol.
   */
  method Compare(n: nat, c: seq<real>, d: seq<real>, tol: real) returns (r: Option<nat>)
    requires n <= |c| && n <= |d|
    ensures r.None? <==> forall p :: 0 <= p < n ==> Abs(d[p] - c[p]) <= tol
    ensures r.Some? ==> r.value < n && Abs(d[r.value] - c[r.value]) > tol &&
                        forall p :: 0 <= p < r.value ==> Abs(d[p] - c[p]) <= tol
  {
    var i := 0;
    while i < n
      invariant i <= n
      invariant forall p :: 0 <= p < i ==> Abs(d[p] - c[p]) <= tol
    {
      var err := Abs(d[i] - c[i]);
      if err > tol {
        return Some(i);
      }
      i := i + 1;
    }
    return None;
  }

  /**
   The two kernel runs of one triple: clear the leading ni*nj slots of both
   buffers, run the reference into c and the kernel under test into d. The
   leading slots then hold the product and the candidate, whatever the
   buffers held before, and the buffers keep their lengths.
   */
  method RunBoth(t: Dims, a: seq<real>, b: seq<real>, kut: KernelUnderTest, c: seq<real>, d: seq<real>)
    returns (c': seq<real>, d': seq<real>)
    requires InputsFit(t.ni, t.nj, t.nk, a, b)
    requires t.ni * t.nj <= |c| && t.ni * t.nj <= |d|
    ensures |c'| == |c| && |d'| == |d|
    ensures c'[..t.ni * t.nj] == Product(t.ni, t.nj, t.nk, a, b)
    ensures d'[..t.ni * t.nj] == Candidate(t, kut)
  {
    var n := t.ni * t.nj;
    c' := ZeroPrefix(c, n);
    d' := ZeroPrefix(d, n);
    ZeroedRunIsProduct(t.ni, t.nj, t.nk, c', a, b);
    c' := MTxm(t.ni, t.nj, t.nk, c', a, b);
    d' := RunKernel(t, kut, d');
  }

  /**
   One triple of the sweep: both kernel runs, then the comparison. The
   report is the triple's check, whatever the buffers held before.
   */
  method SweepStep(t: Dims, a: seq<real>, b: seq<real>, kut: KernelUnderTest, tol: real,
                   c: seq<real>, d: seq<real>)
    returns (r: Option<Mismatch>, c': seq<real>, d': seq<real>)
    requires InputsFit(t.ni, t.nj, t.nk, a, b)
    requires t.ni * t.nj <= |c| && t.ni * t.nj <= |d|
    ensures |c'| == |c| && |d'| == |d|
    ensures r.None? <==> !Fails(t, a, b, kut, tol)
    ensures r == Check(t, a, b, kut, tol)
  {
    var n := t.ni * t.nj;
    c', d' := RunBoth(t, a, b, kut, c, d);
    var ref, out := c'[..n], d'[..n];
    var bad := Compare(n, c', d', tol);
    assert forall p :: 0 <= p < n ==> Abs(d'[p] - c'[p]) == Err(ref, out, p);
    if bad.Some? {
      FirstExcessIs(ref, out, tol, 0, bad.value);
      r := Some(Mismatch(t, Abs(d'[bad.value] - c'[bad.value])));
    } else {
      r := None;
    }
  }

  /** A suffix of a grid that fits the inputs fits them too. */
  lemma FitsSuffix(grid: seq<Dims>, a: seq<real>, b: seq<real>, g: nat)
    requires FitsAll(grid, a, b) && g <= |grid|
    ensures FitsAll(grid[g..], a, b)
  {
    forall t | t in grid[g..]
      ensures InputsFit(t.ni, t.nj, t.nk, a, b)
    {
      var q :| 0 <= q < |grid[g..]| && grid[g..][q] == t;
      assert grid[g + q] == t;
    }
  }

  /** The verdict from position g is the check of grid[g] when that fails, and the verdict from g + 1 otherwise. */
  lemma VerdictFrom(grid: seq<Dims>, a: seq<real>, b: seq<real>, kut: KernelUnderTest, tol: real, g: nat)
    requires FitsAll(grid, a, b) && g < |grid|
    ensures FitsAll(grid[g..], a, b) && FitsAll(grid[g + 1..], a, b)
    ensures InputsFit(grid[g].ni, grid[g].nj, grid[g].nk, a, b)
    ensures Verdict(grid[g..], a, b, kut, tol) ==
              if Check(grid[g], a, b, kut, tol).Some? then Check(grid[g], a, b, kut, tol)
              else Verdict(grid[g + 1..], a, b, kut, tol)
  {
    FitsSuffix(grid, a, b, g);
    FitsSuffix(grid, a, b, g + 1);
    assert grid[g] in grid;
    assert grid[g..][0] == grid[g];
    assert grid[g..][1..] == grid[g + 1..];
  }

  /**
   The sweep as the harness runs it, threading the two output buffers
   through the grid and stopping at the first failure. Its outcome is the
   verdict, whatever the buffers held on entry.
   */
  method CorrectnessSweep(grid: seq<Dims>, a: seq<real>, b: seq<real>, kut: KernelUnderTest, tol: real,
                          c0: seq<real>, d0: seq<real>)
    returns (v: Option<Mismatch>)
    requires FitsAll(grid, a, b)
    requires forall t :: t in grid ==> t.ni * t.nj <= |c0| && t.ni * t.nj <= |d0|
    ensures v.None? <==> forall q :: 0 <= q < |grid| ==> !Fails(grid[q], a, b, kut, tol)
    ensures v == Verdict(grid, a, b, kut, tol)
  {
    var c, d := c0, d0;
    var g := 0;
    while g < |grid|
      invariant g <= |grid|
      invariant |c| == |c0| && |d| == |d0|
      invariant FitsAll(grid[g..], a, b)
      invariant Verdict(grid, a, b, kut, tol) == Verdict(grid[g..], a, b, kut, tol)
    {
      var t := grid[g];
      assert t in grid;
      VerdictFrom(grid, a, b, kut, tol, g);
      var report;
      report, c, d := SweepStep(t, a, b, kut, tol, c, d);
      if report.Some? {
        return report;
      }
      g := g + 1;
    }
    return None;
  }
}
