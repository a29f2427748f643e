/**
 The driver of the tensor test harness: four fixed-size buffers, the two
 generator fills of the inputs, the correctness sweep over its grid, and
 the four benchmark suites. Every kernel call the driver makes is listed
 with the buffer in each role, and each is shown to stay inside the
 buffers it touches and never to write a buffer it reads.
 */
module Driver {

  import opened Arith
  import opened Options
  import opened Grid
  import opened Kernel
  import opened Generator
  import opened Sweep

  /** Largest ni the buffers are sized for (30*30). */
  const NiMax: nat := 900
  /** Largest nj the buffers are sized for. */
  const NjMax: nat := 100
  /** Largest nk the buffers are sized for. */
  const NkMax: nat := 100

  /** The four buffers the driver allocates. */
  datatype Buffer = A | B | C | D

  /** Number of doubles allocated for each buffer. */
  function Capacity(buf: Buffer): nat
  {
    match buf
    case A => NkMax * NiMax
    case B => NkMax * NjMax
    case C => NiMax * NjMax
    case D => NiMax * NjMax
  }

  /** The buffers in the roles of a call `mTxmq(ni, nj, nk, out, left, right)`. */
  datatype Roles = Roles(out: Buffer, left: Buffer, right: Buffer)

  /** One kernel call of the driver. */
  datatype Call = Call(at: Dims, roles: Roles)

  /**
   A call is safe when it writes the leading ni*nj slots of its output,
   reads nk*ni slots of its left and nk*nj slots of its right operand, all
   within capacity, and writes neither operand.
   */
  predicate Safe(call: Call)
  {
    var t, r := call.at, call.roles;
    t.ni * t.nj <= Capacity(r.out) &&
    t.nk * t.ni <= Capacity(r.left) &&
    t.nk * t.nj <= Capacity(r.right) &&
    r.out != r.left && r.out != r.right
  }

  /** Every triple of ts, in order, with every role pattern of pat, in order. */
  function Each(ts: seq<Dims>, pat: seq<Roles>): (r: seq<Call>)
    ensures |r| == |ts| * |pat|
  {
    if |ts| == 0 then []
    else
      var first := seq(|pat|, p requires 0 <= p < |pat| => Call(ts[0], pat[p]));
      first + Each(ts[1..], pat)
  }

  /** Each makes exactly the calls pairing a triple of ts with a pattern of pat. */
  lemma {:induction false} EachMembers(ts: seq<Dims>, pat: seq<Roles>, call: Call)
    ensures call in Each(ts, pat) <==> call.at in ts && call.roles in pat
  {
    if |ts| > 0 {
      EachMembers(ts[1..], pat, call);
      assert ts == [ts[0]] + ts[1..];
      var first := seq(|pat|, p requires 0 <= p < |pat| => Call(ts[0], pat[p]));
      if call.at == ts[0] && call.roles in pat {
        var p :| 0 <= p < |pat| && pat[p] == call.roles;
        assert first[p] == call;
      }
    }
  }

  /** The sweep runs the reference into C and the kernel under test into D, both from A and B. */
  function SweepPattern(): seq<Roles> { [Roles(C, A, B), Roles(D, A, B)] }

  /** A timer trial: C from A and B. */
  function TimerPattern(): seq<Roles> { [Roles(C, A, B)] }

  /** A trantimer trial: C from A and B, then A from C and B, then C from A and B again. */
  function TranPattern(): seq<Roles> { [Roles(C, A, B), Roles(A, C, B), Roles(C, A, B)] }

  /** `for (ni=2; ni<60; ni+=2)`: the square suite (m, m, m). */
  function SquareSuite(): seq<Dims>
  {
    var ms := Steps(2, 60, 2);
    seq(|ms|, p requires 0 <= p < |ms| => Dims(ms[p], ms[p], ms[p]))
  }

  /** `for (m=2; m<=30; m+=2)`: the rectangular suite (m*m, m, m), also used by trantimer. */
  function RectSuite(): seq<Dims>
  {
    var ms := Steps(2, 31, 2);
    seq(|ms|, p requires 0 <= p < |ms| => Dims(ms[p] * ms[p], ms[p], ms[p]))
  }

  /** `for (m=2; m<=20; m+=2)`: the fixed-shape suite (400, m, 20). */
  function FixedSuite(): seq<Dims>
  {
    var ms := Steps(2, 21, 2);
    seq(|ms|, p requires 0 <= p < |ms| => Dims(400, ms[p], 20))
  }

  /**
   Every kernel call of the driver in program order: the sweep, then the
   square, rectangular, transpose and fixed-shape benchmarks. Each timing
   trial repeats its pattern with the same buffers, so one pattern per
   triple stands for all of its trials.
   */
  function DriverCalls(): (r: seq<Call>)
    ensures |r| == 2 * |SweepGrid()| + |SquareSuite()| + 4 * |RectSuite()| + |FixedSuite()|
  {
    Each(SweepGrid(), SweepPattern()) +
    Each(SquareSuite(), TimerPattern()) +
    Each(RectSuite(), TimerPattern()) +
    Each(RectSuite(), TranPattern()) +
    Each(FixedSuite(), TimerPattern())
  }

  /**
   The calls of the driver are exactly: the sweep's two calls per grid
   triple, one timer call per square, rectangular and fixed-shape triple,
   and trantimer's three calls per rectangular triple.
   */
  lemma DriverCallsMembers(call: Call)
    ensures call in DriverCalls() <==>
              (call.at in SweepGrid() && call.roles in SweepPattern()) ||
              (call.at in SquareSuite() && call.roles in TimerPattern()) ||
              (call.at in RectSuite() && (call.roles in TimerPattern() || call.roles in TranPattern())) ||
              (call.at in FixedSuite() && call.roles in TimerPattern())
  {
    EachMembers(SweepGrid(), SweepPattern(), call);
    EachMembers(SquareSuite(), TimerPattern(), call);
    EachMembers(RectSuite(), TimerPattern(), call);
    EachMembers(RectSuite(), TranPattern(), call);
    EachMembers(FixedSuite(), TimerPattern(), call);
  }

  /** The allocated sizes: 90000 doubles for A, C and D, 10000 for B. */
  lemma CapacityValues()
    ensures Capacity(A) == 90000 && Capacity(B) == 10000
    ensures Capacity(C) == 90000 && Capacity(D) == 90000
  {
  }

  /** Every triple of the sweep fits the capacities of all four buffers. */
  lemma SweepTripleFits(t: Dims)
    requires t in SweepGrid()
    ensures t.ni * t.nj <= 90000 && t.nk * t.ni <= 90000 && t.nk * t.nj <= 10000
  {
    SweepGridMembers(t);
    MulBoth(t.ni, t.nj, 60, 100);
    MulBoth(t.nk, t.ni, 100, 60);
    MulBoth(t.nk, t.nj, 100, 100);
  }

  /** The sweep's calls fit every buffer in both of its patterns. */
  lemma SweepCallsSafe(call: Call)
    requires call in Each(SweepGrid(), SweepPattern())
    ensures Safe(call)
  {
    EachMembers(SweepGrid(), SweepPattern(), call);
    SweepTripleFits(call.at);
    CapacityValues();
  }

  lemma SquareCallsSafe(call: Call)
    requires call in Each(SquareSuite(), TimerPattern())
    ensures Safe(call)
  {
    EachMembers(SquareSuite(), TimerPattern(), call);
    var ms := Steps(2, 60, 2);
    var p :| 0 <= p < |ms| && SquareSuite()[p] == call.at;
    StepsMembers(2, 60, 2, ms[p]);
    var m := ms[p];
    MulBoth(m, m, 60, 60);
    CapacityValues();
  }

  lemma RectCallsSafe(call: Call)
    requires call in Each(RectSuite(), TimerPattern()) || call in Each(RectSuite(), TranPattern())
    ensures Safe(call)
  {
    EachMembers(RectSuite(), TimerPattern(), call);
    EachMembers(RectSuite(), TranPattern(), call);
    var ms := Steps(2, 31, 2);
    var p :| 0 <= p < |ms| && RectSuite()[p] == call.at;
    StepsMembers(2, 31, 2, ms[p]);
    var m := ms[p];
    MulBoth(m, m, 30, 30);
    MulBoth(m * m, m, 900, 30);
    MulBoth(m, m * m, 30, 900);
    CapacityValues();
  }

  lemma FixedCallsSafe(call: Call)
    requires call in Each(FixedSuite(), TimerPattern())
    ensures Safe(call)
  {
    EachMembers(FixedSuite(), TimerPattern(), call);
    var ms := Steps(2, 21, 2);
    var p :| 0 <= p < |ms| && FixedSuite()[p] == call.at;
    StepsMembers(2, 21, 2, ms[p]);
    MulBoth(ms[p], 20, 20, 20);
    MulBoth(20, ms[p], 20, 20);
    CapacityValues();
  }

  /**
   No call of the driver reads or writes outside its buffers, and none
   writes a buffer it reads: the sizes chosen at allocation cover every
   suite, the transpose benchmark's role swap included.
   */
  lemma DriverCallsSafe()
    ensures forall call :: call in DriverCalls() ==> Safe(call)
  {
    forall call | call in DriverCalls()
      ensures Safe(call)
    {
      if call in Each(SweepGrid(), SweepPattern()) {
        SweepCallsSafe(call);
      } else if call in Each(SquareSuite(), TimerPattern()) {
        SquareCallsSafe(call);
      } else if call in Each(RectSuite(), TimerPattern()) || call in Each(RectSuite(), TranPattern()) {
        RectCallsSafe(call);
      } else {
        FixedCallsSafe(call);
      }
    }
  }

  /** The inputs the driver fills exactly cover the capacities of A and B, and fit every triple of the sweep. */
  lemma SweepInputsFit(a: seq<real>, b: seq<real>)
    requires |a| == Capacity(A) && |b| == Capacity(B)
    ensures FitsAll(SweepGrid(), a, b)
  {
    CapacityValues();
    forall t | t in SweepGrid()
      ensures InputsFit(t.ni, t.nj, t.nk, a, b)
    {
      SweepTripleFits(t);
    }
  }

  /**
   The driver up to the end of the sweep: fill A and then B from the
   generator, run the sweep against the reference with tolerance 1e-15, and
   exit with status 1 on the first failure or carry on (status 0) when every
   triple passes. The output buffers' initial contents do not matter.
   */
  method TestMain(kut: KernelUnderTest, c0: seq<real>, d0: seq<real>)
    returns (status: int, v: Option<Mismatch>)
    requires |c0| == Capacity(C) && |d0| == Capacity(D)
    ensures status == 0 || status == 1
    ensures status == 0 <==> v.None?
    ensures exists a, b :: a + b == Stream(Initial(), Capacity(A) + Capacity(B)) &&
                           |a| == Capacity(A) && FitsAll(SweepGrid(), a, b) &&
                           v == Verdict(SweepGrid(), a, b, kut, Tolerance)
  {
    var a, b, g := FillInputs(Capacity(A), Capacity(B));
    SweepInputsFit(a, b);
    CapacityValues();
    forall t | t in SweepGrid()
      ensures t.ni * t.nj <= |c0| && t.ni * t.nj <= |d0|
    {
      SweepTripleFits(t);
    }
    v := CorrectnessSweep(SweepGrid(), a, b, kut, Tolerance, c0, d0);
    status := if v.None? then 0 else 1;
    assert a + b == Stream(Initial(), Capacity(A) + Capacity(B)) && |a| == Capacity(A) &&
           FitsAll(SweepGrid(), a, b) && v == Verdict(SweepGrid(), a, b, kut, Tolerance);
  }
}
