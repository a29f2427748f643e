/**
 Dimension triples and the fixed, nested grids of them that the tensor test
 harness sweeps: `for (x = lo; x < hi; x += step)` loops, nested with ni
 outermost, then nj, then nk.
 */
module Grid {

  import opened Arith

  /** A dimension triple (ni, nj, nk) of one kernel call. */
  datatype Dims = Dims(ni: nat, nj: nat, nk: nat)

  /** How many times `for (x = lo; x < hi; x += step)` runs its body. */
  function Trips(lo: nat, hi: nat, step: nat): nat
    requires step > 0
  {
    if hi <= lo then 0 else (hi - lo - 1) / step + 1
  }

  /** The values `for (x = lo; x < hi; x += step)` visits, in order. */
  function Steps(lo: nat, hi: nat, step: nat): (r: seq<nat>)
    requires step > 0
    ensures |r| == Trips(lo, hi, step)
  {
    seq(Trips(lo, hi, step), p requires 0 <= p => lo + p * step)
  }

  /** The p-th trip of the loop sees a value below the bound exactly when p is below the trip count. */
  lemma TripBound(lo: nat, hi: nat, step: nat, p: nat)
    requires step > 0
    ensures p < Trips(lo, hi, step) <==> lo + p * step < hi
  {
    if lo < hi {
      var d := (hi - lo - 1) / step;
      var r := (hi - lo - 1) % step;
      assert hi - lo - 1 == d * step + r;
      if p <= d {
        MulMono(p, d, step);
      } else {
        MulMono(d + 1, p, step);
      }
    }
  }

  /** The loop visits exactly the values in [lo, hi) that are lo plus a multiple of step. */
  lemma StepsMembers(lo: nat, hi: nat, step: nat, x: nat)
    requires step > 0
    ensures x in Steps(lo, hi, step) <==> lo <= x < hi && (x - lo) % step == 0
  {
    var s := Steps(lo, hi, step);
    if x in s {
      var p :| 0 <= p < |s| && s[p] == x;
      TripBound(lo, hi, step, p);
      ModUnique(x - lo, p, step, 0);
    }
    if lo <= x < hi && (x - lo) % step == 0 {
      var p := (x - lo) / step;
      assert x - lo == p * step;
      TripBound(lo, hi, step, p);
      assert s[p] == x;
    }
  }

  /** The loop visits its values in strictly increasing order. */
  lemma StepsIncreasing(lo: nat, hi: nat, step: nat)
    requires step > 0
    ensures Increasing(Steps(lo, hi, step))
  {
    var s := Steps(lo, hi, step);
    forall p, q | 0 <= p < q < |s|
      ensures s[p] < s[q]
    {
      assert s[p] == lo + p * step && s[q] == lo + q * step;
      MulMono(p + 1, q, step);
    }
  }

  predicate Increasing(s: seq<nat>)
  {
    forall p, q :: 0 <= p < q < |s| ==> s[p] < s[q]
  }

  /** Strict lexicographic order on triples: ni first, then nj, then nk. */
  predicate LexBefore(s: Dims, t: Dims)
  {
    s.ni < t.ni || (s.ni == t.ni && (s.nj < t.nj || (s.nj == t.nj && s.nk < t.nk)))
  }

  predicate LexSorted(g: seq<Dims>)
  {
    forall p, q :: 0 <= p < q < |g| ==> LexBefore(g[p], g[q])
  }

  /** In a sorted run no element comes lexicographically before an element at or ahead of it. */
  lemma SortedNotBackward(g: seq<Dims>, q: nat, r: nat)
    requires LexSorted(g) && q <= r < |g|
    ensures !LexBefore(g[r], g[q])
  {
    if q < r {
      assert LexBefore(g[q], g[r]);
    }
  }

  /** The innermost loop: nk runs over kv for fixed ni and nj. */
  function Line(i: nat, j: nat, kv: seq<nat>): (r: seq<Dims>)
    ensures |r| == |kv|
    ensures forall p :: 0 <= p < |kv| ==> r[p] == Dims(i, j, kv[p])
  {
    seq(|kv|, p requires 0 <= p < |kv| => Dims(i, j, kv[p]))
  }

  /** The two inner loops: nj over jv, and for each nj, nk over kv. */
  function Plane(i: nat, jv: seq<nat>, kv: seq<nat>): seq<Dims>
  {
    if |jv| == 0 then [] else Line(i, jv[0], kv) + Plane(i, jv[1..], kv)
  }

  /** All three loops: ni over iv outermost, then nj over jv, then nk over kv. */
  function Nest(iv: seq<nat>, jv: seq<nat>, kv: seq<nat>): seq<Dims>
  {
    if |iv| == 0 then [] else Plane(iv[0], jv, kv) + Nest(iv[1..], jv, kv)
  }

  lemma {:induction false} PlaneMembers(i: nat, jv: seq<nat>, kv: seq<nat>, t: Dims)
    ensures t in Plane(i, jv, kv) <==> t.ni == i && t.nj in jv && t.nk in kv
  {
    if |jv| > 0 {
      PlaneMembers(i, jv[1..], kv, t);
      assert t in Line(i, jv[0], kv) <==> t.ni == i && t.nj == jv[0] && t.nk in kv by {
        if t.ni == i && t.nj == jv[0] && t.nk in kv {
          var p :| 0 <= p < |kv| && kv[p] == t.nk;
          assert Line(i, jv[0], kv)[p] == t;
        }
      }
      assert t.nj in jv <==> t.nj == jv[0] || t.nj in jv[1..] by {
        assert jv == [jv[0]] + jv[1..];
      }
    }
  }

  /** The nested loops visit exactly the triples whose components come from the three ranges. */
  lemma {:induction false} NestMembers(iv: seq<nat>, jv: seq<nat>, kv: seq<nat>, t: Dims)
    ensures t in Nest(iv, jv, kv) <==> t.ni in iv && t.nj in jv && t.nk in kv
  {
    if |iv| > 0 {
      NestMembers(iv[1..], jv, kv, t);
      PlaneMembers(iv[0], jv, kv, t);
      assert t.ni in iv <==> t.ni == iv[0] || t.ni in iv[1..] by {
        assert iv == [iv[0]] + iv[1..];
      }
    }
  }

  /** Concatenating two sorted runs, every element of the first before every element of the second, stays sorted. */
  lemma SortedConcat(x: seq<Dims>, y: seq<Dims>)
    requires LexSorted(x) && LexSorted(y)
    requires forall s, t :: s in x && t in y ==> LexBefore(s, t)
    ensures LexSorted(x + y)
  {
    var z := x + y;
    forall p, q | 0 <= p < q < |z|
      ensures LexBefore(z[p], z[q])
    {
      if q < |x| {
        assert z[p] == x[p] && z[q] == x[q];
      } else if p >= |x| {
        assert z[p] == y[p - |x|] && z[q] == y[q - |x|];
      } else {
        assert z[p] in x && z[q] in y;
      }
    }
  }

  lemma {:induction false} PlaneSorted(i: nat, jv: seq<nat>, kv: seq<nat>)
    requires Increasing(jv) && Increasing(kv)
    ensures LexSorted(Plane(i, jv, kv))
  {
    if |jv| > 0 {
      PlaneSorted(i, jv[1..], kv);
      var line := Line(i, jv[0], kv);
      var rest := Plane(i, jv[1..], kv);
      forall s, t | s in line && t in rest
        ensures LexBefore(s, t)
      {
        PlaneMembers(i, jv[1..], kv, t);
        var q :| 0 <= q < |jv[1..]| && jv[1..][q] == t.nj;
        assert jv[0] < jv[q + 1];
      }
      SortedConcat(line, rest);
    }
  }

  /** Nested loops over increasing ranges visit triples in strictly increasing lexicographic order. */
  lemma {:induction false} NestSorted(iv: seq<nat>, jv: seq<nat>, kv: seq<nat>)
    requires Increasing(iv) && Increasing(jv) && Increasing(kv)
    ensures LexSorted(Nest(iv, jv, kv))
  {
    if |iv| > 0 {
      NestSorted(iv[1..], jv, kv);
      PlaneSorted(iv[0], jv, kv);
      var plane := Plane(iv[0], jv, kv);
      var rest := Nest(iv[1..], jv, kv);
      forall s, t | s in plane && t in rest
        ensures LexBefore(s, t)
      {
        PlaneMembers(iv[0], jv, kv, s);
        NestMembers(iv[1..], jv, kv, t);
        var q :| 0 <= q < |iv[1..]| && iv[1..][q] == t.ni;
        assert iv[0] < iv[q + 1];
      }
      SortedConcat(plane, rest);
    }
  }

  /** First value, bound and stride of ni's loop in the sweep. */
  const NiLo: nat := 2
  const NiHi: nat := 60
  const NiStep: nat := 2
  /** First value, bound and stride of the nj and nk loops in the sweep. */
  const NjkLo: nat := 2
  const NjkHi: nat := 100
  const NjkStep: nat := 6

  /** `for (ni=2; ni<60; ni+=2)`. */
  function SweepNi(): seq<nat> { Steps(NiLo, NiHi, NiStep) }

  /** `for (nj=2; nj<100; nj+=6)`, and the same for nk. */
  function SweepNjk(): seq<nat> { Steps(NjkLo, NjkHi, NjkStep) }

  /** The correctness sweep's triples, in the order the three nested loops visit them. */
  function SweepGrid(): seq<Dims>
  {
    Nest(SweepNi(), SweepNjk(), SweepNjk())
  }

  /** Nested stepping loops visit exactly the triples whose components each lie on their loop's progression. */
  lemma NestOfStepsMembers(ilo: nat, ihi: nat, istep: nat, jlo: nat, jhi: nat, jstep: nat, t: Dims)
    requires istep > 0 && jstep > 0
    ensures t in Nest(Steps(ilo, ihi, istep), Steps(jlo, jhi, jstep), Steps(jlo, jhi, jstep)) <==>
              ilo <= t.ni < ihi && (t.ni - ilo) % istep == 0 &&
              jlo <= t.nj < jhi && (t.nj - jlo) % jstep == 0 &&
              jlo <= t.nk < jhi && (t.nk - jlo) % jstep == 0
  {
    NestMembers(Steps(ilo, ihi, istep), Steps(jlo, jhi, jstep), Steps(jlo, jhi, jstep), t);
    StepsMembers(ilo, ihi, istep, t.ni);
    StepsMembers(jlo, jhi, jstep, t.nj);
    StepsMembers(jlo, jhi, jstep, t.nk);
  }

  /** The sweep visits exactly ni in {2, 4, ..., 58} and nj, nk in {2, 8, ..., 98}. */
  lemma SweepGridMembers(t: Dims)
    ensures t in SweepGrid() <==>
              2 <= t.ni < 60 && t.ni % 2 == 0 &&
              2 <= t.nj < 100 && (t.nj - 2) % 6 == 0 &&
              2 <= t.nk < 100 && (t.nk - 2) % 6 == 0
  {
    NestOfStepsMembers(NiLo, NiHi, NiStep, NjkLo, NjkHi, NjkStep, t);
    if 2 <= t.ni {
      ModShift(t.ni - 2, 2);
    }
  }

  /** The sweep visits its triples in strictly increasing lexicographic order (ni outermost, nk innermost). */
  lemma SweepGridSorted()
    ensures LexSorted(SweepGrid())
  {
    StepsIncreasing(2, 60, 2);
    StepsIncreasing(2, 100, 6);
    NestSorted(SweepNi(), SweepNjk(), SweepNjk());
  }
}
