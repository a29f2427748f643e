/**
 The timing part of the tensor test harness: `timer` and `trantimer` run a
 kernel call (or, for trantimer, three chained calls) a fixed number of
 times, turn each measured cycle count into a rate of floating-point
 operations per cycle, keep the best rate, and complain through `crap`
 about any trial whose rate compares equal to zero.

 The cycle counter is not part of this model: the cycle counts of the
 trials are a parameter. The rate nflop / cycles is the IEEE quotient of a
 positive or zero operation count by a possibly zero or negative integer,
 so it is modelled with its two non-finite outcomes: a non-zero count over
 zero cycles is +infinity and zero over zero is NaN (no count here is
 negative, so -infinity cannot arise). The finite part is exact.
 */
module Bench {

  import opened Arith
  import opened Options
  import opened Grid

  /** Trials per timing loop. */
  const Trials: nat := 30

  /** A measured rate: a finite value, +infinity (work over zero cycles) or NaN (zero over zero). */
  datatype Speed = Finite(v: real) | Infinite | NotANumber

  /** What `crap` reports for a flagged trial: its index, the best rate before it and its cycle count. */
  datatype Complaint = Complaint(trial: nat, fastestSoFar: Speed, cycles: int)

  /** What `timer` and `trantimer` print: title, triple and the best rates of the kernel and of dgemm. */
  datatype Report = Report(title: string, at: Dims, fastest: Speed, fastestDgemm: Speed)

  /** Operations counted for one call: 2*ni*nj*nk. */
  function Flops(t: Dims): (r: nat)
    ensures r % 2 == 0
    ensures r > 0 <==> t.ni > 0 && t.nj > 0 && t.nk > 0
  {
    var volume := t.ni * t.nj * t.nk;
    ProductPositive(t.ni, t.nj);
    ProductPositive(t.ni * t.nj, t.nk);
    2 * volume
  }

  /** Operations counted for trantimer's three chained calls. */
  function TranFlops(t: Dims): (r: nat)
    ensures r == 6 * (t.ni * t.nj * t.nk)
    ensures r > 0 <==> Flops(t) > 0
  {
    3 * Flops(t)
  }

  /** The quotient nflop / cycles in IEEE terms. */
  function Rate(nflop: nat, cycles: int): (r: Speed)
    ensures r.Finite? <==> cycles != 0
    ensures r == Finite(0.0) <==> nflop == 0 && cycles != 0
    ensures r.Finite? && cycles > 0 ==> r.v >= 0.0
    ensures r.NotANumber? <==> nflop == 0 && cycles == 0
  {
    if cycles != 0 then Finite(nflop as real / cycles as real)
    else if nflop > 0 then Infinite
    else NotANumber
  }

  /** The IEEE comparison `x > y`: false whenever either side is NaN. */
  predicate Greater(x: Speed, y: Speed)
  {
    match (x, y)
    case (Finite(a), Finite(b)) => a > b
    case (Infinite, Finite(_)) => true
    case _ => false
  }

  /**
   The comparison is false whenever a NaN is involved and never holds
   against +infinity, while +infinity beats every finite rate.
   */
  lemma GreaterIeee(x: Speed, y: Speed)
    ensures Greater(x, y) ==> !x.NotANumber? && !y.NotANumber? && !y.Infinite?
    ensures x.Infinite? && y.Finite? ==> Greater(x, y)
  {
  }

  /** The rates of a run of trials with the given cycle counts. */
  function Speeds(nflop: nat, cycles: seq<int>): (s: seq<Speed>)
    ensures |s| == |cycles|
    ensures forall i :: 0 <= i < |cycles| ==> s[i] == Rate(nflop, cycles[i])
  {
    seq(|cycles|, i requires 0 <= i < |cycles| => Rate(nflop, cycles[i]))
  }

  /** Not NaN and not below zero. */
  predicate NonNegative(x: Speed)
  {
    x.Infinite? || (x.Finite? && x.v >= 0.0)
  }

  /**
   The fastest rate as the loop keeps it: start from 0.0 and take each rate
   that compares greater. The result is zero or one of the rates, and no
   rate compares greater than it.
   */
  function Best(s: seq<Speed>): (r: Speed)
    ensures NonNegative(r)
    ensures r == Finite(0.0) || exists i :: 0 <= i < |s| && s[i] == r
    ensures forall i :: 0 <= i < |s| ==> !Greater(s[i], r)
    decreases |s|
  {
    if |s| == 0 then Finite(0.0)
    else
      var f := Best(s[..|s| - 1]);
      var x := s[|s| - 1];
      assert forall i :: 0 <= i < |s| - 1 ==> s[i] == s[..|s| - 1][i];
      if Greater(x, f) then x else f
  }

  /**
   The best rate does not depend on the order of the trials: two runs with
   the same rates in any order keep the same best.
   */
  lemma BestOrderIndependent(s1: seq<Speed>, s2: seq<Speed>)
    requires multiset(s1) == multiset(s2)
    ensures Best(s1) == Best(s2)
  {
    var r1, r2 := Best(s1), Best(s2);
    if r1 != Finite(0.0) {
      var i :| 0 <= i < |s1| && s1[i] == r1;
      assert r1 in multiset(s2);
      var j :| 0 <= j < |s2| && s2[j] == r1;
    }
    if r2 != Finite(0.0) {
      var j :| 0 <= j < |s2| && s2[j] == r2;
      assert r2 in multiset(s1);
      var i :| 0 <= i < |s1| && s1[i] == r2;
    }
  }

  /**
   The complaints of a run, in trial order: one for each trial whose rate
   compares equal to zero, carrying the best rate of the trials before it.
   */
  function Complaints(s: seq<Speed>, cycles: seq<int>): (r: seq<Complaint>)
    requires |s| == |cycles|
    ensures |r| <= |s|
    decreases |s|
  {
    if |s| == 0 then []
    else
      var n := |s| - 1;
      Complaints(s[..n], cycles[..n]) + (if s[n] == Finite(0.0) then [Complaint(n, Best(s[..n]), cycles[n])] else [])
  }

  /** Every complaint names a trial whose rate is zero, with that trial's cycles and the best rate before it. */
  lemma {:induction false} ComplaintsSound(s: seq<Speed>, cycles: seq<int>, c: Complaint)
    requires |s| == |cycles|
    requires c in Complaints(s, cycles)
    ensures c.trial < |s| && s[c.trial] == Finite(0.0)
    ensures c.fastestSoFar == Best(s[..c.trial]) && c.cycles == cycles[c.trial]
    decreases |s|
  {
    var n := |s| - 1;
    if c in Complaints(s[..n], cycles[..n]) {
      ComplaintsSound(s[..n], cycles[..n], c);
      assert s[..n][..c.trial] == s[..c.trial];
    }
  }

  /** Every trial whose rate is zero draws a complaint. */
  lemma {:induction false} ComplaintsComplete(s: seq<Speed>, cycles: seq<int>, i: nat)
    requires |s| == |cycles|
    requires i < |s| && s[i] == Finite(0.0)
    ensures exists c :: c in Complaints(s, cycles) && c.trial == i
    decreases |s|
  {
    var n := |s| - 1;
    var r := Complaints(s, cycles);
    if i < n {
      ComplaintsComplete(s[..n], cycles[..n], i);
      var c :| c in Complaints(s[..n], cycles[..n]) && c.trial == i;
      assert c in r;
    } else {
      assert r[|r| - 1].trial == i;
    }
  }

  /** The complaints come in strictly increasing trial order. */
  lemma {:induction false} ComplaintsOrdered(s: seq<Speed>, cycles: seq<int>)
    requires |s| == |cycles|
    ensures forall p, q :: 0 <= p < q < |Complaints(s, cycles)| ==>
              Complaints(s, cycles)[p].trial < Complaints(s, cycles)[q].trial
    decreases |s|
  {
    if |s| > 0 {
      var n := |s| - 1;
      var init := Complaints(s[..n], cycles[..n]);
      var r := Complaints(s, cycles);
      ComplaintsOrdered(s[..n], cycles[..n]);
      forall p, q | 0 <= p < q < |r|
        ensures r[p].trial < r[q].trial
      {
        if q >= |init| {
          assert r[p] in init;
          ComplaintsSound(s[..n], cycles[..n], r[p]);
        }
      }
    }
  }

  /**
   A call that does work never draws a complaint: with a positive operation
   count no cycle count gives a rate equal to zero, so `crap` stays silent.
   */
  lemma NoComplaintsWithWork(nflop: nat, cycles: seq<int>)
    requires nflop > 0
    ensures Complaints(Speeds(nflop, cycles), cycles) == []
  {
    var r := Complaints(Speeds(nflop, cycles), cycles);
    if r != [] {
      ComplaintsSound(Speeds(nflop, cycles), cycles, r[0]);
    }
  }

  /**
   The loop of `timer` and `trantimer`: for each trial compute the rate,
   complain if it equals zero, and keep it if it beats the best so far.
   */
  method TimeTrials(nflop: nat, cycles: seq<int>) returns (fastest: Speed, complaints: seq<Complaint>)
    ensures fastest == Best(Speeds(nflop, cycles))
    ensures complaints == Complaints(Speeds(nflop, cycles), cycles)
  {
    var s := Speeds(nflop, cycles);
    fastest := Finite(0.0);
    complaints := [];
    var loop := 0;
    while loop < |cycles|
      invariant loop <= |cycles|
      invariant fastest == Best(s[..loop])
      invariant complaints == Complaints(s[..loop], cycles[..loop])
    {
      var rate := Rate(nflop, cycles[loop]);
      assert s[..loop + 1][..loop] == s[..loop];
      assert cycles[..loop + 1][..loop] == cycles[..loop];
      if rate == Finite(0.0) {
        complaints := complaints + [Complaint(loop, fastest, cycles[loop])];
      }
      if Greater(rate, fastest) {
        fastest := rate;
      }
      loop := loop + 1;
    }
    assert s[..loop] == s;
    assert cycles[..loop] == cycles;
  }

  /**
   `timer`: the kernel's trials, then, when the dgemm comparison is compiled
   in, dgemm's trials; without it the dgemm rate stays 0.0.
   */
  method Timer(title: string, t: Dims, cycles: seq<int>, dgemmCycles: Option<seq<int>>)
    returns (rep: Report, complaints: seq<Complaint>)
    requires |cycles| == Trials
    requires dgemmCycles.Some? ==> |dgemmCycles.value| == Trials
    ensures rep.title == title && rep.at == t
    ensures rep.fastest == Best(Speeds(Flops(t), cycles))
    ensures dgemmCycles.None? ==> rep.fastestDgemm == Finite(0.0) && complaints == Complaints(Speeds(Flops(t), cycles), cycles)
    ensures dgemmCycles.Some? ==> rep.fastestDgemm == Best(Speeds(Flops(t), dgemmCycles.value))
    ensures dgemmCycles.Some? ==> complaints == Complaints(Speeds(Flops(t), cycles), cycles) +
                                                 Complaints(Speeds(Flops(t), dgemmCycles.value), dgemmCycles.value)
  {
    var fastest, fastestDgemm := Finite(0.0), Finite(0.0);
    fastest, complaints := TimeTrials(Flops(t), cycles);
    if dgemmCycles.Some? {
      var more;
      fastestDgemm, more := TimeTrials(Flops(t), dgemmCycles.value);
      complaints := complaints + more;
    }
    rep := Report(title, t, fastest, fastestDgemm);
  }

  /** `trantimer`: as `timer`, but each trial is three chained calls and counts three calls' work. */
  method TranTimer(title: string, t: Dims, cycles: seq<int>, dgemmCycles: Option<seq<int>>)
    returns (rep: Report, complaints: seq<Complaint>)
    requires |cycles| == Trials
    requires dgemmCycles.Some? ==> |dgemmCycles.value| == Trials
    ensures rep.title == title && rep.at == t
    ensures rep.fastest == Best(Speeds(TranFlops(t), cycles))
    ensures dgemmCycles.None? ==> rep.fastestDgemm == Finite(0.0) && complaints == Complaints(Speeds(TranFlops(t), cycles), cycles)
    ensures dgemmCycles.Some? ==> rep.fastestDgemm == Best(Speeds(TranFlops(t), dgemmCycles.value))
    ensures dgemmCycles.Some? ==> complaints == Complaints(Speeds(TranFlops(t), cycles), cycles) +
                                                 Complaints(Speeds(TranFlops(t), dgemmCycles.value), dgemmCycles.value)
  {
    var fastest, fastestDgemm := Finite(0.0), Finite(0.0);
    fastest, complaints := TimeTrials(TranFlops(t), cycles);
    if dgemmCycles.Some? {
      var more;
      fastestDgemm, more := TimeTrials(TranFlops(t), dgemmCycles.value);
      complaints := complaints + more;
    }
    rep := Report(title, t, fastest, fastestDgemm);
  }

  /**
   For the same cycle count, a trantimer trial reports three times the rate
   of a timer trial on the same triple.
   */
  lemma TranRateIsThreeCalls(t: Dims, cycles: int)
    requires cycles != 0
    ensures Rate(TranFlops(t), cycles).v == 3.0 * Rate(Flops(t), cycles).v
  {
  }
}
