/**
 The deterministic data generator `ran` / `ran_fill` of the tensor test
 harness: a linear congruential generator over an unsigned machine word.

 The function-static seed of `ran` is an explicit state here, passed in
 and returned. The word width is a parameter W: `unsigned long` is 64 bits on
 LP64 targets, which is what `ran` uses. Taking the low 31 bits of an
 unsigned value (`seed & 0x7fffffff`) is the same as its remainder modulo
 2^31, which is how the mask is written here.
 */
module Generator {

  import opened Arith

  /** Multiplier of the congruential update. */
  const Multiplier: nat := 1812433253
  /** Increment of the congruential update. */
  const Increment: nat := 12345
  /** The value the static seed starts from. */
  const InitialSeed: nat := 76521
  /** Width in bits of `unsigned long` on LP64 targets. */
  const LongBits: nat := 64
  /** 2^31: the mask 0x7fffffff keeps exactly the residue modulo this. */
  const OutputModulus: nat := 0x8000_0000

  function Pow2(w: nat): (r: nat)
    ensures r >= 1
  {
    if w == 0 then 1 else 2 * Pow2(w - 1)
  }

  /** 2^(x + y) splits as 2^x * 2^y. */
  lemma {:induction false} Pow2Add(x: nat, y: nat)
    ensures Pow2(x + y) == Pow2(x) * Pow2(y)
  {
    if x > 0 {
      Pow2Add(x - 1, y);
      assert Pow2(x + y) == 2 * Pow2(x - 1 + y);
    }
  }

  /** The two powers of two the generator uses: the output modulus and the LP64 word size. */
  lemma Pow2Constants()
    ensures Pow2(31) == OutputModulus
    ensures Pow2(LongBits) == 0x1_0000_0000_0000_0000
  {
    assert Pow2(8) == 256;
    assert Pow2(7) == 128;
    Pow2Add(8, 8);
    assert Pow2(16) == 65536;
    Pow2Add(8, 7);
    assert Pow2(15) == 32768;
    Pow2Add(16, 15);
    Pow2Add(16, 16);
    assert Pow2(32) == 0x1_0000_0000;
    Pow2Add(32, 32);
  }

  /** One congruential update on a W-bit word: seed * Multiplier + Increment, wrapped. */
  function NextSeed(w: nat, seed: nat): (s: nat)
    ensures s < Pow2(w)
  {
    (seed * Multiplier + Increment) % Pow2(w)
  }

  /** The integer ran() emits for a state: its low 31 bits. */
  function Low31(seed: nat): (x: nat)
    ensures x < OutputModulus
  {
    seed % OutputModulus
  }

  /** The seed after t updates on a W-bit word, starting from `seed`. */
  function SeedAfter(w: nat, seed: nat, t: nat): nat
  {
    if t == 0 then seed else NextSeed(w, SeedAfter(w, seed, t - 1))
  }

  /** One more update on top of t updates. */
  lemma SeedAfterStep(w: nat, seed: nat, t: nat)
    ensures SeedAfter(w, seed, t + 1) == NextSeed(w, SeedAfter(w, seed, t))
  {
  }

  /**
   The low 31 bits of one update on a word of at least 31 bits depend only
   on the low 31 bits of the seed: the update may as well run on a 31-bit word.
   */
  lemma NextSeedLow31(w: nat, seed: nat)
    requires w >= 31
    ensures Low31(NextSeed(w, seed)) == NextSeed(31, Low31(seed))
  {
    Pow2Constants();
    var x := seed * Multiplier + Increment;
    var q, r := seed / OutputModulus, seed % OutputModulus;
    assert seed == q * OutputModulus + r;
    assert x == (q * Multiplier) * OutputModulus + (r * Multiplier + Increment);
    var y := r * Multiplier + Increment;
    var d, e := y / OutputModulus, y % OutputModulus;
    assert y == d * OutputModulus + e;
    assert x == (q * Multiplier + d) * OutputModulus + e;
    ModUnique(x, q * Multiplier + d, OutputModulus, e);
    Pow2Add(31, w - 31);
    ModOfMod(x, OutputModulus, Pow2(w - 31));
  }

  /** After t updates on a word of at least 31 bits, the low 31 bits are those of t updates on a 31-bit word. */
  lemma {:induction false} SeedAfterLow31(w: nat, seed: nat, t: nat)
    requires w >= 31
    ensures Low31(SeedAfter(w, seed, t)) == SeedAfter(31, Low31(seed), t)
  {
    if t > 0 {
      SeedAfterLow31(w, seed, t - 1);
      NextSeedLow31(w, SeedAfter(w, seed, t - 1));
    }
  }

  /**
   The emitted 31-bit integers do not depend on the word width, as long as
   the word holds at least 31 bits: from the same seed, a 32-bit and a
   64-bit `unsigned long` produce the same stream of integers, at every
   call and not just the first.
   */
  lemma LowBitsIndependentOfWidth(w1: nat, w2: nat, seed: nat, t: nat)
    requires w1 >= 31 && w2 >= 31
    ensures Low31(SeedAfter(w1, seed, t)) == Low31(SeedAfter(w2, seed, t))
  {
    SeedAfterLow31(w1, seed, t);
    SeedAfterLow31(w2, seed, t);
  }

  /** The generator state: the current value of the static seed. */
  datatype Rng = Rng(seed: nat)

  /** The state before the first call. */
  function Initial(): Rng
  {
    Rng(InitialSeed)
  }

  /** The state after `t` calls of ran(). */
  function After(g: Rng, t: nat): Rng
  {
    Rng(SeedAfter(LongBits, g.seed, t))
  }

  /** Running t calls and then u more calls is running t + u calls. */
  lemma {:induction false} AfterAdd(g: Rng, t: nat, u: nat)
    ensures After(After(g, t), u) == After(g, t + u)
  {
    if u > 0 {
      AfterAdd(g, t, u - 1);
    }
  }

  /** The double ran() is meant to return for an emitted integer: x / 2^31. */
  function Scaled(x: nat): (r: real)
    requires x < OutputModulus
    ensures 0.0 <= r < 1.0
  {
    x as real / OutputModulus as real
  }

  /** The scale factor as `ran` writes it (a rounding of 1 / (2^31 - 1)). */
  const WrittenScale: real := 0.00000000046566128752458

  /** The double ran() returns as written: x times the written scale factor. */
  function ScaledAsWritten(x: nat): (r: real)
    ensures r >= 0.0
    ensures 0 < x < OutputModulus ==> r > Scaled(x)
  {
    x as real * WrittenScale
  }

  /**
   As written, the scale factor is slightly larger than 1 / (2^31 - 1), so
   the largest emitted integer maps above 1; every smaller integer stays
   below 1. The generator can emit that integer: the seed 1595832142 steps
   to a state whose low 31 bits are all ones.
   */
  lemma WrittenScaleLeavesUnitInterval()
    ensures Low31(NextSeed(LongBits, 1595832142)) == OutputModulus - 1
    ensures ScaledAsWritten(OutputModulus - 1) > 1.0
    ensures forall x: nat :: x < OutputModulus - 1 ==> ScaledAsWritten(x) < 1.0
  {
    Pow2Constants();
    forall x: nat | x < OutputModulus - 1
      ensures ScaledAsWritten(x) < 1.0
    {
      assert x as real <= (OutputModulus - 2) as real;
    }
  }

  /**
   The ratio of the written scale factor to the corrected one, 1/2^31: a
   little above 1, and within 1e-9 of it.
   */
  const ScaleRatio: real := WrittenScale * OutputModulus as real

  /**
   The as-written value of every integer is its corrected value times the
   same constant ratio, so the two versions of the stream differ only by
   that common factor.
   */
  lemma WrittenIsScaledByRatio(x: nat)
    requires x < OutputModulus
    ensures ScaledAsWritten(x) == Scaled(x) * ScaleRatio
    ensures 1.0 < ScaleRatio < 1.000000001
  {
  }

  /** One call of ran(): advance the state, then scale its low 31 bits. */
  function Ran(g: Rng): (r: (real, Rng))
    ensures r.1 == After(g, 1)
    ensures r.1.seed == NextSeed(LongBits, g.seed)
    ensures r.0 == Draw(g, 0)
    ensures 0.0 <= r.0 < 1.0
  {
    SeedAfterStep(LongBits, g.seed, 0);
    var next := Rng(NextSeed(LongBits, g.seed));
    (Scaled(Low31(next.seed)), next)
  }

  /** The value the t-th call (counting from 0) returns, starting from state g. */
  function Draw(g: Rng, t: nat): (r: real)
    ensures 0.0 <= r < 1.0
  {
    Scaled(Low31(After(g, t + 1).seed))
  }

  /** The first n values drawn from state g, in order. */
  function Stream(g: Rng, n: nat): (s: seq<real>)
    ensures |s| == n
    ensures forall t :: 0 <= t < n ==> s[t] == Draw(g, t)
  {
    seq(n, t requires 0 <= t < n => Draw(g, t))
  }

  /**
   Filling n slots and then m slots from where the first fill left off
   yields the first n + m values of the stream: the harness's two fills of A
   and B form one continuous stream.
   */
  lemma StreamSplit(g: Rng, n: nat, m: nat)
    ensures Stream(g, n) + Stream(After(g, n), m) == Stream(g, n + m)
  {
    forall u | 0 <= u < m
      ensures Stream(After(g, n), m)[u] == Stream(g, n + m)[n + u]
    {
      AfterAdd(g, n, u + 1);
    }
  }

  /**
   ran_fill(n, a): `while (n--) *a++ = ran();` writes the next n values of
   the stream into positions 0..n-1 and advances the state by n calls.
   */
  method RanFill(n: nat, g: Rng) returns (a: seq<real>, g': Rng)
    ensures |a| == n
    ensures forall t :: 0 <= t < n ==> a[t] == Draw(g, t)
    ensures g' == After(g, n)
  {
    a := [];
    g' := g;
    var left: nat := n;
    while left > 0
      invariant left <= n
      invariant |a| == n - left
      invariant g' == After(g, n - left)
      invariant forall t :: 0 <= t < |a| ==> a[t] == Draw(g, t)
    {
      var drawn := Ran(g');
      a := a + [drawn.0];
      g' := drawn.1;
      left := left - 1;
    }
  }

  /** The harness's two fills: A takes the first sizeA values of the stream, B the next sizeB. */
  method FillInputs(sizeA: nat, sizeB: nat) returns (a: seq<real>, b: seq<real>, g: Rng)
    ensures |a| == sizeA && |b| == sizeB
    ensures a + b == Stream(Initial(), sizeA + sizeB)
    ensures g == After(Initial(), sizeA + sizeB)
  {
    var g1;
    a, g1 := RanFill(sizeA, Initial());
    b, g := RanFill(sizeB, g1);
    StreamSplit(Initial(), sizeA, sizeB);
    AfterAdd(Initial(), sizeA, sizeB);
  }
}
