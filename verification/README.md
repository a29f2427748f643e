# Tensor transpose-multiply test harness and OEP argument handling, in Dafny

This project models the test harness of MADNESS's `mTxmq` kernel. The kernel computes C += transpose(A) * B on flat row-major buffers. The model covers:

- the reference kernel `mTxm`;
- the linear congruential generator `ran`/`ran_fill` that fills A and B;
- the correctness sweep, which compares the kernel under test with the reference over a fixed grid of dimension triples;
- the best-of-N timing loops `timer`/`trantimer`, with their `crap` complaint;
- the buffer sizing of `main`, with every kernel call `main` makes.

A smaller part models the string and list handling of the OEP driver's `main`:

- the test-mode argument scan;
- the choice of input file;
- the insert-if-absent of the `each_energy` convergence criterion.

Modules:

- `Arith` (arith.dfy): facts of integer arithmetic used by the other modules. Euclidean remainder uniqueness and monotone products are among them.
- `Kernel` (kernel.dfy): flat index layout, the contraction sum `Dot`, the whole-buffer contract `Accumulated`, the reference kernel `MTxm`, and the clear-then-accumulate lemma.
  - Arithmetic is exact over `real`.
  - `MTxm` has the k, j, i loop order of the source, split into one method per loop.
- `Generator` (generator.dfy): `ran` with its static seed made explicit as a state. The word width is a parameter; 64 bits as for `unsigned long` on LP64. The 31-bit mask is written as a remainder modulo 2^31.
- `Options` (options.dfy): the optional result of a check or a search.
- `Grid` (grid.dfy): stepping `for` loops, nested loop grids, and the sweep's grid of 29 × 17 × 17 triples.
- `Sweep` (sweep.dfy): the correctness sweep as a pure verdict, and as the buffer-threading loop the harness runs.
  - The kernel under test is a parameter: what it adds at each output slot for each triple. This is enough because A and B stay fixed through the sweep and the output is cleared before every call.
- `Bench` (bench.dfy): rates as IEEE quotients, including +infinity and NaN, since the cycle count can be zero. Also the best-rate fold, the complaints, and `timer`/`trantimer`. Cycle counts are a parameter.
- `Driver` (driver.dfy): buffer capacities, the list of every kernel call with the buffer in each role, the safety of all of them, and the part of `main` up to the end of the sweep.
- `Oep` (oep.dfy): normalisation of `=` and `-` to blanks, C-locale whitespace, the first-word key as `operator>>` extracts it, the argument loop, the input name, and the `each_energy` insertion.

`timer` counts its operations as 2·ni·nj·nk per trial, and `trantimer` counts 3·2·ni·nj·nk. `crap` tests only `rate == 0` (test_mtxmq.cc:79), so a non-finite rate from a zero cycle count draws no complaint. `Bench.NoComplaintsWithWork` shows that a call doing any work never draws one.

## Model

| member | source | states |
|---|---|---|
| Kernel.IdxInjective | src/lib/tensor/test_mtxmq.cc:66 | distinct (row, column) pairs with column below the row length occupy distinct flat slots `row*cols+col` |
| Kernel.IdxSplit | src/lib/tensor/test_mtxmq.cc:66 | every slot below rows*cols is the flat index of exactly one in-range (row, column) pair |
| Kernel.IdxBound | src/lib/tensor/test_mtxmq.cc:66 | an in-range pair's flat index stays below rows*cols, so the reads of A and B and the writes of C stay inside their extents |
| Kernel.MTxm | src/lib/tensor/test_mtxmq.cc:60-70 | after the three loops, C[i*dimj+j] has gained the sum over k of A[k*dimi+i]*B[k*dimj+j] for every i < dimi, j < dimj, and every slot from dimi*dimj on is unchanged |
| Kernel.AccumulatedAt | src/lib/tensor/test_mtxmq.cc:66 | the whole-buffer contract read at entry (i, j) is the old value plus the full contraction sum |
| Kernel.Product | src/lib/tensor/test_mtxmq.cc:60-70 | transpose(A)*B as a flat dimi*dimj matrix whose entry (i, j) is the contraction sum |
| Kernel.ZeroedRunIsProduct | src/lib/tensor/test_mtxmq.cc:175-176 | clearing the leading ni*nj slots and then accumulating leaves exactly the product there, whatever the buffer held, and keeps the rest |
| Kernel.ZeroPrefix | src/lib/tensor/test_mtxmq.cc:175 | the leading n slots become 0.0 and every later slot keeps its value |
| Generator.NextSeed | src/lib/tensor/test_mtxmq.cc:51 | the updated seed fits the W-bit word |
| Generator.Low31 | src/lib/tensor/test_mtxmq.cc:53 | the masked integer is below 2^31 |
| Generator.Pow2Constants | src/lib/tensor/test_mtxmq.cc:49-53 | 2^31 is the modulus the mask keeps and 2^64 is the LP64 word modulus |
| Generator.NextSeedLow31 | src/lib/tensor/test_mtxmq.cc:51-53 | on a word of at least 31 bits, the low 31 bits after one update depend only on the low 31 bits of the seed |
| Generator.SeedAfterLow31 | src/lib/tensor/test_mtxmq.cc:47-54 | after any number of updates on a word of at least 31 bits, the low 31 bits are those of the same updates on a 31-bit word |
| Generator.LowBitsIndependentOfWidth | src/lib/tensor/test_mtxmq.cc:47-54 | from the same seed, any two word widths of at least 31 bits emit the same integer at every call |
| Generator.Initial | src/lib/tensor/test_mtxmq.cc:49 | the state before the first call: the static seed 76521 |
| Generator.AfterAdd | src/lib/tensor/test_mtxmq.cc:47-54 | the static state persists between calls: t calls then u calls is t+u calls |
| Generator.Scaled | src/lib/tensor/test_mtxmq.cc:53 | the corrected scaling x/2^31 always lies in [0, 1) |
| Generator.WrittenScaleLeavesUnitInterval | src/lib/tensor/test_mtxmq.cc:53 | with the written factor the all-ones 31-bit integer maps above 1, and the state 1595832142 steps to it; every smaller integer stays below 1 |
| Generator.ScaledAsWritten | src/lib/tensor/test_mtxmq.cc:53 | the value line 53 computes, x times the written factor: never negative, and above the corrected x/2^31 for every positive 31-bit x |
| Generator.WrittenIsScaledByRatio | src/lib/tensor/test_mtxmq.cc:53 | each as-written value is the corrected value times one fixed ratio between 1 and 1 + 1e-9 |
| Generator.Ran | src/lib/tensor/test_mtxmq.cc:47-54 | one call advances the seed by exactly one update and returns the first value of the stream from the old state, which lies in [0, 1) |
| Generator.Draw | src/lib/tensor/test_mtxmq.cc:47-54 | every draw lies in [0, 1) |
| Generator.StreamSplit | src/lib/tensor/test_mtxmq.cc:155-156 | n draws followed by m draws from where they stopped are the first n+m draws of the stream |
| Generator.RanFill | src/lib/tensor/test_mtxmq.cc:56-58 | the fill writes the next n draws in order and advances the state by n calls |
| Generator.FillInputs | src/lib/tensor/test_mtxmq.cc:155-156 | A receives the first nkmax*nimax draws and B the next nkmax*njmax, forming one continuous stream |
| Grid.TripBound | src/lib/tensor/test_mtxmq.cc:172-174 | trip p of a stepping loop happens exactly when lo + p*step is below the bound |
| Grid.StepsMembers | src/lib/tensor/test_mtxmq.cc:172-174 | a stepping loop visits exactly the values in [lo, hi) congruent to lo modulo step |
| Grid.StepsIncreasing | src/lib/tensor/test_mtxmq.cc:172-174 | a stepping loop visits its values in strictly increasing order |
| Grid.PlaneMembers | src/lib/tensor/test_mtxmq.cc:173-174 | the two inner loops visit exactly the pairs drawn from their ranges |
| Grid.NestMembers | src/lib/tensor/test_mtxmq.cc:172-174 | the three nested loops visit exactly the triples whose components come from the three ranges |
| Grid.SortedConcat | src/lib/tensor/test_mtxmq.cc:172-174 | two sorted runs, the first wholly before the second, concatenate to a sorted run |
| Grid.PlaneSorted | src/lib/tensor/test_mtxmq.cc:173-174 | the two inner loops over increasing ranges visit pairs in lexicographic order |
| Grid.NestSorted | src/lib/tensor/test_mtxmq.cc:172-174 | nested loops over increasing ranges visit triples in strictly increasing lexicographic order |
| Grid.NestOfStepsMembers | src/lib/tensor/test_mtxmq.cc:172-174 | nested stepping loops visit exactly the triples whose components lie on their loops' progressions |
| Grid.SweepGrid | src/lib/tensor/test_mtxmq.cc:172-174 | the sweep's triples in visiting order: ni over 2, 4, ..., 58 outermost, then nj and nk over 2, 8, ..., 98; `Grid.SweepGridMembers` and `Grid.SweepGridSorted` characterise it |
| Grid.SweepGridMembers | src/lib/tensor/test_mtxmq.cc:172-174 | the sweep visits exactly even ni in [2, 58] and nj, nk in {2, 8, ..., 98} |
| Grid.SweepGridSorted | src/lib/tensor/test_mtxmq.cc:172-174 | the sweep visits its triples in strictly increasing lexicographic order, ni outermost |
| Grid.SortedNotBackward | src/lib/tensor/test_mtxmq.cc:172-174 | in the visiting order no triple precedes one visited before it |
| Sweep.Abs | src/lib/tensor/test_mtxmq.cc:179 | the error is non-negative and equals the difference or its negation |
| Sweep.FirstExcess | src/lib/tensor/test_mtxmq.cc:178-190 | the scan finds nothing exactly when every slot is within tolerance, and otherwise the first slot above it |
| Sweep.FirstExcessIs | src/lib/tensor/test_mtxmq.cc:178-190 | a slot above tolerance with every earlier slot within it is the one the scan reports |
| Sweep.Check | src/lib/tensor/test_mtxmq.cc:175-190 | a triple reports nothing exactly when no slot of the candidate differs from the product by more than the tolerance; a report names the triple and carries the error at the first slot over the tolerance |
| Sweep.Verdict | src/lib/tensor/test_mtxmq.cc:172-194 | the sweep passes exactly when no triple fails, and otherwise gives the report of the first failing triple in visiting order, with the error at that triple's first bad slot |
| Sweep.ConformingKernelPasses | src/lib/tensor/test_mtxmq.cc:172-194 | a kernel under test that adds exactly the product passes at any non-negative tolerance, 1e-15 included |
| Sweep.VerdictIsLexFirst | src/lib/tensor/test_mtxmq.cc:172-194 | on a lexicographically sorted grid every triple before the reported one passes |
| Sweep.FitsSuffix | src/lib/tensor/test_mtxmq.cc:172-174 | a suffix of a grid that fits the input buffers fits them too |
| Sweep.VerdictFrom | src/lib/tensor/test_mtxmq.cc:186-189 | the outcome from a position is that triple's report if it fails, and the outcome from the next position otherwise (exit on the first failure) |
| Sweep.Compare | src/lib/tensor/test_mtxmq.cc:178-190 | the comparison loop stops at the first slot whose error exceeds the tolerance, or finds none exactly when all are within it |
| Sweep.RunKernel | src/lib/tensor/test_mtxmq.cc:177 | the kernel under test adds its contribution to each of the leading ni*nj slots of d and leaves every later slot unchanged |
| Sweep.RunBoth | src/lib/tensor/test_mtxmq.cc:175-177 | after clearing and the two runs, the leading ni*nj slots of c hold the product and those of d the candidate, whatever they held before |
| Sweep.SweepStep | src/lib/tensor/test_mtxmq.cc:175-190 | one triple's runs and comparison report exactly that triple's check |
| Sweep.CorrectnessSweep | src/lib/tensor/test_mtxmq.cc:172-194 | the buffer-threading sweep, stopping at the first failure, produces the verdict; it passes exactly when no triple fails |
| Bench.Flops | src/lib/tensor/test_mtxmq.cc:86 | timer's count of operations for one call is even, and positive exactly when all three dimensions are |
| Bench.TranFlops | src/lib/tensor/test_mtxmq.cc:114 | trantimer counts 6·ni·nj·nk operations per trial, positive exactly when timer's count is |
| Bench.Greater | src/lib/tensor/test_mtxmq.cc:95 | `rate > fastest` on IEEE values: a comparison of finite values, +infinity above every finite value, and false whenever NaN is involved |
| Bench.GreaterIeee | src/lib/tensor/test_mtxmq.cc:95 | the comparison never holds with NaN on either side or with +infinity on the right, and +infinity beats every finite rate |
| Bench.Rate | src/lib/tensor/test_mtxmq.cc:93 | the rate is finite exactly when the cycle count is non-zero, zero exactly when no work was counted over non-zero cycles, and NaN exactly for zero over zero |
| Bench.Best | src/lib/tensor/test_mtxmq.cc:84-96 | the kept rate is not NaN and not negative, is 0.0 or one of the rates, and no rate compares greater than it |
| Bench.BestOrderIndependent | src/lib/tensor/test_mtxmq.cc:88-96 | the best rate depends only on the multiset of rates, not on the order of the trials |
| Bench.Complaints | src/lib/tensor/test_mtxmq.cc:78-80 | the complaints of a run, in trial order, at most one per trial; `Bench.ComplaintsSound`, `Bench.ComplaintsComplete` and `Bench.ComplaintsOrdered` characterise them |
| Bench.ComplaintsSound | src/lib/tensor/test_mtxmq.cc:78-80 | every complaint names a trial whose rate equals zero, with that trial's cycle count and the best rate before it |
| Bench.ComplaintsComplete | src/lib/tensor/test_mtxmq.cc:78-80 | every trial whose rate equals zero draws a complaint |
| Bench.ComplaintsOrdered | src/lib/tensor/test_mtxmq.cc:88-96 | complaints come in strictly increasing trial order |
| Bench.NoComplaintsWithWork | src/lib/tensor/test_mtxmq.cc:78-94 | with a positive operation count no trial draws a complaint, whatever the cycle counts |
| Bench.TimeTrials | src/lib/tensor/test_mtxmq.cc:84-96 | the trial loop keeps the best rate and emits the complaints of the run |
| Bench.Timer | src/lib/tensor/test_mtxmq.cc:83-109 | the report carries the best rate at 2*ni*nj*nk operations per trial, and a dgemm rate of 0.0 unless the dgemm comparison is compiled in |
| Bench.TranTimer | src/lib/tensor/test_mtxmq.cc:111-141 | as Timer, with three chained calls and 3*2*ni*nj*nk operations per trial |
| Bench.TranRateIsThreeCalls | src/lib/tensor/test_mtxmq.cc:114 | for the same cycle count a trantimer trial reports three times a timer trial's rate |
| Driver.SweepPattern | src/lib/tensor/test_mtxmq.cc:176-177 | the sweep's two calls per triple: the reference into C and the kernel under test into D, both from A and B |
| Driver.TimerPattern | src/lib/tensor/test_mtxmq.cc:91 | timer's one call per trial: C from A and B |
| Driver.TranPattern | src/lib/tensor/test_mtxmq.cc:119-121 | trantimer's three calls per trial: C from A and B, then A from C and B, then C from A and B |
| Driver.SquareSuite | src/lib/tensor/test_mtxmq.cc:196 | the square suite (m, m, m) for m = 2, 4, ..., 58 |
| Driver.RectSuite | src/lib/tensor/test_mtxmq.cc:197-198 | the rectangular suite (m*m, m, m) for m = 2, 4, ..., 30, shared by timer and trantimer |
| Driver.FixedSuite | src/lib/tensor/test_mtxmq.cc:199 | the fixed-shape suite (400, m, 20) for m = 2, 4, ..., 20 |
| Driver.Each | src/lib/tensor/test_mtxmq.cc:196-199 | one call per pairing of a triple with a role pattern |
| Driver.EachMembers | src/lib/tensor/test_mtxmq.cc:196-199 | the calls made are exactly the pairings of a suite's triples with the suite's role patterns |
| Driver.DriverCalls | src/lib/tensor/test_mtxmq.cc:172-199 | the driver makes two calls per sweep triple, one per square, rectangular and fixed-shape timer triple, and three per trantimer triple |
| Driver.DriverCallsMembers | src/lib/tensor/test_mtxmq.cc:172-199 | the driver's calls are exactly the sweep's two role patterns on the grid, timer's pattern on the square, rectangular and fixed-shape suites, and trantimer's three patterns on the rectangular suite |
| Driver.CapacityValues | src/lib/tensor/test_mtxmq.cc:144-153 | A, C and D hold 90000 doubles and B holds 10000 |
| Driver.SweepTripleFits | src/lib/tensor/test_mtxmq.cc:172-177 | every sweep triple's output, left and right extents fit the capacities |
| Driver.SweepCallsSafe | src/lib/tensor/test_mtxmq.cc:175-177 | both sweep calls stay inside their buffers and write neither operand |
| Driver.SquareCallsSafe | src/lib/tensor/test_mtxmq.cc:196 | the square benchmark's calls are safe |
| Driver.RectCallsSafe | src/lib/tensor/test_mtxmq.cc:197-198 | the rectangular and transpose benchmarks' calls are safe, the transpose role swap included |
| Driver.FixedCallsSafe | src/lib/tensor/test_mtxmq.cc:199 | the fixed-shape benchmark's calls are safe |
| Driver.DriverCallsSafe | src/lib/tensor/test_mtxmq.cc:143-200 | no kernel call of the driver reads or writes outside its buffer or writes a buffer it reads |
| Driver.SweepInputsFit | src/lib/tensor/test_mtxmq.cc:150-156 | the filled inputs fit every sweep triple |
| Driver.TestMain | src/lib/tensor/test_mtxmq.cc:143-194 | status is 0 or 1, and 0 exactly when the sweep over the generator-filled inputs finds no failure at tolerance 1e-15 |
| Oep.Normalise | src/examples/oep.cc:104-105 | the argument with '=' and then '-' turned into blanks, of the same length; `Oep.NormaliseAt` gives it position by position |
| Oep.ReplaceAt | src/examples/oep.cc:104 | replacement changes exactly the occurrences of one character and keeps every other character in place |
| Oep.NormaliseAt | src/examples/oep.cc:104-105 | normalisation turns exactly the '=' and '-' characters into blanks and keeps the rest |
| Oep.NormaliseIdempotent | src/examples/oep.cc:104-105 | normalising twice is normalising once |
| Oep.Key | src/examples/oep.cc:106-108 | the word `operator>>` extracts: no longer than the argument and free of whitespace; `Oep.KeyIsFirstWord` characterises it fully |
| Oep.SkipSpaceDrops | src/examples/oep.cc:107-108 | skipping drops exactly the leading whitespace run and stops at a non-space or the end |
| Oep.WordIsPrefix | src/examples/oep.cc:107-108 | the extracted word is a whitespace-free prefix ending at whitespace or the end |
| Oep.KeyIsFirstWord | src/examples/oep.cc:106-108 | the key is empty exactly for all-whitespace arguments, and otherwise the first maximal run of non-whitespace characters |
| Oep.ParseArgs | src/examples/oep.cc:99-110 | test mode is on exactly when some argument, the program name included, has the normalised key "test" |
| Oep.InputName | src/examples/oep.cc:112-117 | the input is "test_input" exactly in test mode and "input" otherwise |
| Oep.TestModeMonotone | src/examples/oep.cc:103-110 | more arguments never switch test mode off |
| Oep.DashedTestAsks | src/examples/oep.cc:104-109 | `--test` switches test mode on |
| Oep.AssignedTestAsks | src/examples/oep.cc:104-109 | `test=1` switches test mode on |
| Oep.SuffixedTestAsks | src/examples/oep.cc:104-109 | `--test-x` switches test mode on, since the inner '-' ends the word |
| Oep.LongerWordDoesNotAsk | src/examples/oep.cc:106-109 | `testing` does not switch test mode on |
| Oep.Find | src/examples/oep.cc:129 | the search returns the first position holding the criterion, or the end exactly when it is absent |
| Oep.WithEachEnergy | src/examples/oep.cc:128-131 | the criteria with "each_energy" appended unless present: they contain it, keep the old list as a prefix, and their multiset is the old one plus "each_energy" exactly when it was absent |
| Oep.EnsureEachEnergy | src/examples/oep.cc:128-132 | the stored criteria are the insert-if-absent result and contain "each_energy" |
| Oep.WithEachEnergyKeeps | src/examples/oep.cc:128-132 | a list that already names "each_energy" comes back unchanged; otherwise it gains "each_energy" once, at the end; in both cases the old criteria stay in order as a prefix and the multiset grows by "each_energy" only when it was absent |
| Oep.WithEachEnergyUnique | src/examples/oep.cc:128-132 | any list that keeps the criteria as a prefix and whose multiset is theirs plus "each_energy" exactly when it was absent is the insertion's result |
| Oep.WithEachEnergyIdempotent | src/examples/oep.cc:128-132 | inserting twice is inserting once |

## Left out

- The cycle counter `rdtsc` and the wall clock: the cycle count of each trial is a parameter of `Bench.TimeTrials`.
- Generator.Ran: returns x/2^31, the corrected scaling, not x·4.6566128752458e-10 as test_mtxmq.cc:53 writes. The as-written value is `ScaledAsWritten`, and `Generator.WrittenIsScaledByRatio` shows it is the corrected value times one fixed ratio within 1e-9 of 1.
- Generator.Draw: every draw uses the corrected scaling, so its [0, 1) range is the intended one, not the source's; `Generator.WrittenScaleLeavesUnitInterval` shows where the source leaves it.
- Driver.TestMain: the sweep's verdict is stated over the corrected stream. The inputs the source builds differ from it by the common ratio above.
- Sweep.Check: the kernel under test returns exact reals, so an output slot cannot be NaN. In the source a NaN slot passes the comparison, because `err > 1e-15` is false when err is NaN; the model does not state that.
- Floating-point rounding in the kernels, the generator's conversion to double and the error comparison: values are exact reals. The rates keep only the non-finite outcomes a division by a zero cycle count produces.
- The kernel under test `mTxmq` is an external optimised kernel. It is a parameter that adds an amount per output slot and triple. The model assumes it writes only the leading ni*nj slots and does not depend on what the cleared output held.
- The Fortran `dgemm_` comparison behind the `TIME_DGEMM` build flag: only its cycle counts enter, as an optional parameter; its numerical results are not modelled.
- `posix_memalign` and its failure: the buffers are sequences of their allocated lengths, and the source ignores the return value.
- All `printf` output and the process exit: reports, complaints and mismatches are returned values, and the exit status is a returned integer.
- The numerical contents of C and A during the benchmarks: they accumulate without clearing, and trantimer writes A. Only which buffers each call reads and writes, and the extents, are modelled in `Driver`.
- The 30 repetitions of each timing trial: `Driver.DriverCalls` lists one pattern per triple, because every repetition uses the same buffers and extents.
- Overflow of the `int` loop counters of `mTxm` and the `long` dimension products: every product in the driver is below 2^31.
- Oep.ReplaceAt: oep.cc:104-105 call `std::replace_copy` with the output range equal to the input range, which breaks its requirement that the two ranges do not overlap. The model takes the single forward pass that standard-library implementations perform, which is what `std::replace` guarantees.
- The MPI start-up, the SCF, Nemo and OEP solves, `write_test_input` and all printing of the OEP driver. Only the file name chosen is modelled.
- The `localize` parameter set to "canon" before the convergence criteria: it is a plain setting with no logic.

## Findings

| source | as written | input that shows it | evidently intended | confidence | as-written member | corrected member |
|---|---|---|---|---|---|---|
| src/lib/tensor/test_mtxmq.cc:53 | the masked integer is multiplied by 4.6566128752458e-10, a rounding up of 1/(2^31-1) | state 1595832142 steps to a state whose low 31 bits are all ones; 2147483647 × 4.6566128752458e-10 exceeds 1 by about 6.6e-16 | every value of `ran` lies in [0, 1), e.g. by scaling with 1/2^31 | not executed | Generator.WrittenScaleLeavesUnitInterval | Generator.Scaled |
