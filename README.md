# MT19937 (Python port) in Dafny

This project models `mt19937.py`, a Python port of the MT19937 Mersenne Twister of
Matsumoto and Nishimura (`mt19937ar.c`). It models the code as written, including the
places where the port differs from the reference C code:

- **State.** The module-level state vector `mt` (624 words) and the cursor `mti` become
  the fields of a `Generator` object. `mt` is an `array<bv32>`; `mti` is an `int`.
- **Seeding.** `init_genrand` uses the global `mti` as its loop variable, so it leaves the
  cursor at 623, not 624. The first draw after seeding therefore returns the tempered,
  un-twisted word 623.
- **Array seeding.** `init_by_array` works as follows:
  - It scalar-seeds with 19650218.
  - Phase 1 runs `max(N, key_length)` iterations.
  - Phase 2 runs `range(N - 1, k, -1)` with `k == 1` left over from phase 1, which is
    622 iterations.
  - Phase 2 writes `mt[0] = 0x80000000` on every iteration.
  - When `init_key` is shorter than the indices phase 1 reads, the source raises an
    `IndexError` part-way through phase 1. The model returns `false` and leaves the state
    as the source leaves it.
- **Draws.** `genrand_int32` works as follows:
  - It refills when `mti >= N`.
  - Before the refill, it seeds with 5489 if `mti == N + 1`.
  - It reads `mt[mti]`, advances the cursor and tempers the word.
- **The twist.** The second loop of the twist restarts at index 0. For `kk < N - M`, its
  read `mt[kk + (M - N)]` has a negative index, which Python resolves to `kk + M`. Words
  0 .. 226 are therefore twisted twice, the second time from words the first loop has
  already updated.
- **`genrand_int31`** returns one draw shifted right by one place.
- **`genrand_res53`** is modelled only for its two integer parts. Taking them consumes two
  draws.

Every word is a `bv32`, so the source's `& 0xffffffff` masks are the wrap-around of
32-bit arithmetic. The source computes in 64-bit `numpy.uint`: the products fit in 64 bits,
and the subtraction of `i` wraps before the mask, so plain modulo-2^32 arithmetic is
faithful.

## Files and modules

- `mt_words.dfy` (`MtWords`): the word type, the period and tempering constants,
  `mag01`, the twist word and tempering.
- `mt_seed.dfy` (`MtSeed`): `init_genrand` and `init_by_array` as functions on the state
  vector, with their lemmas. The methods are proved against these functions.
- `mt_twist.dfy` (`MtTwist`):
  - The three twist passes as functions.
  - `RefilledWord`, a word-by-word description of the refilled vector.
  - Lemmas showing the two agree.
- `mt_generator.dfy` (`MtGenerator`):
  - `NextU32` and `Run`: a draw, and a run of draws, as functions on the state.
  - Lemmas about runs of draws.
  - The class `Generator`, whose methods do the source's loops in place on the array. Each
    method's `ensures` ties its new state to the functions above.

## Where the port departs from mt19937ar.c

The model follows the Python code in each of these cases:

- **Cursor after seeding.** In `mt19937ar.c`, `init_genrand` leaves `mti == 624`. This port
  leaves `mti == 623`; see `Generator.InitGenrand` and `FirstDrawsAfterSeeding`.
- **Length of phase 2.** `mt19937ar.c` runs phase 2 of `init_by_array` 623 times. This port
  runs it 622 times; see `PHASE2_STEPS` and `Generator.MixInKey`.
- **Word 0 in phase 2.** `mt19937ar.c` sets `mt[0] = 0x80000000` once, after phase 2. This
  port sets it on every phase-2 iteration, and so does `Phase2Step`. So when i wraps to 1
  during phase 2, the next iteration reads 0x80000000 from word 0, where `mt19937ar.c`
  reads the copy of word N-1.
- **A key shorter than its length.** `mt19937ar.c` reads past the end of such a key. This
  port raises `IndexError` at the first `init_key[j]` beyond the key, after
  `init_genrand(19650218)` has already run; see `InitByArrayEmptyKey` and
  `StepsRunFrom`. The port also takes `key_length` apart from the key, so any key shorter
  than `max(key_length, 1)` raises after `|key|` phase-1 iterations.
- **The refill.** The second loop of the twist in `mt19937ar.c` continues from
  `kk == N - M`. This port restarts it at 0, as described above; see `RefilledWord`.

## Model

| member | source | states |
|---|---|---|
| MtWords.LowWordSucc | mt19937.py:26 | the masked value of n+1 is the masked value of n plus one in 32-bit arithmetic; with LowWord(0) == 0 this fixes `n & 0xffffffff` as n mod 2^32 |
| MtWords.LowWordWraps | mt19937.py:26 | 2^32 masked to 32 bits is 0 |
| MtWords.LowWordPeriodic | mt19937.py:26 | masking to 32 bits has period 2^32 |
| MtWords.LowWordMod | mt19937.py:26 | the masked value depends only on n mod 2^32 |
| MtWords.LowWord | mt19937.py:26 | `n & 0xffffffff`, built from the binary digits of n; no contract of its own, its meaning is stated by the four lemmas above |
| MtWords.Mag01 | mt19937.py:68 | `mag01[x] = x * MATRIX_A`: the table entry is the bit times MATRIX_A |
| MtWords.TwistWord | mt19937.py:77-78 | one twist step, `far ^ (y >> 1) ^ mag01[y & 1]` with y the upper bit of `hi` joined to the lower 31 bits of `lo` (the same step as lines 81-82 and 84-85); no contract of its own |
| MtWords.TwistWordReads | mt19937.py:77 | a twist step reads only the upper bit of `hi` and the lower 31 bits of `lo` |
| MtWords.Temper | mt19937.py:93-96 | the four tempering shifts and masks; no contract beyond its `bv32` type |
| MtSeed.SeedWord | mt19937.py:29-30 | word i of scalar seeding, `1812433253 * (prev ^ (prev >> 30)) + i` modulo 2^32; no contract of its own, used by SeedPrefixSteps and IsSeedingOf |
| MtSeed.Phase1Word | mt19937.py:44-45 | the phase-1 word, `(cur ^ ((prev ^ (prev >> 30)) * 1664525)) + key + j` modulo 2^32; no contract of its own, used by Phase1StepWords |
| MtSeed.Phase2Word | mt19937.py:55-56 | the phase-2 word, `(cur ^ ((prev ^ (prev >> 30)) * 1566083941)) - i` modulo 2^32; no contract of its own, used by Phase2StepWords |
| MtSeed.Phase1Step | mt19937.py:44-52 | one phase-1 iteration keeps MixValid, advances i by NextIndex and j by NextKey; its effect on the words is stated by Phase1StepWords |
| MtWords.Int31Of | mt19937.py:102-103 | the shifted draw is below 2^31 and is the draw divided by 2 |
| MtTwist.ResolveIndex | mt19937.py:82 | Python's reading of an index in [-N, N) lies in [0, N): the index itself when non-negative, index + N when negative |
| MtTwist.Stage1Words | mt19937.py:76-78 | after n iterations of the first pass, words below n are twisted once from the untouched input and the other words are unchanged |
| MtTwist.Stage2Words | mt19937.py:80-82 | after n iterations of the second pass, word t < n is twisted with far word `base[t + M]` when t < N-M, and with the already rewritten word t-(N-M) otherwise; the words from n on are unchanged |
| MtTwist.SecondPassOfFirst | mt19937.py:76-82 | running the second pass over the first pass's output gives RefilledWord: words 0 .. N-M-1 are twisted twice, the second time from once-twisted words |
| MtTwist.TwistedIsTwist | mt19937.py:76-85 | the three passes produce the vector IsTwistOf describes word by word, including the last word, which reads the new words 0 and M-1 |
| MtTwist.TwistDetermined | mt19937.py:76-85 | any vector that meets IsTwistOf is exactly the output of the three passes |
| MtSeed.SeedPrefixSteps | mt19937.py:27-30 | in the words scalar seeding writes, every word after the first follows from its predecessor by `1812433253 * (w ^ (w >> 30)) + i` modulo 2^32 |
| MtSeed.InitGenrandIsSeeding | mt19937.py:26-30 | the vector `init_genrand(s)` leaves behind has word 0 equal to s masked to 32 bits, and meets the recurrence for every i in 1 .. 623 |
| MtSeed.SeedingDeterminesWords | mt19937.py:26-30 | any 624-word vector that meets the seeding recurrence for s is the vector `init_genrand(s)` produces |
| MtSeed.Phase1StepWords | mt19937.py:44-52 | one phase-1 iteration gives word i the mixed word and leaves words 1 .. N-1 other than i unchanged; a wrap of i copies the new word N-1 into word 0 and resets i to 1; otherwise word 0 is unchanged and i moves up by one |
| MtSeed.Phase2Step | mt19937.py:55-61 | after every phase-2 iteration word 0 is 0x80000000 and i has advanced by NextIndex; j is unchanged |
| MtSeed.Phase2StepWords | mt19937.py:55-61 | one phase-2 iteration gives word i the mixed word with i subtracted, leaves words 1 .. N-1 other than i unchanged, sets word 0 to 0x80000000 whether or not i wrapped, and moves i to 1 after N-1 |
| MtSeed.Phase2Run | mt19937.py:54-61 | any positive number of phase-2 iterations keeps 1 <= i <= N-1 and leaves word 0 at 0x80000000 |
| MtSeed.Phase1Length | mt19937.py:41 | phase 1 runs max(N, key_length) iterations: at least N, at least key_length, and one of the two |
| MtSeed.Phase1KeyBound | mt19937.py:39-52 | from j = 0, every state phase 1 reaches has 0 <= j < max(key_length, 1); MixValid keeps 1 <= i <= N-1 |
| MtSeed.Phase1Cursors | mt19937.py:43-52 | phase 1 completes exactly when all n iterations run; i and j advance by the number of iterations that ran |
| MtSeed.StepsRunFrom | mt19937.py:44 | from key index j0, all n iterations run when the key covers max(key_length, 1) words or n <= \|key\| - j0; otherwise \|key\| - j0 run before the read of `init_key[j]` raises |
| MtSeed.KeyAfterMod | mt19937.py:40-52 | from j = 0, j after n advances is n modulo max(key_length, 1) |
| MtSeed.IndexAfterMod | mt19937.py:46-50 | from i0 in [1, N-1], i after n advances is 1 + (i0 - 1 + n) modulo N-1 |
| MtSeed.Phase2Cursor | mt19937.py:57-60 | phase 2 advances i once per iteration, with the same wrap as phase 1 |
| MtSeed.MixKeyCompletes | mt19937.py:39-61 | the mixing passes complete exactly when the key holds at least max(key_length, 1) words; otherwise they raise with j == \|key\| and i == 1 + \|key\| mod 623 |
| MtSeed.MixKeyFinal | mt19937.py:54-61 | after completed mixing, word 0 is 0x80000000 and i has advanced max(N, key_length) + 622 places from 1 |
| MtSeed.InitByArrayCompletes | mt19937.py:34-61 | `init_by_array` runs to the end exactly when the key holds at least max(key_length, 1) words; otherwise it raises with j == \|key\| |
| MtSeed.InitByArrayEmptyKey | mt19937.py:38-44 | with an empty key the first read of `init_key[0]` raises, and the vector is the one `init_genrand(19650218)` left |
| MtSeed.InitByArrayFinal | mt19937.py:54-61 | after a completed `init_by_array`, word 0 is 0x80000000, so the state is not all zero |
| MtSeed.MixKeyOutcome | mt19937.py:43-61 | the bridge `Generator.MixInKey` uses to reach MixKey: phase 1's result followed, when it completed, by 622 phase-2 iterations is the mixing result, and it gathers MixKeyCompletes and MixKeyFinal for that result |
| MtGenerator.Refill | mt19937.py:73-85 | the vector a refill installs: Twisted of the current vector, or of the 5489 seeding when never seeded; no contract of its own, its words are described by TwistedIsTwist |
| MtGenerator.NextU32 | mt19937.py:65-98 | a draw refills exactly when mti >= N; afterwards mti is 1 after a refill and old mti + 1 otherwise, so it lies in [1, N]; without a refill the vector is unchanged; at mti == N+1 the vector becomes the twist of the 5489 seeding; the result is the tempered word just below the new cursor |
| MtGenerator.DrainWithoutRefill | mt19937.py:70-96 | while mti + n <= N, n draws return the words mt[mti .. mti+n), tempered and in order, and leave the vector unchanged |
| MtGenerator.RefillPeriod | mt19937.py:70-96 | from an exhausted or never-seeded state, N draws return the whole refilled vector, tempered and in order, and leave the cursor at N |
| MtGenerator.FirstDrawsAfterSeeding | mt19937.py:65-90 | after seeding (mti == 623) the first draw returns the tempered word 623 without a refill; the second draw twists and returns the tempered new word 0 |
| MtGenerator.Res53Parts | mt19937.py:123-124 | a = draw >> 5 is below 2^27 and b = draw >> 6 is below 2^26 |
| MtGenerator.Generator.constructor | mt19937.py:19-20 | the initial state is 624 zero words and mti == N+1 |
| MtGenerator.Generator.InitGenrand | mt19937.py:24-30 | the array becomes InitGenrandWords(s) and mti is left at N-1 == 623, the loop variable's last value |
| MtGenerator.Generator.InitByArray | mt19937.py:34-61 | the outcome and the array are InitByArrayRun's; the call succeeds exactly when the key covers max(key_length, 1) words; a success leaves word 0 at 0x80000000; mti is 623 either way |
| MtGenerator.Generator.MixInKey | mt19937.py:39-61 | both mixing passes over the array from i = 1 and j = 0 give the outcome and the vector MixKey describes |
| MtGenerator.Generator.MixPhase1 | mt19937.py:39-52 | the phase-1 loop leaves the array, i and j as Phase1Run from i = 1, j = 0 over max(N, key_length) iterations does, completed or raised; when it completes the loop variable k is 1 |
| MtGenerator.Generator.Phase1Iteration | mt19937.py:44-52 | one loop body changes the array and the indices as Phase1Step does |
| MtGenerator.Generator.MixPhase2 | mt19937.py:54-61 | the phase-2 loop over `range(N - 1, k, -1)` leaves the array and i as N-1-k steps of Phase2Run do |
| MtGenerator.Generator.Twist | mt19937.py:76-85 | the three passes in place leave the array at Twisted of its old content |
| MtGenerator.Generator.GenrandInt32 | mt19937.py:65-98 | the new state and the result are NextU32 of the old state |
| MtGenerator.Generator.GenrandInt31 | mt19937.py:102-103 | one draw as NextU32 makes it, shifted right by one, so the result is below 2^31 |
| MtGenerator.Generator.GenrandRes53Parts | mt19937.py:122-124 | consumes exactly two draws: the new state is NextU32 applied twice, and a and b are the first and second draw shifted by 5 and 6, below 2^27 and 2^26 |

## Left out

- `genrand_real1`, `genrand_real2`, `genrand_real3` and the double that `genrand_res53`
  returns are left out, because they are floating-point arithmetic.
- The numpy type aliases (`unslong`, `long`, `double`) and the platform width of
  `numpy.uint` are left out. Words are plain 32-bit values, which the masks make faithful.
- Seeds are modelled as non-negative integers. A key word enters as its low 32 bits, which
  is all the mask leaves of it.
- Python's `IndexError` in `init_by_array` becomes a `false` result (the `Raised` outcome
  in the functions). Exceptions as such are not modelled.
- The commented-out C `main` in the trailing string literal is left out: it is not code.
- Module-level globals become fields of one object. The generator is sequential, and
  concurrent callers are not modelled.
- The methods that act on the whole generator (`InitGenrand`, `InitByArray`, `Twist`,
  `GenrandInt32`, `GenrandInt31` and `GenrandRes53Parts`) ask for `Valid()`: a 624-word
  array and a cursor in [1, N+1]. `MixInKey`, `MixPhase1`, `Phase1Iteration` and
  `MixPhase2` touch only the array: of the generator's state they ask only for
  `mt.Length == N`, and they also bound their index arguments. The constructor
  establishes `Valid()` and every method keeps it. The source has no such guard.
- The bodies of `init_by_array`'s loops are separate methods: `MixInKey`, `MixPhase1`,
  `Phase1Iteration` and `MixPhase2`. In the source they are one function.
- MixPhase1: when phase 1 raises, it does not state the value of the loop variable `k`.
  The exception ends `init_by_array`, so that value is never used.
- LowWord: stated by its successor, wrap-around and period laws, not as an equation with
  the integer n mod 2^32, because conversions between `bv32` and `int` are beyond what the
  solver proves in reasonable time.
- Temper has no contract beyond its type. That a draw lies in [0, 2^32) follows from `bv32`.
  An inverse of tempering is not part of this model.
