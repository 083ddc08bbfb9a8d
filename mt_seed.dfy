/** The two seeding procedures of the generator, as functions on the state vector:
    `init_genrand` (a linear recurrence from one seed) and `init_by_array`
    (scalar seeding with 19650218 followed by two mixing passes over a key).

    The recursive functions that run a loop for n steps name, after n, a second component
    in their decreases clause that the recursion leaves unchanged. It does not affect
    termination; it stops the verifier from unfolding the recursion all the way down when
    n is a constant such as N. The same holds in MtTwist and MtGenerator. */
module MtSeed {
  import opened MtWords

  /** The seed that `init_by_array` scalar-seeds with before mixing in the key. */
  const ARRAY_SEED: nat := 19650218

  /** Phase 2 of `init_by_array` counts k from N-1 down to, but not including, the k
      that phase 1 leaves behind; phase 1 always ends with k == 1, so N-2 = 622 steps. */
  const PHASE2_STEPS: nat := N - 2

  // ---------------------------------------------------------------------------
  // init_genrand

  /** Word i of the scalar seeding, from word i-1: Knuth's multiplier 1812433253. */
  function SeedWord(prev: Word, i: nat): Word
    requires i < N
  {
    1812433253 * (prev ^ (prev >> 30)) + LowWord(i)
  }

  /** Word i of r follows from word i-1 as scalar seeding computes it. */
  predicate SeedStep(r: seq<Word>, i: nat)
    requires 1 <= i < |r| && i < N
  {
    r[i] == SeedWord(r[i - 1], i)
  }

  /** The first n words scalar seeding writes when word 0 is w0, in order. */
  function SeedPrefix(w0: Word, n: nat): (r: seq<Word>)
    requires 1 <= n <= N
    ensures |r| == n
    ensures r[0] == w0
    decreases n, w0
  {
    if n == 1 then [w0]
    else
      var p := SeedPrefix(w0, n - 1);
      p + [SeedWord(p[n - 2], n - 1)]
  }

  /** Every word after the first follows from its predecessor. */
  lemma {:induction false} SeedPrefixSteps(w0: Word, n: nat)
    requires 1 <= n <= N
    ensures forall i :: 1 <= i < n ==> SeedStep(SeedPrefix(w0, n), i)
    decreases n
  {
    if n > 1 {
      SeedPrefixSteps(w0, n - 1);
      var p := SeedPrefix(w0, n - 1);
      var r := SeedPrefix(w0, n);
      forall i | 1 <= i < n
        ensures SeedStep(r, i)
      {
        if i < n - 1 {
          assert SeedStep(p, i);
        }
      }
    }
  }

  /** The state vector `init_genrand(s)` leaves behind: word 0 is the seed masked to
      32 bits. */
  function InitGenrandWords(s: nat): seq<Word>
  {
    SeedPrefix(LowWord(s), N)
  }

  /** What the source promises of scalar seeding: word 0 is the seed masked to 32 bits
      and every later word follows from its predecessor by SeedWord. */
  predicate IsSeedingOf(s: nat, r: seq<Word>)
  {
    |r| == N && r[0] == LowWord(s) &&
    forall i :: 1 <= i < N ==> SeedStep(r, i)
  }

  /** InitGenrandWords meets the recurrence. */
  lemma {:induction false} InitGenrandIsSeeding(s: nat)
    ensures IsSeedingOf(s, InitGenrandWords(s))
  {
    SeedPrefixSteps(LowWord(s), N);
  }

  /** Two vectors that both meet the recurrence for s agree on their first n words. */
  lemma {:induction false} SeedingAgreesUpTo(s: nat, a: seq<Word>, b: seq<Word>, n: nat)
    requires IsSeedingOf(s, a) && IsSeedingOf(s, b) && n <= N
    ensures forall i :: 0 <= i < n ==> a[i] == b[i]
  {
    if n > 0 {
      SeedingAgreesUpTo(s, a, b, n - 1);
      if n > 1 {
        assert SeedStep(a, n - 1) && SeedStep(b, n - 1);
      }
    }
  }

  /** The recurrence determines the state: scalar seeding is deterministic, and any vector
      meeting the recurrence for s is exactly the one `init_genrand(s)` produces. */
  lemma {:induction false} SeedingDeterminesWords(s: nat, r: seq<Word>)
    requires IsSeedingOf(s, r)
    ensures r == InitGenrandWords(s)
  {
    var w := InitGenrandWords(s);
    InitGenrandIsSeeding(s);
    SeedingAgreesUpTo(s, r, w, N);
    assert forall i :: 0 <= i < |r| ==> r[i] == w[i];
    assert |r| == |w|;
  }

  // ---------------------------------------------------------------------------
  // init_by_array

  /** The working state of an `init_by_array` call: the vector and the indices i and j. */
  datatype Mix = Mix(mt: seq<Word>, i: int, j: int)

  /** The bounds the mixing passes keep: 1 <= i <= N-1 and j a key index candidate. */
  predicate MixValid(x: Mix)
  {
    |x.mt| == N && 1 <= x.i < N && 0 <= x.j
  }

  /** The result of running some steps of phase 1: either every step ran, or a step read
      `init_key[j]` with j past the end of the key, which raises IndexError in the source
      and leaves the state as the steps before it left it. */
  datatype Seeding = Completed(st: Mix) | Raised(st: Mix)

  /** The non-linear word of phase 1 (multiplier 1664525), with key word and index j added. */
  function Phase1Word(cur: Word, prev: Word, key: Word, j: nat): Word
  {
    (cur ^ ((prev ^ (prev >> 30)) * 1664525)) + key + LowWord(j)
  }

  /** The word of phase 2 (multiplier 1566083941), with index i subtracted modulo 2^32. */
  function Phase2Word(cur: Word, prev: Word, i: nat): Word
    requires i < N
  {
    (cur ^ ((prev ^ (prev >> 30)) * 1566083941)) - LowWord(i)
  }

  /** The way both mixing passes advance i: one place, restarting at 1 after N-1. */
  function NextIndex(i: int): int
  {
    if i + 1 >= N then 1 else i + 1
  }

  /** The way phase 1 advances j: one place, restarting at 0 when it reaches keyLength. */
  function NextKey(j: int, keyLength: int): int
  {
    if j + 1 >= keyLength then 0 else j + 1
  }

  /** i after n advances from i0. */
  function IndexAfter(i0: int, n: nat): int
    decreases n, i0
  {
    if n == 0 then i0 else NextIndex(IndexAfter(i0, n - 1))
  }

  /** j after n advances from j0. */
  function KeyAfter(j0: int, keyLength: int, n: nat): int
    decreases n, j0
  {
    if n == 0 then j0 else NextKey(KeyAfter(j0, keyLength, n - 1), keyLength)
  }

  /** How many of n phase 1 iterations run from key index j0 when the key holds `size`
      words: they stop at the first one whose j is not below `size`. */
  function StepsRun(j0: int, keyLength: int, size: int, n: nat): (s: nat)
    ensures s <= n
    decreases n, size
  {
    if n == 0 || j0 >= size then 0
    else 1 + StepsRun(NextKey(j0, keyLength), keyLength, size, n - 1)
  }

  /** One iteration of the phase 1 loop. Only word i changes, except that a wrap of i
      copies the new word N-1 into word 0 and restarts i at 1; j restarts at 0 when it
      reaches keyLength. */
  function Phase1Step(x: Mix, key: seq<Word>, keyLength: int): (r: Mix)
    requires MixValid(x) && x.j < |key|
    ensures MixValid(r)
    ensures r.i == NextIndex(x.i) && r.j == NextKey(x.j, keyLength)
  {
    var mt1 := x.mt[x.i := Phase1Word(x.mt[x.i], x.mt[x.i - 1], key[x.j], x.j)];
    var mt2 := if x.i + 1 >= N then mt1[0 := mt1[N - 1]] else mt1;
    Mix(mt2, NextIndex(x.i), NextKey(x.j, keyLength))
  }

  /** What one phase 1 iteration does to the vector: word i gets the mixed word, the other
      words 1 .. N-1 keep their values, and word 0 is the new word N-1 after a wrap of i
      and unchanged otherwise. */
  lemma {:induction false} Phase1StepWords(x: Mix, key: seq<Word>, keyLength: int)
    requires MixValid(x) && x.j < |key|
    ensures var r := Phase1Step(x, key, keyLength);
            r.mt[x.i] == Phase1Word(x.mt[x.i], x.mt[x.i - 1], key[x.j], x.j) &&
            (forall t :: 1 <= t < N && t != x.i ==> r.mt[t] == x.mt[t]) &&
            (x.i == N - 1 ==> r.i == 1 && r.mt[0] == r.mt[N - 1]) &&
            (x.i < N - 1 ==> r.i == x.i + 1 && r.mt[0] == x.mt[0])
  {
  }

  /** The remaining n iterations of the phase 1 loop from state x: an iteration whose key
      index is out of range raises, otherwise it steps and the loop goes on. */
  function Phase1Run(x: Mix, key: seq<Word>, keyLength: int, n: nat): (r: Seeding)
    requires MixValid(x)
    ensures MixValid(r.st)
    decreases n, |x.mt|
  {
    if n == 0 then Completed(x)
    else if x.j >= |key| then Raised(x)
    else Phase1Run(Phase1Step(x, key, keyLength), key, keyLength, n - 1)
  }

  /** One iteration of the loop: from a state whose key index is in range, the remaining n
      iterations are the step followed by the remaining n - 1. */
  lemma {:induction false} Phase1RunStep(x: Mix, y: Mix, key: seq<Word>, keyLength: int, n: nat)
    requires MixValid(x) && x.j < |key| && n > 0
    requires y == Phase1Step(x, key, keyLength)
    ensures Phase1Run(x, key, keyLength, n) == Phase1Run(y, key, keyLength, n - 1)
  {
  }

  /** One iteration of the phase 2 loop. As in the source, `mt[0] = 0x80000000` stands
      inside the loop, so it runs after every step and overrides the wrap's copy. */
  function Phase2Step(x: Mix): (r: Mix)
    requires MixValid(x)
    ensures MixValid(r) && r.j == x.j
    ensures r.mt[0] == UPPER_MASK
    ensures r.i == NextIndex(x.i)
  {
    var mt1 := x.mt[x.i := Phase2Word(x.mt[x.i], x.mt[x.i - 1], x.i)];
    var mt2 := if x.i + 1 >= N then mt1[0 := mt1[N - 1]] else mt1;
    Mix(mt2[0 := UPPER_MASK], NextIndex(x.i), x.j)
  }

  /** What one phase 2 iteration does to the vector: word i gets the mixed word, the other
      words 1 .. N-1 keep their values, and word 0 is 0x80000000 whether or not i wrapped. */
  lemma {:induction false} Phase2StepWords(x: Mix)
    requires MixValid(x)
    ensures var r := Phase2Step(x);
            r.mt[x.i] == Phase2Word(x.mt[x.i], x.mt[x.i - 1], x.i) &&
            (forall t :: 1 <= t < N && t != x.i ==> r.mt[t] == x.mt[t]) &&
            r.mt[0] == UPPER_MASK &&
            r.i == if x.i == N - 1 then 1 else x.i + 1
  {
  }

  /** The first n iterations of the phase 2 loop. */
  function Phase2Run(x: Mix, n: nat): (r: Mix)
    requires MixValid(x)
    ensures MixValid(r)
    ensures n > 0 ==> r.mt[0] == UPPER_MASK
    decreases n, |x.mt|
  {
    if n == 0 then x else Phase2Step(Phase2Run(x, n - 1))
  }

  /** `k = N if N > key_length else key_length`: the number of phase 1 iterations. */
  function Phase1Length(keyLength: int): (k: nat)
    ensures k >= N && k >= keyLength
    ensures k == N || k == keyLength
  {
    if N > keyLength then N else keyLength
  }

  /** The state `init_by_array` starts mixing from: `init_genrand(19650218)`, i = 1, j = 0. */
  function ArrayStart(): (x: Mix)
    ensures MixValid(x) && x.i == 1 && x.j == 0
  {
    Mix(InitGenrandWords(ARRAY_SEED), 1, 0)
  }

  /** The two mixing passes from state x: phase 1, then, if no key read was out of range,
      the N-2 steps of phase 2. */
  function MixKey(x: Mix, key: seq<Word>, keyLength: int): Seeding
    requires MixValid(x)
  {
    match Phase1Run(x, key, keyLength, Phase1Length(keyLength))
    case Raised(y) => Raised(y)
    case Completed(y) => Completed(Phase2Run(y, PHASE2_STEPS))
  }

  /** The whole of `init_by_array(key, keyLength)`. */
  function InitByArrayRun(key: seq<Word>, keyLength: int): Seeding
  {
    MixKey(ArrayStart(), key, keyLength)
  }

  /** The largest key index phase 1 reads is KeySpan(keyLength) - 1: for keyLength <= 1
      j is reset to 0 after every step. */
  function KeySpan(keyLength: int): (l: nat)
    ensures l >= 1 && (keyLength >= 1 ==> l == keyLength)
  {
    if keyLength > 1 then keyLength else 1
  }

  lemma {:induction false} MulAtLeast(d: int, m: int)
    requires d >= 1 && m > 0
    ensures d * m >= m
  {
    assert d * m == (d - 1) * m + m;
    assert (d - 1) * m >= 0;
  }

  /** The remainder is the only r in [0, m) with a == q * m + r. */
  lemma {:induction false} ModUnique(a: int, m: int, q: int, r: int)
    requires m > 0 && 0 <= r < m && a == q * m + r
    ensures a % m == r
  {
    var q0, r0 := a / m, a % m;
    assert a == q0 * m + r0;
    var d := q - q0;
    assert d * m == r0 - r by { assert q * m - q0 * m == (q - q0) * m; }
    if d >= 1 {
      MulAtLeast(d, m);
    } else if d <= -1 {
      MulAtLeast(-d, m);
    }
  }

  /** A counter modulo m advances by one and wraps to 0 at m: b == a + 1 gives b % m. */
  lemma {:induction false} ModSucc(a: nat, b: nat, m: nat)
    requires m >= 1 && b == a + 1
    ensures b % m == if a % m + 1 == m then 0 else a % m + 1
  {
    var q, r := a / m, a % m;
    assert a == q * m + r;
    if r + 1 == m {
      assert (q + 1) * m == q * m + m;
      ModUnique(b, m, q + 1, 0);
    } else {
      ModUnique(b, m, q, r + 1);
    }
  }

  /** The advance of j lands in [0, max(keyLength, 1)). */
  lemma {:induction false} NextKeyBound(j: int, keyLength: int)
    requires j >= 0
    ensures 0 <= NextKey(j, keyLength) < KeySpan(keyLength)
  {
  }

  /** Phase 1 keeps j a valid key index: from a j below KeySpan(keyLength), every state the
      loop reaches has 0 <= j < max(keyLength, 1) (and 1 <= i <= N-1, which MixValid holds). */
  lemma {:induction false} Phase1KeyBound(x: Mix, key: seq<Word>, keyLength: int, n: nat)
    requires MixValid(x) && x.j < KeySpan(keyLength)
    ensures 0 <= Phase1Run(x, key, keyLength, n).st.j < KeySpan(keyLength)
    decreases n
  {
    if n > 0 && x.j < |key| {
      NextKeyBound(x.j, keyLength);
      Phase1KeyBound(Phase1Step(x, key, keyLength), key, keyLength, n - 1);
    }
  }

  /** Phase 1's cursors depend only on the cursors: after n iterations from x the run has
      completed exactly when StepsRun says all n ran, and i and j have advanced by the number
      of iterations that ran. */
  lemma {:induction false} Phase1Cursors(x: Mix, key: seq<Word>, keyLength: int, n: nat)
    requires MixValid(x)
    ensures var r := Phase1Run(x, key, keyLength, n);
            var s := StepsRun(x.j, keyLength, |key|, n);
            r.Completed? == (s == n) &&
            r.st.i == IndexAfter(x.i, s) && r.st.j == KeyAfter(x.j, keyLength, s)
    decreases n
  {
    if n > 0 && x.j < |key| {
      var y := Phase1Step(x, key, keyLength);
      Phase1Cursors(y, key, keyLength, n - 1);
      var s := StepsRun(y.j, keyLength, |key|, n - 1);
      assert StepsRun(x.j, keyLength, |key|, n) == 1 + s;
      IndexAfterAdd(x.i, 1, s);
      KeyAfterAdd(x.j, keyLength, 1, s);
    }
  }

  /** From j == 0, j after n advances is n % KeySpan(keyLength). */
  lemma {:induction false} KeyAfterMod(keyLength: int, n: nat)
    ensures KeyAfter(0, keyLength, n) == n % KeySpan(keyLength)
  {
    if n > 0 {
      KeyAfterMod(keyLength, n - 1);
      ModSucc(n - 1, n, KeySpan(keyLength));
    }
  }

  /** From a key index j0 that phase 1 can reach, the n iterations all run when the key
      covers KeySpan(keyLength) words or n <= |key| - j0; otherwise exactly |key| - j0 of
      them run, as j climbs to |key| without wrapping. */
  lemma {:induction false} StepsRunFrom(j0: int, key: seq<Word>, keyLength: int, n: nat)
    requires 0 <= j0 <= |key| && j0 < KeySpan(keyLength)
    ensures StepsRun(j0, keyLength, |key|, n) ==
            if n <= |key| - j0 || KeySpan(keyLength) <= |key| then n else |key| - j0
    decreases n
  {
    if n > 0 && j0 < |key| {
      StepsRunFrom(NextKey(j0, keyLength), key, keyLength, n - 1);
    }
  }

  /** From i0 in [1, N-1], i after n advances is 1 + (i0 - 1 + n) % (N - 1). */
  lemma {:induction false} IndexAfterMod(i0: int, n: nat)
    requires 1 <= i0 < N
    ensures IndexAfter(i0, n) == 1 + (i0 - 1 + n) % (N - 1)
  {
    if n == 0 {
      ModUnique(i0 - 1, N - 1, 0, i0 - 1);
    } else {
      IndexAfterMod(i0, n - 1);
      ModSucc(i0 - 1 + (n - 1), i0 - 1 + n, N - 1);
    }
  }

  /** From i0 == 1, i after t advances is 1 + t % (N - 1). */
  lemma {:induction false} IndexAfterFromOne(t: nat)
    ensures IndexAfter(1, t) == 1 + t % (N - 1)
  {
    IndexAfterMod(1, t);
  }

  /** Advancing j by a, then by b places is advancing it a + b places. */
  lemma {:induction false} KeyAfterAdd(j0: int, keyLength: int, a: nat, b: nat)
    ensures KeyAfter(KeyAfter(j0, keyLength, a), keyLength, b) == KeyAfter(j0, keyLength, a + b)
  {
    if b > 0 {
      KeyAfterAdd(j0, keyLength, a, b - 1);
    }
  }

  /** Advancing a, then b places is advancing a + b places. */
  lemma {:induction false} IndexAfterAdd(i0: int, a: nat, b: nat)
    ensures IndexAfter(IndexAfter(i0, a), b) == IndexAfter(i0, a + b)
  {
    if b > 0 {
      IndexAfterAdd(i0, a, b - 1);
    }
  }

  /** Phase 2 moves i exactly as NextIndex does, once per iteration. */
  lemma {:induction false} Phase2Cursor(x: Mix, n: nat)
    requires MixValid(x)
    ensures Phase2Run(x, n).i == IndexAfter(x.i, n)
  {
    if n > 0 {
      Phase2Cursor(x, n - 1);
    }
  }

  /** Mixing a key from a start with i == 1 and j == 0 runs to the end exactly when the
      key holds at least max(keyLength, 1) words; otherwise it raises after |key| phase 1
      iterations, with j == |key|. */
  lemma {:induction false} MixKeyCompletes(x: Mix, key: seq<Word>, keyLength: int)
    requires MixValid(x) && x.i == 1 && x.j == 0
    ensures MixKey(x, key, keyLength).Completed? <==> KeySpan(keyLength) <= |key|
    ensures MixKey(x, key, keyLength).Raised? ==>
              MixKey(x, key, keyLength).st.j == |key| &&
              MixKey(x, key, keyLength).st.i == 1 + |key| % (N - 1)
  {
    var k := Phase1Length(keyLength);
    Phase1Cursors(x, key, keyLength, k);
    StepsRunFrom(0, key, keyLength, k);
    if KeySpan(keyLength) > |key| {
      KeyAfterMod(keyLength, |key|);
      ModUnique(|key|, KeySpan(keyLength), 0, |key|);
      IndexAfterFromOne(|key|);
    }
  }

  /** Phase 1 from a start with i == 1 and j == 0 runs all of its k iterations when the key
      covers KeySpan(keyLength) words, and leaves i advanced k places from 1. */
  lemma {:induction false} Phase1Completes(x: Mix, key: seq<Word>, keyLength: int)
    requires MixValid(x) && x.i == 1 && x.j == 0
    requires KeySpan(keyLength) <= |key|
    ensures Phase1Run(x, key, keyLength, Phase1Length(keyLength)).Completed?
    ensures Phase1Run(x, key, keyLength, Phase1Length(keyLength)).st.i ==
            IndexAfter(1, Phase1Length(keyLength))
  {
    Phase1Cursors(x, key, keyLength, Phase1Length(keyLength));
    StepsRunFrom(0, key, keyLength, Phase1Length(keyLength));
  }

  /** After completed mixing from a start with i == 1 and j == 0, word 0 is 0x80000000
      and i has advanced k + N-2 places from 1 in all. */
  lemma {:induction false} MixKeyFinal(x: Mix, key: seq<Word>, keyLength: int)
    requires MixValid(x) && x.i == 1 && x.j == 0
    requires KeySpan(keyLength) <= |key|
    ensures MixKey(x, key, keyLength).Completed?
    ensures |MixKey(x, key, keyLength).st.mt| == N
    ensures MixKey(x, key, keyLength).st.mt[0] == UPPER_MASK
    ensures MixKey(x, key, keyLength).st.i == 1 + (Phase1Length(keyLength) + PHASE2_STEPS) % (N - 1)
  {
    var k := Phase1Length(keyLength);
    Phase1Completes(x, key, keyLength);
    var y := Phase1Run(x, key, keyLength, k).st;
    Phase2Cursor(y, PHASE2_STEPS);
    IndexAfterAdd(1, k, PHASE2_STEPS);
    IndexAfterFromOne(k + PHASE2_STEPS);
  }

  /** `init_by_array` runs to the end exactly when the key holds at least
      max(keyLength, 1) words; otherwise it raises after |key| phase 1 iterations. */
  lemma {:induction false} InitByArrayCompletes(key: seq<Word>, keyLength: int)
    ensures InitByArrayRun(key, keyLength).Completed? <==> KeySpan(keyLength) <= |key|
    ensures InitByArrayRun(key, keyLength).Raised? ==>
              InitByArrayRun(key, keyLength).st.j == |key| &&
              InitByArrayRun(key, keyLength).st.i == 1 + |key| % (N - 1)
  {
    MixKeyCompletes(ArrayStart(), key, keyLength);
  }

  /** With an empty key the very first read of `init_key[0]` raises: the vector is then the
      one scalar seeding with 19650218 left, not the state before the call. */
  lemma {:induction false} InitByArrayEmptyKey(key: seq<Word>, keyLength: int)
    requires |key| == 0
    ensures InitByArrayRun(key, keyLength) == Raised(ArrayStart())
  {
    var x := ArrayStart();
    assert Phase1Run(x, key, keyLength, Phase1Length(keyLength)) == Raised(x);
  }

  /** After a completed `init_by_array`, word 0 is 0x80000000: the most significant bit is
      set, so the state is never all zero. */
  lemma {:induction false} InitByArrayFinal(key: seq<Word>, keyLength: int)
    requires KeySpan(keyLength) <= |key|
    ensures InitByArrayRun(key, keyLength).Completed?
    ensures |InitByArrayRun(key, keyLength).st.mt| == N
    ensures InitByArrayRun(key, keyLength).st.mt[0] == UPPER_MASK
    ensures InitByArrayRun(key, keyLength).st.i == 1 + (Phase1Length(keyLength) + PHASE2_STEPS) % (N - 1)
  {
    MixKeyFinal(ArrayStart(), key, keyLength);
  }

  /** What the two mixing passes leave behind, from a start x with i == 1 and j == 0 and the
      result p of phase 1 from it: when phase 1 raised, its state; otherwise phase 2's. The
      outcome and the vector are MixKey's, the passes complete exactly when the key covers
      KeySpan(keyLength) words, and completed passes leave word 0 at 0x80000000. */
  lemma {:induction false} MixKeyOutcome(x: Mix, key: seq<Word>, keyLength: int, p: Seeding,
                                         ok: bool, final: seq<Word>)
    requires MixValid(x) && x.i == 1 && x.j == 0
    requires p == Phase1Run(x, key, keyLength, Phase1Length(keyLength))
    requires if ok then p.Completed? && final == Phase2Run(p.st, PHASE2_STEPS).mt
             else p.Raised? && final == p.st.mt
    ensures ok == MixKey(x, key, keyLength).Completed?
    ensures final == MixKey(x, key, keyLength).st.mt
    ensures ok <==> KeySpan(keyLength) <= |key|
    ensures ok ==> |final| == N && final[0] == UPPER_MASK
  {
    MixKeyCompletes(x, key, keyLength);
    if ok {
      MixKeyFinal(x, key, keyLength);
    }
  }
}
