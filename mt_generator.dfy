/** The generator itself: the state vector and its cursor `mti`, the draw `genrand_int32`
    (refill when the cursor is exhausted, then read one word and temper it), and
    `genrand_int31`. The pure part describes a draw as a function on the state; the class
    `Generator` holds the state in an array and a field, mutated in place as the source does. */
module MtGenerator {
  import opened MtWords
  import opened MtSeed
  import opened MtTwist

  /** The seed used when a number is drawn before any seeding. */
  const DEFAULT_SEED: nat := 5489

  /** The generator's state: the vector `mt` and the cursor `mti`. */
  datatype Gen = Gen(mt: seq<Word>, mti: int)

  /** The states the generator can be in between calls: a full vector and a cursor in
      [1, N+1], where N+1 means "never seeded" and N means "exhausted". */
  predicate GenValid(g: Gen)
  {
    |g.mt| == N && 1 <= g.mti <= N + 1
  }

  /** The vector a refill installs: the twist of the current vector, or of the default
      seeding when the generator was never seeded. */
  function Refill(g: Gen): seq<Word>
    requires GenValid(g)
  {
    Twisted(if g.mti == N + 1 then InitGenrandWords(DEFAULT_SEED) else g.mt)
  }

  /** One call of `genrand_int32`: the new state and the number it returns. It refills
      exactly when mti >= N, leaving mti == 1; otherwise the vector is untouched and mti
      moves up by one. Either way the number is the tempered word just below the new cursor. */
  function NextU32(g: Gen): (res: (Gen, Word))
    requires GenValid(g)
    ensures GenValid(res.0) && 1 <= res.0.mti <= N
    ensures res.0.mti == if g.mti >= N then 1 else g.mti + 1
    ensures g.mti < N ==> res.0.mt == g.mt
    ensures g.mti >= N ==> res.0.mt == Refill(g)
    ensures g.mti == N + 1 ==> res.0.mt == Twisted(InitGenrandWords(DEFAULT_SEED))
    ensures res.1 == Temper(res.0.mt[res.0.mti - 1])
  {
    var buf := if g.mti >= N then Refill(g) else g.mt;
    var cur := if g.mti >= N then 0 else g.mti;
    (Gen(buf, cur + 1), Temper(buf[cur]))
  }

  /** n successive calls of `genrand_int32`: the final state and the numbers, in order. */
  function Run(g: Gen, n: nat): (res: (Gen, seq<Word>))
    requires GenValid(g)
    ensures GenValid(res.0) && |res.1| == n
    decreases n, |g.mt|
  {
    if n == 0 then (g, [])
    else
      var first := NextU32(g);
      var rest := Run(first.0, n - 1);
      (rest.0, [first.1] + rest.1)
  }

  /** Each word of a vector tempered, in order. */
  function TemperAll(ws: seq<Word>): (r: seq<Word>)
    ensures |r| == |ws|
    decreases ws
  {
    if ws == [] then [] else [Temper(ws[0])] + TemperAll(ws[1..])
  }

  /** Word k of TemperAll(ws) is the tempered word k of ws. */
  lemma {:induction false} TemperAllWords(ws: seq<Word>)
    ensures forall k :: 0 <= k < |ws| ==> TemperAll(ws)[k] == Temper(ws[k])
    decreases ws
  {
    if ws != [] {
      TemperAllWords(ws[1..]);
    }
  }

  /** Tempering a non-empty vector tempers its first word, then the rest. */
  lemma {:induction false} TemperAllCons(ws: seq<Word>)
    requires |ws| > 0
    ensures TemperAll(ws) == [Temper(ws[0])] + TemperAll(ws[1 .. |ws|])
  {
    assert ws[1 .. |ws|] == ws[1..];
  }

  /** Until the cursor reaches N, draws hand out the remaining words of the vector in order,
      tempered, and never refill. */
  lemma {:induction false} DrainWithoutRefill(g: Gen, n: nat)
    requires GenValid(g) && g.mti + n <= N
    ensures Run(g, n) == (Gen(g.mt, g.mti + n), TemperAll(g.mt[g.mti .. g.mti + n]))
    decreases n
  {
    if n > 0 {
      var g1 := Gen(g.mt, g.mti + 1);
      var r := Run(g1, n - 1);
      DrainWithoutRefill(g1, n - 1);
      assert Run(g, n) == (r.0, [NextU32(g).1] + r.1);
      TemperAllHead(g.mt, g.mti, n, r.1);
    }
  }

  /** Tempering the slice mt[lo .. lo + n] tempers word lo, then the slice after it. */
  lemma TemperAllHead(mt: seq<Word>, lo: nat, n: nat, rest: seq<Word>)
    requires 0 < n && lo + n <= |mt| && rest == TemperAll(mt[lo + 1 .. lo + n])
    ensures TemperAll(mt[lo .. lo + n]) == [Temper(mt[lo])] + rest
  {
    var ws := mt[lo .. lo + n];
    assert ws[1..] == mt[lo + 1 .. lo + n];
  }

  /** Two draws are the first draw followed by a draw from the state it leaves. */
  lemma {:induction false} RunTwo(g: Gen)
    requires GenValid(g)
    ensures Run(g, 2) ==
            (NextU32(NextU32(g).0).0, [NextU32(g).1, NextU32(NextU32(g).0).1])
  {
    var g1 := NextU32(g).0;
    var g2 := NextU32(g1).0;
    assert Run(g2, 0) == (g2, []);
    assert [NextU32(g1).1] + [] == [NextU32(g1).1];
    assert Run(g1, 1) == (g2, [NextU32(g1).1]);
    assert Run(g, 2) == (g2, [NextU32(g).1] + [NextU32(g1).1]);
    assert [NextU32(g).1] + [NextU32(g1).1] == [NextU32(g).1, NextU32(g1).1];
  }

  /** From an exhausted (or never seeded) state, N draws hand out the whole refilled vector,
      tempered and in order, and leave the generator exhausted again. */
  lemma {:induction false} RefillPeriod(g: Gen)
    requires GenValid(g) && g.mti >= N
    ensures Run(g, N) == (Gen(Refill(g), N), TemperAll(Refill(g)))
  {
    var buf := Refill(g);
    var g1 := NextU32(g).0;
    assert g1 == Gen(buf, 1);
    DrainWithoutRefill(g1, N - 1);
    TemperAllCons(buf);
    assert Run(g, N) == (Run(g1, N - 1).0, [NextU32(g).1] + Run(g1, N - 1).1);
  }

  /** Seeding leaves mti == N-1, so the first draw after it returns the tempered seeding
      word N-1 without a refill, and only the second draw twists the vector. */
  lemma {:induction false} FirstDrawsAfterSeeding(mt: seq<Word>)
    requires |mt| == N
    ensures Run(Gen(mt, N - 1), 2) ==
            (Gen(Twisted(mt), 1), [Temper(mt[N - 1]), Temper(Twisted(mt)[0])])
  {
    var g := Gen(mt, N - 1);
    RunTwo(g);
    assert NextU32(g) == (Gen(mt, N), Temper(mt[N - 1]));
    assert Refill(Gen(mt, N)) == Twisted(mt);
  }

  /** The integer parts of `genrand_res53`: the top 27 bits of one draw and the top 26 bits
      of the next. */
  function Res53Parts(y1: Word, y2: Word): (r: (Word, Word))
    ensures r.0 < 0x800_0000 && r.1 < 0x400_0000
    ensures r.0 == y1 / 32 && r.1 == y2 / 64
  {
    (y1 >> 5, y2 >> 6)
  }

  /** The generator object: the module-level `mt` and `mti` of the source as fields. */
  class Generator {
    var mt: array<Word>
    var mti: int

    /** The array holds N words and the cursor is one the source can leave behind. */
    predicate Valid()
      reads this
    {
      mt.Length == N && 1 <= mti <= N + 1
    }

    /** The abstract state. */
    function State(): Gen
      reads this, mt
    {
      Gen(mt[..], mti)
    }

    /** The initial state: N zero words and mti == N+1, "not yet seeded". */
    constructor ()
      ensures Valid() && fresh(mt)
      ensures State() == Gen(seq(N, _ => 0), N + 1)
    {
      mt := new Word[N](_ => 0);
      mti := N + 1;
    }

    /** `init_genrand(s)`. The loop variable is the field mti itself, so the cursor is left
        at N-1, the last index the loop visits. */
    method InitGenrand(s: nat)
      requires Valid()
      modifies this, mt
      ensures Valid() && mt == old(mt)
      ensures mt[..] == InitGenrandWords(s) && mti == N - 1
    {
      mt[0] := LowWord(s);
      var k := 1;
      while k < N
        invariant 1 <= k <= N && mt == old(mt) && mt.Length == N
        invariant mt[0] == LowWord(s)
        invariant forall t :: 1 <= t < k ==> mt[t] == SeedWord(mt[t - 1], t)
        invariant k > 1 ==> mti == k - 1
        modifies this, mt
      {
        mti := k;
        mt[mti] := SeedWord(mt[mti - 1], mti);
        k := k + 1;
      }
      assert IsSeedingOf(s, mt[..]);
      SeedingDeterminesWords(s, mt[..]);
    }

    /** `init_by_array(key, keyLength)`. The key words enter the sum modulo 2^32, which is
        what the source's mask leaves of them. When phase 1 reads `init_key[j]` past the end
        of the key, the source raises IndexError: the method then returns false and leaves
        the state as the iterations before left it. */
    method InitByArray(key: seq<Word>, keyLength: int) returns (ok: bool)
      requires Valid()
      modifies this, mt
      ensures Valid() && mt == old(mt) && mti == N - 1
      ensures ok == InitByArrayRun(key, keyLength).Completed?
      ensures mt[..] == InitByArrayRun(key, keyLength).st.mt
      ensures ok <==> KeySpan(keyLength) <= |key|
      ensures ok ==> mt[0] == UPPER_MASK
    {
      InitGenrand(ARRAY_SEED);
      assert Mix(mt[..], 1, 0) == ArrayStart();
      ok := MixInKey(key, keyLength);
    }

    /** The two mixing passes of `init_by_array` over the current vector, from i = 1 and
        j = 0: the outcome and the vector MixKey describes. */
    method MixInKey(key: seq<Word>, keyLength: int) returns (ok: bool)
      requires mt.Length == N
      modifies mt
      ensures ok == MixKey(Mix(old(mt[..]), 1, 0), key, keyLength).Completed?
      ensures mt[..] == MixKey(Mix(old(mt[..]), 1, 0), key, keyLength).st.mt
      ensures ok <==> KeySpan(keyLength) <= |key|
      ensures ok ==> mt[0] == UPPER_MASK
    {
      ghost var x0 := Mix(mt[..], 1, 0);
      ghost var p := Phase1Run(x0, key, keyLength, Phase1Length(keyLength));
      var i, j, k;
      ok, i, j, k := MixPhase1(key, keyLength);
      if ok {
        i := MixPhase2(i, j, k);
      }
      MixKeyOutcome(x0, key, keyLength, p, ok, mt[..]);
    }

    /** Phase 1 of `init_by_array`, `for k in range(max(N, keyLength), 0, -1)` from i = 1 and
        j = 0: the run Phase1Run describes, ending either completed, with the loop variable k
        left at 1, or at the first out-of-range key read. */
    method MixPhase1(key: seq<Word>, keyLength: int) returns (ok: bool, i: int, j: int, k: int)
      requires mt.Length == N
      modifies mt
      ensures MixValid(Mix(mt[..], i, j))
      ensures Phase1Run(Mix(old(mt[..]), 1, 0), key, keyLength, Phase1Length(keyLength)) ==
              (if ok then Completed(Mix(mt[..], i, j)) else Raised(Mix(mt[..], i, j)))
      ensures ok ==> k == 1
    {
      ghost var x0 := Mix(mt[..], 1, 0);
      i, j := 1, 0;
      var start := if N > keyLength then N else keyLength;
      ghost var target := Phase1Run(x0, key, keyLength, start);
      k := start;
      var next := start;
      while next > 0
        invariant 0 <= next <= start && mt.Length == N
        invariant next < start ==> k == next + 1
        invariant MixValid(Mix(mt[..], i, j))
        invariant Phase1Run(Mix(mt[..], i, j), key, keyLength, next) == target
      {
        k := next;
        if j >= |key| {
          return false, i, j, k;
        }
        ghost var before := Mix(mt[..], i, j);
        i, j := Phase1Iteration(key, keyLength, i, j);
        Phase1RunStep(before, Mix(mt[..], i, j), key, keyLength, next);
        next := next - 1;
      }
      ok := true;
    }

    /** The body of the phase 1 loop, for a key index j in range: the mixed word at i, then
        the advance of i (copying word N-1 into word 0 when it wraps) and of j. */
    method Phase1Iteration(key: seq<Word>, keyLength: int, i0: int, j0: int) returns (i: int, j: int)
      requires mt.Length == N && MixValid(Mix(mt[..], i0, j0)) && j0 < |key|
      modifies mt
      ensures Mix(mt[..], i, j) == Phase1Step(Mix(old(mt[..]), i0, j0), key, keyLength)
    {
      mt[i0] := Phase1Word(mt[i0], mt[i0 - 1], key[j0], j0);
      i := i0 + 1;
      j := j0 + 1;
      if i >= N {
        mt[0] := mt[N - 1];
        i := 1;
      }
      if j >= keyLength {
        j := 0;
      }
    }

    /** Phase 2 of `init_by_array`, `for k in range(N - 1, k, -1)`: N-1-k steps of Phase2Run
        from the indices phase 1 left, j unchanged. */
    method MixPhase2(i0: int, j: int, k: int) returns (i: int)
      requires mt.Length == N && MixValid(Mix(mt[..], i0, j)) && 0 <= k <= N - 1
      modifies mt
      ensures Mix(mt[..], i, j) == Phase2Run(Mix(old(mt[..]), i0, j), N - 1 - k)
    {
      ghost var y0 := Mix(mt[..], i0, j);
      i := i0;
      var next := N - 1;
      while next > k
        invariant k <= next <= N - 1 && mt.Length == N
        invariant Mix(mt[..], i, j) == Phase2Run(y0, N - 1 - next)
      {
        ghost var before := Mix(mt[..], i, j);
        mt[i] := Phase2Word(mt[i], mt[i - 1], i);
        i := i + 1;
        if i >= N {
          mt[0] := mt[N - 1];
          i := 1;
        }
        mt[0] := UPPER_MASK;
        assert Mix(mt[..], i, j) == Phase2Step(before);
        next := next - 1;
      }
    }

    /** The refill: the three passes of the source over the array, in place. */
    method Twist()
      requires Valid()
      modifies mt
      ensures mt[..] == Twisted(old(mt[..]))
    {
      ghost var s := mt[..];
      var kk := 0;
      while kk < N - M
        invariant 0 <= kk <= N - M
        invariant mt[..] == Stage1(s, kk, TwistWord)
        modifies mt
      {
        mt[kk] := TwistWord(mt[kk], mt[kk + 1], mt[kk + M]);
        kk := kk + 1;
      }
      ghost var a := mt[..];
      kk := 0;
      while kk < N - 1
        invariant 0 <= kk <= N - 1
        invariant mt[..] == Stage2(a, kk, TwistWord)
        modifies mt
      {
        mt[kk] := TwistWord(mt[kk], mt[kk + 1], mt[ResolveIndex(kk + (M - N))]);
        kk := kk + 1;
      }
      mt[N - 1] := TwistWord(mt[N - 1], mt[0], mt[M - 1]);
    }

    /** `genrand_int32()`: refill if the cursor is exhausted (seeding with 5489 first if the
        generator was never seeded), then read the word at the cursor, advance the cursor and
        temper the word. */
    method GenrandInt32() returns (y: Word)
      requires Valid()
      modifies this, mt
      ensures Valid() && mt == old(mt)
      ensures (State(), y) == NextU32(old(State()))
    {
      if mti >= N {
        if mti == N + 1 {
          InitGenrand(DEFAULT_SEED);
        }
        Twist();
        mti := 0;
      }
      y := mt[mti];
      mti := mti + 1;
      y := Temper(y);
    }

    /** `genrand_int31()`: one draw shifted right by one place, so below 2^31. */
    method GenrandInt31() returns (r: Word)
      requires Valid()
      modifies this, mt
      ensures Valid() && mt == old(mt)
      ensures r < 0x8000_0000
      ensures (State(), r) == (NextU32(old(State())).0, Int31Of(NextU32(old(State())).1))
    {
      var y := GenrandInt32();
      r := Int31Of(y);
    }

    /** The two integer parts `genrand_res53` computes before turning them into a double:
        it consumes two draws. */
    method GenrandRes53Parts() returns (a: Word, b: Word)
      requires Valid()
      modifies this, mt
      ensures Valid() && mt == old(mt)
      ensures a < 0x800_0000 && b < 0x400_0000
      ensures State() == NextU32(NextU32(old(State())).0).0
      ensures (a, b) == Res53Parts(NextU32(old(State())).1, NextU32(NextU32(old(State())).0).1)
    {
      var y1 := GenrandInt32();
      var y2 := GenrandInt32();
      a, b := y1 >> 5, y2 >> 6;
    }
  }
}
