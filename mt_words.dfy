/** Words, period parameters and the tempering transform of the MT19937 generator.

    Every state word is held as a 32-bit bit-vector, so the `& 0xffffffff` masks the
    source applies after each addition, subtraction and multiplication are the
    wrap-around of `bv32` arithmetic. */
module MtWords {

  /** One unsigned 32-bit word of the state vector. */
  type Word = bv32

  /** Degree of recurrence: the number of words in the state vector. */
  const N: int := 624
  /** Middle distance of the twist recurrence. */
  const M: int := 397
  /** Constant vector a of the twist. */
  const MATRIX_A: Word := 0x9908b0df
  /** Most significant w-r bits. */
  const UPPER_MASK: Word := 0x80000000
  /** Least significant r bits. */
  const LOWER_MASK: Word := 0x7fffffff
  /** Masks used by the second and third tempering steps. */
  const TEMPERING_MASK_B: Word := 0x9d2c5680
  const TEMPERING_MASK_C: Word := 0xefc60000

  /** The low 32 bits of a non-negative integer, as the source's `& 0xffffffff` takes them:
      built from the binary digits of n, so the bits above bit 31 fall off the left. */
  function LowWord(n: nat): Word
    decreases n
  {
    if n == 0 then 0 else (LowWord(n / 2) << 1) | (if n % 2 == 0 then 0 else 1)
  }

  /** LowWord of an even number 2h is LowWord(h) shifted up one binary digit. */
  lemma {:induction false} LowWordEven(h: nat)
    ensures LowWord(2 * h) == LowWord(h) << 1
  {
    if h > 0 {
      assert (2 * h) / 2 == h && (2 * h) % 2 == 0;
    }
  }

  /** LowWord of an odd number 2h+1 is LowWord(h) shifted up, with the lowest bit set. */
  lemma {:induction false} LowWordOdd(h: nat)
    ensures LowWord(2 * h + 1) == (LowWord(h) << 1) | 1
  {
    assert (2 * h + 1) / 2 == h && (2 * h + 1) % 2 == 1;
  }

  /** Setting the free lowest bit is adding one, and one more carries into the upper bits. */
  lemma ShiftInOne(l: Word)
    ensures (l << 1) | 1 == (l << 1) + 1
    ensures ((l << 1) | 1) + 1 == (l + 1) << 1
  {
  }

  /** The successor of an even number sets the lowest bit. */
  lemma {:induction false} LowWordSuccEven(h: nat)
    ensures LowWord(2 * h + 1) == LowWord(2 * h) + 1
  {
    LowWordEven(h);
    LowWordOdd(h);
    ShiftInOne(LowWord(h));
  }

  /** The successor of an odd number carries into its upper half. */
  lemma {:induction false} LowWordSuccOdd(h: nat)
    ensures LowWord(2 * h + 2) == LowWord(2 * h + 1) + 1
    decreases 2 * h + 1, 0, 0
  {
    LowWordSucc(h);
    LowWordOdd(h);
    LowWordEven(h + 1);
    assert 2 * (h + 1) == 2 * h + 2;
    ShiftInOne(LowWord(h));
  }

  lemma {:induction false} LowWordSuccEvenAt(n: nat)
    requires n % 2 == 0
    ensures LowWord(n + 1) == LowWord(n) + 1
  {
    var h := n / 2;
    LowWordSuccEven(h);
    assert n == 2 * h && n + 1 == 2 * h + 1;
  }

  lemma {:induction false} LowWordSuccOddAt(n: nat)
    requires n % 2 == 1
    ensures LowWord(n + 1) == LowWord(n) + 1
    decreases n, 0, 1
  {
    var h := n / 2;
    LowWordSuccOdd(h);
    assert n == 2 * h + 1 && n + 1 == 2 * h + 2;
  }

  /** LowWord counts in 32-bit arithmetic: it starts at 0 (its first case) and the low
      word of n+1 is the low word of n plus one, wrapping around at 2^32. These two facts
      determine the map uniquely, as n mod 2^32 taken as a word. */
  lemma {:induction false} LowWordSucc(n: nat)
    ensures LowWord(n + 1) == LowWord(n) + 1
    decreases n, 1, 0
  {
    if n % 2 == 0 {
      LowWordSuccEvenAt(n);
    } else {
      LowWordSuccOddAt(n);
    }
  }

  /** 2^e. */
  function Pow2(e: nat): (p: nat)
    ensures p > 0
  {
    if e == 0 then 1 else 2 * Pow2(e - 1)
  }

  /** The word 1 shifted up e places: the word 2^e while e < 32, and 0 from 32 on. */
  function PowerWord(e: nat): Word
  {
    if e == 0 then 1 else PowerWord(e - 1) << 1
  }

  /** Doubling a number shifts its low word up one place. */
  lemma {:induction false} LowWordDoubles(p: nat, w: Word)
    requires LowWord(p) == w
    ensures LowWord(2 * p) == w << 1
  {
    LowWordEven(p);
  }

  lemma Pow2Of32()
    ensures Pow2(32) == 0x1_0000_0000
  {
    assert Pow2(8) == 0x100;
    assert Pow2(16) == 0x1_0000;
    assert Pow2(24) == 0x100_0000;
  }

  lemma PowerWordOf32()
    ensures PowerWord(32) == 0
  {
    assert PowerWord(8) == 0x100;
    assert PowerWord(16) == 0x1_0000;
    assert PowerWord(24) == 0x100_0000;
  }

  /** 2^32 has no bits in the low word. */
  lemma LowWordWraps()
    ensures LowWord(0x1_0000_0000) == 0
  {
    var p: nat, w: Word, e := 1, 1, 0;
    while e < 32
      invariant e <= 32 && p == Pow2(e) && w == PowerWord(e) && LowWord(p) == w
    {
      LowWordDoubles(p, w);
      p, w, e := 2 * p, w << 1, e + 1;
    }
    Pow2Of32();
    PowerWordOf32();
  }

  /** Numbers with the same low word have successors with the same low word. */
  lemma {:induction false} LowWordSuccAgree(x: nat, y: nat)
    requires LowWord(x) == LowWord(y)
    ensures LowWord(x + 1) == LowWord(y + 1)
  {
    LowWordSucc(x);
    LowWordSucc(y);
  }

  /** The low word repeats with period 2^32. */
  lemma {:induction false} LowWordPeriodic(n: nat)
    ensures LowWord(n + 0x1_0000_0000) == LowWord(n)
  {
    if n == 0 {
      LowWordWraps();
    } else {
      LowWordPeriodic(n - 1);
      LowWordSuccAgree(n - 1 + 0x1_0000_0000, n - 1);
    }
  }

  lemma ModDown(n: nat, m: nat)
    requires m + 0x1_0000_0000 == n
    ensures m % 0x1_0000_0000 == n % 0x1_0000_0000
  {
  }

  /** The source's `& 0xffffffff` keeps n mod 2^32: the low word of n is that of n mod 2^32. */
  lemma {:induction false} LowWordMod(n: nat)
    ensures LowWord(n) == LowWord(n % 0x1_0000_0000)
    decreases n
  {
    if n >= 0x1_0000_0000 {
      var m := n - 0x1_0000_0000;
      LowWordPeriodic(m);
      LowWordMod(m);
      ModDown(n, m);
    }
  }

  /** `mag01[x]`: the twist's contribution for low bit x, x * MATRIX_A. */
  function Mag01(bit: Word): (w: Word)
    requires bit == 0 || bit == 1
    ensures w == bit * MATRIX_A
  {
    if bit == 0 then 0 else MATRIX_A
  }

  /** One twist step: the upper bit of `hi` joined to the lower 31 bits of `lo` gives y,
      and the new word is `far ^ (y >> 1) ^ mag01[y & 1]`. */
  function TwistWord(hi: Word, lo: Word, far: Word): Word
  {
    var y := (hi & UPPER_MASK) | (lo & LOWER_MASK);
    far ^ (y >> 1) ^ Mag01(y & 1)
  }

  /** A twist step reads only the upper bit of `hi` and the lower 31 bits of `lo`. */
  lemma TwistWordReads(hi: Word, lo: Word, far: Word)
    ensures TwistWord(hi, lo, far) == TwistWord(hi & UPPER_MASK, lo & LOWER_MASK, far)
  {
  }

  /** The four tempering steps applied to a raw state word. */
  function Temper(y0: Word): Word
  {
    var y1 := y0 ^ (y0 >> 11);
    var y2 := y1 ^ ((y1 << 7) & TEMPERING_MASK_B);
    var y3 := y2 ^ ((y2 << 15) & TEMPERING_MASK_C);
    y3 ^ (y3 >> 18)
  }

  /** `genrand_int32() >> 1`, the value `genrand_int31` hands back. */
  function Int31Of(y: Word): (r: Word)
    ensures r < 0x8000_0000
    ensures r == y / 2
  {
    y >> 1
  }
}
