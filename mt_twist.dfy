/** The refill ("twist") of the state vector, as `genrand_int32` performs it when the
    cursor is exhausted: three passes over the vector, updating it in place.

    The second pass restarts at index 0 rather than continuing at N-M, and for its first
    N-M indices the far index `kk + (M - N)` is negative; Python resolves such an index by
    adding the list's length, so those words are read at `kk + M` and twisted a second time
    from the words the first pass already updated.

    The passes are written for any word combinator `w` (the generator uses TwistWord), so that
    the index bookkeeping is proved apart from the bit arithmetic of a single word. */
module MtTwist {
  import opened MtWords

  /** Python's reading of a list index in [-N, N): a negative index counts from the end,
      that is `(idx + N) % N`. */
  function ResolveIndex(idx: int): (r: nat)
    requires -N <= idx < N
    ensures r < N
    ensures idx >= 0 ==> r == idx
    ensures idx < 0 ==> r == idx + N
  {
    (idx + N) % N
  }

  /** A rule that makes a new word from the word at kk, the word at kk+1 and a far word. */
  type Combinator = (Word, Word, Word) -> Word

  /** Word kk after the first pass twists it from the untouched input. */
  function Once(s: seq<Word>, kk: int, w: Combinator): Word
    requires |s| == N && 0 <= kk < N
  {
    if kk < N - M then w(s[kk], s[kk + 1], s[kk + M]) else s[kk]
  }

  /** The first n iterations of the first pass, `for kk in range(0, N - M)`. Each of them
      reads only words it has not yet written, so word kk is the once-twisted word. */
  function Stage1(s: seq<Word>, n: nat, w: Combinator): (r: seq<Word>)
    requires |s| == N && n <= N - M
    ensures |r| == N
    decreases n, |s|
  {
    if n == 0 then s
    else
      var p := Stage1(s, n - 1, w);
      var kk := n - 1;
      p[kk := w(p[kk], p[kk + 1], p[kk + M])]
  }

  /** Word t once the second pass has rewritten it, when the pass starts from `base`: for
      t < N-M the far word is base word t+M, which the pass has not reached; from N-M on it
      is word t-(N-M), which the pass has already rewritten. */
  function SecondPassWord(base: seq<Word>, t: nat, w: Combinator): Word
    requires |base| == N && t < N - 1
    decreases t
  {
    if t < N - M then w(base[t], base[t + 1], base[t + M])
    else w(base[t], base[t + 1], SecondPassWord(base, t - (N - M), w))
  }

  /** The first n iterations of the second pass, `for kk in range(0, N - 1)`, whose far
      index `kk + (M - N)` is resolved Python-style. */
  function Stage2(base: seq<Word>, n: nat, w: Combinator): (r: seq<Word>)
    requires |base| == N && n <= N - 1
    ensures |r| == N
    decreases n, |base|
  {
    if n == 0 then base
    else
      var p := Stage2(base, n - 1, w);
      var kk := n - 1;
      p[kk := w(p[kk], p[kk + 1], p[ResolveIndex(kk + (M - N))])]
  }

  /** Each iteration of the first pass reads only words it has not yet written, so after
      n of them word t is the once-twisted word for t < n and untouched from n on. */
  lemma {:induction false} Stage1Words(s: seq<Word>, n: nat, w: Combinator)
    requires |s| == N && n <= N - M
    ensures forall t :: 0 <= t < n ==> Stage1(s, n, w)[t] == Once(s, t, w)
    ensures forall t :: n <= t < N ==> Stage1(s, n, w)[t] == s[t]
    decreases n
  {
    if n > 0 {
      Stage1Words(s, n - 1, w);
    }
  }

  /** After n iterations of the second pass, word t is SecondPassWord for t < n and
      untouched from n on. */
  lemma {:induction false} Stage2Words(base: seq<Word>, n: nat, w: Combinator)
    requires |base| == N && n <= N - 1
    ensures forall t :: 0 <= t < n ==> Stage2(base, n, w)[t] == SecondPassWord(base, t, w)
    ensures forall t :: n <= t < N ==> Stage2(base, n, w)[t] == base[t]
    decreases n
  {
    if n > 0 {
      Stage2Words(base, n - 1, w);
      var kk := n - 1;
      if kk >= N - M {
        assert Stage2(base, n - 1, w)[kk - (N - M)] == SecondPassWord(base, kk - (N - M), w);
      }
    }
  }

  /** The last word, which wraps around to word 0 and reads word M-1. */
  function Stage3(p: seq<Word>, w: Combinator): (r: seq<Word>)
    requires |p| == N
    ensures |r| == N
  {
    p[N - 1 := w(p[N - 1], p[0], p[M - 1])]
  }

  /** The three passes in order. */
  function TwistedWith(s: seq<Word>, w: Combinator): seq<Word>
    requires |s| == N
  {
    Stage3(Stage2(Stage1(s, N - M, w), N - 1, w), w)
  }

  /** The whole refill as the source performs it. */
  function Twisted(s: seq<Word>): seq<Word>
    requires |s| == N
  {
    TwistedWith(s, TwistWord)
  }

  /** Word t (t < N-1) of the refilled vector, stated against the input alone: words below
      N-M are twisted twice, the second time from once-twisted words; each later word is
      twisted once from the input, with far word the refilled word t-(N-M). */
  function RefilledWord(s: seq<Word>, t: nat, w: Combinator): Word
    requires |s| == N && t < N - 1
    decreases t
  {
    if t < N - M then w(Once(s, t, w), Once(s, t + 1, w), s[t + M])
    else w(s[t], s[t + 1], RefilledWord(s, t - (N - M), w))
  }

  /** The refilled vector word by word; the last word joins the input's top bit with the
      new word 0 and reads the new word M-1. */
  predicate IsTwistOf(s: seq<Word>, r: seq<Word>, w: Combinator)
    requires |s| == N
  {
    |r| == N &&
    (forall t :: 0 <= t < N - 1 ==> r[t] == RefilledWord(s, t, w)) &&
    r[N - 1] == w(s[N - 1], RefilledWord(s, 0, w), RefilledWord(s, M - 1, w))
  }

  /** Starting the second pass from the first pass's output gives RefilledWord. */
  lemma {:induction false} SecondPassOfFirst(s: seq<Word>, t: nat, w: Combinator)
    requires |s| == N && t < N - 1
    ensures SecondPassWord(Stage1(s, N - M, w), t, w) == RefilledWord(s, t, w)
    decreases t
  {
    Stage1Words(s, N - M, w);
    if t >= N - M {
      SecondPassOfFirst(s, t - (N - M), w);
    }
  }

  /** The three passes produce the vector IsTwistOf describes. */
  lemma {:induction false} TwistedIsTwist(s: seq<Word>, w: Combinator)
    requires |s| == N
    ensures IsTwistOf(s, TwistedWith(s, w), w)
  {
    var a := Stage1(s, N - M, w);
    var b := Stage2(a, N - 1, w);
    var r := TwistedWith(s, w);
    Stage1Words(s, N - M, w);
    Stage2Words(a, N - 1, w);
    forall t | 0 <= t < N - 1
      ensures r[t] == RefilledWord(s, t, w)
    {
      SecondPassOfFirst(s, t, w);
    }
    SecondPassOfFirst(s, 0, w);
    SecondPassOfFirst(s, M - 1, w);
  }

  /** IsTwistOf determines the refill: the source's passes compute exactly the vector
      the word-by-word description defines. */
  lemma {:induction false} TwistDetermined(s: seq<Word>, r: seq<Word>, w: Combinator)
    requires |s| == N && IsTwistOf(s, r, w)
    ensures r == TwistedWith(s, w)
  {
    TwistedIsTwist(s, w);
  }
}
