/** The Mersenne Twister: a block of 624 words, reloaded in place, against the plain recurrence. */
module Twister {

  const N: nat := 624
  const M: nat := 397

  /** `0 - (s1 & 1)` is all ones for an odd `s1`. */
  function Twist(m: bv32, s0: bv32, s1: bv32): bv32 {
    m ^ (((s0 & 0x8000_0000) | (s1 & 0x7fff_ffff)) >> 1) ^ ((0 - (s1 & 1)) & 0x9908_b0df)
  }

  /** The four steps of the tempering. */
  function Right11(s1: bv32): bv32 { Xor(s1, Shr11(s1)) }
  function Left7(s1: bv32): bv32 { s1 ^ ((s1 << 7) & 0x9d2c_5680) }
  function Left15(s1: bv32): bv32 { s1 ^ ((s1 << 15) & 0xefc6_0000) }
  function Right18(s1: bv32): bv32 { Xor(s1, Shr18(s1)) }

  function Xor(a: bv32, b: bv32): bv32 { a ^ b }
  function Shr11(a: bv32): bv32 { a >> 11 }
  function Shr18(a: bv32): bv32 { a >> 18 }

  function Temper(x: bv32): bv32 {
    Right18(Left15(Left7(Right11(x))))
  }

  function Scramble(r: bv32, i: bv32): bv32 {
    0x6c07_8965 * (r ^ (r >> 30)) + i
  }

  /** The word at `i` of the block that a seed starts from. */
  function Initial(seed: bv32, i: nat): bv32
    requires i < N
  {
    if i == 0 then seed else Scramble(Initial(seed, i - 1), i as bv32)
  }

  /** The recurrence over an initial block: `x[k + N]` from `x[k + M]`, `x[k]` and `x[k + 1]`. */
  ghost function X(init: seq<bv32>, k: nat): bv32
    requires |init| == N
  {
    if k < N then init[k] else Twist(X(init, k - N + M), X(init, k - N), X(init, k - N + 1))
  }

  /** The words from `from` on. */
  ghost predicate IsBlock(init: seq<bv32>, words: seq<bv32>, from: nat) {
    |init| == N && |words| == N && forall q | 0 <= q < N :: words[q] == X(init, from + q)
  }

  /** A saved state: the block, and how many of its words are left, after `drawn` draws. */
  ghost predicate Saved(words: seq<bv32>, left: nat, init: seq<bv32>, drawn: nat) {
    left <= N && IsBlock(init, words, drawn + left)
  }

  /** A block determines every later word, wherever in the stream it stands. */
  lemma {:induction false} BlockDeterminesStream(init: seq<bv32>, words: seq<bv32>, from: nat, k: nat)
    requires IsBlock(init, words, from)
    ensures X(words, k) == X(init, from + k)
    decreases k
  {
    if k >= N {
      BlockDeterminesStream(init, words, from, k - N + M);
      BlockDeterminesStream(init, words, from, k - N);
      BlockDeterminesStream(init, words, from, k - N + 1);
      assert from + k - N + M == from + (k - N + M);
    }
  }

  /** Two generators with the same words and the same count draw the same numbers for ever. */
  lemma SameStateSameStream(
    words: seq<bv32>, left: nat, init: seq<bv32>, drawn: nat, init': seq<bv32>, drawn': nat, k: nat)
    requires Saved(words, left, init, drawn) && Saved(words, left, init', drawn')
    ensures Temper(X(init, N + drawn + k)) == Temper(X(init', N + drawn' + k))
  {
    hide X, Temper;
    BlockDeterminesStream(init, words, drawn + left, N - left + k);
    BlockDeterminesStream(init', words, drawn' + left, N - left + k);
  }

  // ------------------------------------------------------------------ the mixing functions

  /** The steps of the tempering, undone one by one; the last two are their own inverses. */
  function Untemper(y: bv32): bv32 {
    UndoRight11(UndoLeft7(Left15(Right18(y))))
  }

  function UndoLeft7(b: bv32): bv32 {
    var a1 := Left7(b);
    var a2 := b ^ ((a1 << 7) & 0x9d2c_5680);
    var a3 := b ^ ((a2 << 7) & 0x9d2c_5680);
    b ^ ((a3 << 7) & 0x9d2c_5680)
  }

  function UndoRight11(a: bv32): bv32 {
    Xor(a, Shr11(Right11(a)))
  }

  lemma XorLaws(a: bv32, b: bv32)
    ensures Xor(Xor(a, b), b) == a && Xor(a, a) == 0 && Xor(a, 0) == a && Xor(0, a) == a
  {
  }

  lemma XorAssoc(a: bv32, b: bv32, c: bv32)
    ensures Xor(Xor(a, b), c) == Xor(a, Xor(b, c))
  {
  }

  lemma ShiftsDistribute(a: bv32, b: bv32)
    ensures Shr18(Xor(a, b)) == Xor(Shr18(a), Shr18(b)) && Shr11(Xor(a, b)) == Xor(Shr11(a), Shr11(b))
  {
  }

  lemma ShiftsEnd(a: bv32)
    ensures Shr18(Shr18(a)) == 0 && Shr11(Shr11(Shr11(a))) == 0
  {
  }

  lemma UndoesRight18(x: bv32)
    ensures Right18(Right18(x)) == x
  {
    hide Xor, Shr11, Shr18;
    var d := Shr18(x);
    ShiftsDistribute(x, d);
    ShiftsEnd(x);
    XorLaws(d, d);
    XorLaws(x, d);
  }

  lemma UndoesLeft15(x: bv32)
    ensures Left15(Left15(x)) == x
  {
  }

  lemma UndoesLeft7(x: bv32)
    ensures UndoLeft7(Left7(x)) == x
  {
  }

  lemma UndoesRight11(x: bv32)
    ensures UndoRight11(Right11(x)) == x
  {
    hide Xor, Shr11, Shr18;
    var d, e := Shr11(x), Shr11(Shr11(x));
    ShiftsDistribute(x, d);
    ShiftsDistribute(x, e);
    ShiftsEnd(x);
    XorAssoc(x, d, Xor(d, e));
    XorAssoc(d, d, e);
    XorLaws(d, d);
    XorLaws(e, e);
    XorLaws(x, d);
  }

  /** The tempering loses nothing: every word comes back from its number. */
  lemma TemperRoundTrip(x: bv32)
    ensures Untemper(Temper(x)) == x
  {
    hide Right11, Left7, Left15, Right18, UndoLeft7, UndoRight11;
    UndoesRight18(Left15(Left7(Right11(x))));
    UndoesLeft15(Left7(Right11(x)));
    UndoesLeft7(Right11(x));
    UndoesRight11(x);
  }

  /** Values of the mixing functions at single words. */
  lemma ReferenceValues()
    ensures Temper(1) == 0x0040_0091 && Temper(0x8000_0000) == 0x8810_2204
    ensures Temper(0xffff_ffff) == 0x6fe0_1bf8 && Temper(0x1234_5678) == 0x2b7e_4a2d
    ensures Twist(0, 0xffff_ffff, 0) == 0x4000_0000 && Twist(0, 0, 0xffff_ffff) == 0xa6f7_4f20
    ensures Twist(0, 0, 0xffff_fffe) == 0x3fff_ffff && Twist(0xffff_ffff, 0, 1) == 0x66f7_4f20
    ensures Scramble(5489, 1) == 1301868182 && Scramble(1301868182, 2) == 2938499221
    ensures Temper(Twist(3183906156, 5489, 1301868182)) == 3499211612
  {
  }

  /** The first word after the initial block comes from three of its words. */
  lemma FirstNewWord(init: seq<bv32>)
    requires |init| == 624
    ensures X(init, 624) == Twist(init[397], init[0], init[1])
  {
    assert X(init, 397) == init[397] && X(init, 0) == init[0] && X(init, 1) == init[1];
  }

  /** `n` numbers in a row, after `drawn` draws. */
  ghost function Numbers(init: seq<bv32>, drawn: nat, n: nat): (r: seq<bv32>)
    requires |init| == N
    ensures |r| == n && forall q | 0 <= q < n :: r[q] == Temper(X(init, N + drawn + q))
  {
    if n == 0 then [] else Numbers(init, drawn, n - 1) + [Temper(X(init, N + drawn + n - 1))]
  }

  /**
   * Numbers determine the stream: two generators that draw the same 624 numbers in a row draw the
   * same numbers for ever after.
   */
  lemma NumbersDetermineStream(init: seq<bv32>, drawn: nat, init': seq<bv32>, drawn': nat, k: nat)
    requires |init| == |init'| == N && Numbers(init, drawn, N) == Numbers(init', drawn', N)
    ensures Temper(X(init, N + drawn + k)) == Temper(X(init', N + drawn' + k))
  {
    hide X, Temper, Untemper, Numbers;
    var words := seq(N, q requires 0 <= q < N => X(init, N + drawn + q));
    forall q | 0 <= q < N ensures words[q] == X(init', N + drawn' + q) {
      assert Numbers(init, drawn, N)[q] == Numbers(init', drawn', N)[q];
      TemperRoundTrip(X(init, N + drawn + q));
      TemperRoundTrip(X(init', N + drawn' + q));
    }
    BlockDeterminesStream(init, words, N + drawn, k);
    BlockDeterminesStream(init', words, N + drawn', k);
  }

  class Generator {
    const state: array<bv32>
    var left: nat
    var next: nat
    /** The initial block, and the number of words drawn so far. */
    ghost var init: seq<bv32>
    ghost var drawn: nat

    ghost predicate Valid()
      reads this, state
    {
      && state.Length == N && left <= N && next == N - left
      && IsBlock(init, state[..], drawn + left)
    }

    /** Words below `p` are those of the next block. */
    ghost predicate Half(from: nat, p: nat)
      reads this, state
    {
      && state.Length == N && |init| == N && p <= N
      && (forall q | 0 <= q < p :: state[q] == X(init, from + N + q))
      && (forall q | p <= q < N :: state[q] == X(init, from + q))
    }

    lemma NextWord(from: nat, p: nat, m: bv32, s0: bv32, s1: bv32)
      requires Half(from, p) && p < N
      requires m == X(init, from + p + M) && s0 == X(init, from + p) && s1 == X(init, from + p + 1)
      ensures Twist(m, s0, s1) == X(init, from + N + p)
    {
      var k := from + N + p;
      assert k - N + M == from + p + M && k - N == from + p && k - N + 1 == from + p + 1;
    }

    /** The words whose partner 397 places ahead is still old. */
    method ReloadFront(ghost from: nat)
      requires Half(from, 0)
      modifies state
      ensures Half(from, N - M)
    {
      hide Twist, X;
      var p := 0;
      var i := N - M;
      while i > 0
        invariant 0 <= i && p == N - M - i && Half(from, p)
      {
        i := i - 1;
        NextWord(from, p, state[p + M], state[p], state[p + 1]);
        state[p] := Twist(state[p + M], state[p], state[p + 1]);
        p := p + 1;
      }
    }

    /** The words whose partner has been replaced already. */
    method ReloadBack(ghost from: nat)
      requires Half(from, N - M)
      modifies state
      ensures Half(from, N - 1)
    {
      hide Twist, X;
      var p := N - M;
      var i := M - 1;
      while i > 0
        invariant 0 <= i && p == N - 1 - i && N - M <= p && Half(from, p)
      {
        NextWord(from, p, state[p + M - N], state[p], state[p + 1]);
        state[p] := Twist(state[p + M - N], state[p], state[p + 1]);
        p := p + 1;
        i := i - 1;
      }
    }

    /** All words are replaced in place, and the block is the next one of the recurrence. */
    method Reload(ghost from: nat)
      requires Half(from, 0)
      modifies this, state
      ensures Half(from + N, 0) && left == N && next == 0 && init == old(init) && drawn == old(drawn)
    {
      hide Twist, X;
      ReloadFront(from);
      ReloadBack(from);
      var p := N - 1;
      NextWord(from, p, state[p + M - N], state[p], state[0]);
      state[p] := Twist(state[p + M - N], state[p], state[0]);
      left, next := N, 0;
    }

    /** A generator seeded with one number. */
    constructor (seed: bv32)
      ensures Valid() && fresh(state) && drawn == 0
      ensures |init| == N && forall i | 0 <= i < N :: init[i] == Initial(seed, i)
    {
      state := new bv32[N];
      left, next, drawn := 0, 0, 0;
      new;
      Seed(seed);
    }

    method Seed(seed: bv32)
      requires state.Length == N
      modifies this, state
      ensures Valid() && drawn == 0
      ensures |init| == N && forall i | 0 <= i < N :: init[i] == Initial(seed, i)
    {
      hide Initial;
      Initialize(seed);
      init, drawn := state[..], 0;
      Reload(0);
    }

    method Initialize(seed: bv32)
      requires state.Length == N
      modifies state
      ensures forall i | 0 <= i < N :: state[i] == Initial(seed, i)
    {
      hide Scramble;
      state[0] := seed;
      var i := 1;
      while i < N
        invariant 1 <= i <= N && forall k | 0 <= k < i :: state[k] == Initial(seed, k)
      {
        state[i] := Scramble(state[i - 1], i as bv32);
        i := i + 1;
      }
    }

    /** The `drawn`-th number is the tempered word `N + drawn` of the recurrence. */
    method RandInt() returns (r: bv32)
      requires Valid()
      modifies this, state
      ensures Valid() && init == old(init) && drawn == old(drawn) + 1
      ensures r == Temper(X(init, N + old(drawn)))
    {
      hide Temper, X;
      if left == 0 {
        Reload(drawn);
      }
      left := left - 1;
      r := Temper(state[next]);
      next := next + 1;
      drawn := drawn + 1;
    }

    /** The words go to the array; the count, which the original puts behind them, is returned. */
    method Save(saved: array<bv32>) returns (count: nat)
      requires Valid() && saved.Length == N && saved != state
      modifies saved
      ensures Valid() && Saved(saved[..], count, init, drawn)
    {
      hide X;
      var i := 0;
      while i < N
        invariant 0 <= i <= N && forall k | 0 <= k < i :: saved[k] == state[k]
      {
        saved[i] := state[i];
        i := i + 1;
      }
      count := left;
      assert saved[..] == state[..];
    }

    /** Loading continues the stream of the generator that was saved. */
    method Load(saved: array<bv32>, count: nat, ghost init': seq<bv32>, ghost drawn': nat)
      requires state.Length == N && saved.Length == N && saved != state
      requires Saved(saved[..], count, init', drawn')
      modifies this, state
      ensures Valid() && init == init' && drawn == drawn'
    {
      hide X;
      var i := 0;
      while i < N
        invariant 0 <= i <= N && forall k | 0 <= k < i :: state[k] == saved[k]
      {
        state[i] := saved[i];
        i := i + 1;
      }
      left := count;
      next := N - left;
      init, drawn := init', drawn';
      assert state[..] == saved[..];
    }
  }
}
