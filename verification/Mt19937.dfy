/**
 The 32-bit Mersenne twister of sol-random. The sequence it draws from is infinite; the
 engine keeps 624 consecutive words of it and overwrites them in place, one block at a time.
 */
module Mt19937 {

  const N: nat := 624
  const M: nat := 397

  /** One word of the seeding recurrence, from the word before it. */
  function Seeded(k: nat, before: bv32): bv32
    requires k < N
  {
    (k as bv32) + 0x6c078965 * (before ^ (before >> 30))
  }

  /** The twist: the top bit of one word, the rest of the next, and the word 397 further on. */
  function Twist(upper: bv32, lower: bv32, far: bv32): bv32 {
    var y := (upper & 0x80000000) + (lower & 0x7fffffff);
    if y & 1 != 0 then far ^ (y >> 1) ^ 0x9908b0df else far ^ (y >> 1)
  }

  /** The first 624 words follow from the seed. */
  ghost predicate IsSeeded(first: seq<bv32>, seed: bv32) {
    |first| == N && first[0] == seed && forall i :: 0 < i < N ==> first[i] == Seeded(i, first[i - 1])
  }

  /** The infinite sequence x: its first 624 words, then the twist recurrence. */
  function X(first: seq<bv32>, k: nat): bv32
    requires |first| == N
  {
    if k < N then first[k] else Twist(X(first, k - N), X(first, k - N + 1), X(first, k - N + M))
  }

  function Right11(x: bv32): bv32 {
    x ^ (x >> 11)
  }

  function Left7(x: bv32): bv32 {
    x ^ ((x << 7) & 0x9d2c5680)
  }

  function Left15(x: bv32): bv32 {
    x ^ ((x << 15) & 0xefc60000)
  }

  function Right18(x: bv32): bv32 {
    x ^ (x >> 18)
  }

  function Temper(x: bv32): bv32 {
    Right18(Left15(Left7(Right11(x))))
  }

  function UndoRight11(a: bv32): bv32 {
    a ^ (a >> 11) ^ (a >> 22)
  }

  function UndoLeft7(b: bv32): bv32 {
    var m: bv32 := 0x9d2c5680;
    var t1 := b ^ ((b << 7) & m);
    var t2 := b ^ ((t1 << 7) & m);
    var t3 := b ^ ((t2 << 7) & m);
    b ^ ((t3 << 7) & m)
  }

  function Untemper(y: bv32): bv32 {
    UndoRight11(UndoLeft7(Left15(Right18(y))))
  }

  lemma Right11Bits(x: bv32)
    ensures var y := x ^ (x >> 11); y ^ (y >> 11) ^ (y >> 22) == x
    ensures var y := x ^ (x >> 11) ^ (x >> 22); y ^ (y >> 11) == x
  {
  }

  lemma Right11Undone(x: bv32)
    ensures UndoRight11(Right11(x)) == x && Right11(UndoRight11(x)) == x
  {
    var y, z := x ^ (x >> 11), x ^ (x >> 11) ^ (x >> 22);
    assert Right11(x) == y && UndoRight11(x) == z;
    assert UndoRight11(y) == x by {
      Right11Bits(x);
    }
    assert Right11(z) == x by {
      Right11Bits(x);
    }
  }

  lemma Left7Bits(x: bv32)
    ensures
      var m: bv32 := 0x9d2c5680;
      var b := x ^ ((x << 7) & m);
      var t1 := b ^ ((b << 7) & m);
      var t2 := b ^ ((t1 << 7) & m);
      var t3 := b ^ ((t2 << 7) & m);
      b ^ ((t3 << 7) & m) == x
    ensures
      var m: bv32 := 0x9d2c5680;
      var t1 := x ^ ((x << 7) & m);
      var t2 := x ^ ((t1 << 7) & m);
      var t3 := x ^ ((t2 << 7) & m);
      var y := x ^ ((t3 << 7) & m);
      y ^ ((y << 7) & m) == x
  {
  }

  lemma Left7Undone(x: bv32)
    ensures UndoLeft7(Left7(x)) == x && Left7(UndoLeft7(x)) == x
  {
    Left7Bits(x);
  }

  lemma Left15Bits(x: bv32)
    ensures var y := x ^ ((x << 15) & 0xefc60000); y ^ ((y << 15) & 0xefc60000) == x
  {
  }

  lemma Left15Undone(x: bv32)
    ensures Left15(Left15(x)) == x
  {
    Left15Bits(x);
  }

  lemma Right18Bits(x: bv32)
    ensures var y := x ^ (x >> 18); y ^ (y >> 18) == x
  {
  }

  lemma Right18Undone(x: bv32)
    ensures Right18(Right18(x)) == x
  {
    var y := x ^ (x >> 18);
    assert Right18(x) == y;
    assert Right18(y) == x by {
      Right18Bits(x);
    }
  }

  /** Tempering is a bijection on the 32-bit words. */
  lemma TemperBijective(x: bv32)
    ensures Untemper(Temper(x)) == x && Temper(Untemper(x)) == x
  {
    var a, b, c := Right11(x), Left7(Right11(x)), Left15(Left7(Right11(x)));
    Right11Undone(x);
    Left7Undone(a);
    Left15Undone(b);
    Right18Undone(c);
    Right18Undone(x);
    Left15Undone(Right18(x));
    Left7Undone(Left15(Right18(x)));
    Right11Undone(UndoLeft7(Left15(Right18(x))));
  }

  /** (unsigned int)seed. */
  function Low32(seed: bv64): bv32 {
    (seed & 0xffff_ffff) as bv32
  }

  /** Indices run around the array. */
  function Around(i: nat): (r: nat)
    requires i < 2 * N
    ensures r == if i < N then i else i - N
  {
    i % 624
  }

  class Engine {
    var state: array<bv32>
    var index: nat
    ghost var first: seq<bv32>   // the first 624 words of the sequence
    ghost var base: nat          // where in the sequence the stored block begins

    /** How many words were generated so far: a block is used up when the index is back at 0. */
    ghost function Produced(): nat
      requires Valid()
      reads this, state
    {
      if index == 0 then base else base - N + index
    }

    ghost predicate Holds(base: nat)
      reads this, state
    {
      state.Length == N && |first| == N && forall i :: 0 <= i < N ==> state[i] == X(first, base + i)
    }

    ghost predicate Valid()
      reads this, state
    {
      index < N && (index > 0 ==> base >= N) && Holds(base)
    }

    /** engine_mt19937_init; a zero seed is replaced by one from the platform. */
    constructor (seed: bv64, platformSeed: bv64)
      ensures Valid() && fresh(state) && Produced() == 0
      ensures IsSeeded(first, Low32(if seed == 0 then platformSeed else seed))
    {
      var s := Low32(if seed == 0 then platformSeed else seed);
      index, base := 0, 0;
      state := new bv32[N];
      new;
      state[0] := s;
      for i := 1 to N
        invariant state.Length == N && fresh(state) && index == base == 0 && state[0] == s
        invariant forall j :: 0 < j < i ==> state[j] == Seeded(j, state[j - 1])
      {
        state[i] := Seeded(i, state[i - 1]);
      }
      first := state[..];
    }

    /** The loop that replaces the block of 624 words by the next one, in place. */
    method NextBlock()
      requires Holds(base)
      modifies state, this`base
      ensures base == old(base) + N && Holds(base)
    {
      for i := 0 to N
        invariant base == old(base)
        invariant forall j :: 0 <= j < i ==> state[j] == X(first, base + N + j)
        invariant forall j :: i <= j < N ==> state[j] == X(first, base + j)
      {
        var next, far := Around(i + 1), Around(i + M);
        var word := Twist(state[i], state[next], state[far]);
        assert word == X(first, base + N + i) by {
          assert state[next] == X(first, base + i + 1);
          assert state[far] == X(first, base + i + M);
        }
        state[i] := word;
      }
      base := base + N;
    }

    /** engine_mt19937_generate_uint32: the k-th word generated is the tempered x[k + 624]. */
    method Generate() returns (y: bv32)
      requires Valid()
      modifies this, state
      ensures Valid() && state == old(state) && first == old(first)
      ensures Produced() == old(Produced()) + 1
      ensures y == Temper(X(first, old(Produced()) + N))
    {
      if index == 0 {
        NextBlock();
      }
      y := Temper(state[index]);
      index := Around(index + 1);
    }

    /**
     sol_random_fill_buffer: whole words are appended while bytes are missing, so a length
     that is no multiple of 4 is rounded up.
     */
    method FillBuffer(len: nat) returns (words: seq<bv32>)
      requires Valid()
      modifies this, state
      ensures Valid() && state == old(state) && first == old(first)
      ensures len <= 4 * |words| < len + 4
      ensures Produced() == old(Produced()) + |words|
      ensures forall i :: 0 <= i < |words| ==> words[i] == Temper(X(first, old(Produced()) + i + N))
    {
      words := [];
      var total: int := len;
      while total > 0
        invariant Valid() && state == old(state) && first == old(first)
        invariant total == len - 4 * |words| && total > -4
        invariant Produced() == old(Produced()) + |words|
        invariant forall i :: 0 <= i < |words| ==> words[i] == Temper(X(first, old(Produced()) + i + N))
      {
        var value := Generate();
        words := words + [value];
        total := total - 4;
      }
    }
  }

  /** The sequence is a function of the seed. */
  lemma {:induction false} SeededUnique(a: seq<bv32>, b: seq<bv32>, seed: bv32, i: nat)
    requires IsSeeded(a, seed) && IsSeeded(b, seed) && i < N
    ensures a[..i + 1] == b[..i + 1]
  {
    hide Seeded;
    if i > 0 {
      SeededUnique(a, b, seed, i - 1);
      assert a[i - 1] == a[..i][i - 1] && b[i - 1] == b[..i][i - 1];
      assert a[i] == Seeded(i, a[i - 1]) && b[i] == Seeded(i, b[i - 1]);
    }
  }

  // ---------------------------------------------------------------------------
  // The first words from the seed 5489
  // ---------------------------------------------------------------------------

  lemma KnownSeeding()
    ensures Seeded(1, 5489) == 1301868182 && Seeded(2, 1301868182) == 2938499221
  {
  }

  /** One word from an even and one from an odd combination; x[397] and x[398] are given. */
  lemma KnownTwists()
    ensures Twist(5489, 1301868182, 3183906156) == 2601187879
    ensures Twist(1301868182, 2938499221, 1728556020) == 3919438689
  {
  }

  lemma KnownTempering()
    ensures Temper(2601187879) == 3499211612 && Temper(3919438689) == 581869302
  {
  }

  /** Which words make the next one: n = 624 and m = 397. */
  lemma NextWord(first: seq<bv32>, k: nat)
    requires |first| == 624
    ensures X(first, k + 624) == Twist(X(first, k), X(first, k + 1), X(first, k + 397))
  {
    hide Twist;
  }
}
