/**
  The Lehmer generator of src/base/rand_generator.cpp: a 32-bit split multiplication
  that computes the modular product, and what follows for every run.
 */
module Lehmer {
  import opened Machine

  const MULTIPLIER: nat := 48271
  const M: nat := 0x7fff_ffff                 // 2^31 - 1
  const INVERSE: nat := 1899818559            // MULTIPLIER * INVERSE == 42704 * M + 1

  /** The states from which the generator works. */
  predicate InRange(state: int) {
    1 <= state < M
  }

  /** `rand()` on any 32-bit state, every intermediate result reduced to 32 bits. */
  function Next(state: u32): u32 {
    var low := Wrap(state % 0x8000 * MULTIPLIER);
    var high := Wrap(state / 0x8000 * MULTIPLIER);
    var x := Wrap(low + Wrap(high % U16 * 0x8000) + high / U16);
    Wrap(x % 0x8000_0000 + x / 0x8000_0000)
  }

  lemma Remainder(p: int, q: int, r: int)
    requires p == M * q + r && 0 <= r < M
    ensures p % M == r
  {
  }

  lemma WrapSmall(x: nat)
    requires x < U32
    ensures Wrap(x) == x
  {
  }

  // The intermediate results of `rand()` in unbounded arithmetic.

  function Low(state: nat): nat { state % 0x8000 * MULTIPLIER }

  function High(state: nat): nat { state / 0x8000 * MULTIPLIER }

  function Middle(high: nat): nat { high % U16 * 0x8000 }

  function Sum(low: nat, high: nat): nat { low + Middle(high) + high / U16 }

  function Folded(x: nat): nat { x % 0x8000_0000 + x / 0x8000_0000 }

  function Unreduced(state: nat): nat { Folded(Sum(Low(state), High(state))) }

  /** How many times 2^32 a 32-bit `high` loses. */
  function Lost(state: u32): nat { if High(state) < U32 then 0 else 1 }

  lemma WrapHigh(x: nat, y: nat)
    requires y < U32 && (x == y || x == y + U32)
    ensures Wrap(x) == y
  {
  }

  lemma SumBound(low: nat, high: nat)
    requires low <= 0x7fff * MULTIPLIER && high < U32
    ensures Middle(high) < U32 && Sum(low, high) < 0xe000_0000 && Folded(Sum(low, high)) <= M
  {
    assert high % U16 <= 0xffff && high / U16 <= 0xffff;
    assert Sum(low, high) / 0x8000_0000 <= 1;
  }

  /** Of the intermediate results only `high` can overflow, and at most once. */
  lemma OnlyHighOverflows(state: u32)
    ensures var low, high := Low(state), High(state) - U32 * Lost(state);
            && low < U32 && 0 <= high < U32 && Middle(high) < U32
            && Sum(low, high) < 0xe000_0000 && Folded(Sum(low, high)) <= M
            && Next(state) == Folded(Sum(low, high))
  {
    var low, high := Low(state), High(state) - U32 * Lost(state);
    assert state / 0x8000 < 0x2_0000 && state % 0x8000 < 0x8000;
    assert 0 <= high < U32;
    WrapSmall(low);
    WrapHigh(High(state), high);
    SumBound(low, high);
    WrapSmall(Middle(high));
    WrapSmall(Sum(low, high));
    WrapSmall(Folded(Sum(low, high)));
  }

  /** It does so exactly from this state on; below, the computation is the unbounded one. */
  lemma NoOverflowIff(state: u32)
    ensures High(state) < U32 <==> state < 88977 * 0x8000
    ensures High(state) < U32 ==> Next(state) == Unreduced(state)
  {
    OnlyHighOverflows(state);
    assert High(state) < U32 <==> state / 0x8000 <= 88976;
  }

  /** The pieces of the split multiplication. */
  lemma SplitProduct(a: nat, b: nat, h1: nat, h0: nat, t: nat, y: nat, lost: nat)
    requires MULTIPLIER * a == h1 * 0x1_0000 + h0 + U32 * lost
    requires MULTIPLIER * b + h0 * 0x8000 + h1 == t * 0x8000_0000 + y
    ensures MULTIPLIER * (a * 0x8000 + b) == M * (h1 + t + 0x1_0000 * lost) + (y + t) + 0x1_0000 * lost
  {
  }

  /** The folded sum differs from the product by a multiple of M, but for what `high` loses. */
  lemma NextIsCongruent(state: u32) returns (q: nat)
    ensures Next(state) <= M && MULTIPLIER * state == M * q + Next(state) + 0x1_0000 * Lost(state)
  {
    OnlyHighOverflows(state);
    var a, b, lost := state / 0x8000, state % 0x8000, Lost(state);
    var low, high := Low(state), High(state) - U32 * lost;
    var x := Sum(low, high);
    var t, y := x / 0x8000_0000, x % 0x8000_0000;
    SplitProduct(a, b, high / U16, high % U16, t, y, lost);
    q := high / U16 + t + 0x1_0000 * lost;
  }

  lemma MultipleOfM(d: int, e: int)
    requires d == M * e && -0x7fff_ffff < d < M
    ensures d == 0
  {
  }

  /** The multiplier is invertible, so only multiples of M are mapped to multiples of M. */
  lemma Invertible(d: int, k: int)
    requires MULTIPLIER * d == M * k && -0x7fff_ffff < d < M
    ensures d == 0
  {
    MultipleOfM(d, INVERSE * k - 42704 * d);
  }

  /** One step is the modular product, computed without overflow, and stays in range. */
  lemma NextIsProduct(state: u32)
    requires InRange(state)
    ensures Next(state) == (MULTIPLIER * state) % M && InRange(Next(state))
    ensures Low(state) < U32 && High(state) < U32 && Middle(High(state)) < U32
    ensures Sum(Low(state), High(state)) < U32 && Next(state) == Unreduced(state)
  {
    NoOverflowIff(state);
    OnlyHighOverflows(state);
    var q := NextIsCongruent(state);
    var r := Next(state);
    if r == 0 { Invertible(state, q); }
    if r == M { Invertible(state, q + 1); }
    Remainder(MULTIPLIER * state, q, r);
  }

  // ------------------------------------------------------------------ bad seeds

  const THIRD: u32 := 3997164152              // MULTIPLIER * THIRD == 89848 * M + 2^16

  lemma BadSeeds()
    ensures Next(0) == 0 && Next(0x7fff_ffff) == 0x7fff_ffff
  {
    var low: int, high: int := 0x7fff * MULTIPLIER, 0xffff * MULTIPLIER;
    assert low == 1581695857 && high == 3163439985;
    assert high / U16 == 48270 && high % U16 == 17265;
    assert low + 17265 * 0x8000 + 48270 == 0x7fff_ffff;
  }

  lemma ThirdSeed()
    ensures Next(THIRD) == 0x7fff_ffff
  {
    assert THIRD / 0x8000 == 121983 && THIRD % 0x8000 == 25208;
    var low: int, high: int := 25208 * MULTIPLIER, 121983 * MULTIPLIER - U32;
    assert low == 1216815368 && high == 1593274097;
    assert high / U16 == 24311 && high % U16 == 28401;
    assert low + 28401 * 0x8000 + 24311 == 2147483647;
    OnlyHighOverflows(THIRD);
  }

  lemma AboveM(state: u32, q: int)
    requires M < state && MULTIPLIER * state == M * q + 0x1_0000 * Lost(state)
    ensures state == THIRD
  {
    NoOverflowIff(state);
    if Lost(state) == 0 {
      Invertible(state - M, q - MULTIPLIER);
    } else {
      Invertible(state - THIRD, q - 89848);
    }
  }

  /** One step from any 32-bit state leads into the range but from three; those end at 0 or 2^31 - 1. */
  lemma StuckIff(state: u32)
    ensures InRange(Next(state)) <==> state !in {0, M, THIRD}
    ensures !InRange(Next(state)) ==> Next(Next(state)) == Next(state)
  {
    BadSeeds();
    ThirdSeed();
    if InRange(state) {
      NextIsProduct(state);
    } else if state !in {0, M, THIRD} {
      var q := NextIsCongruent(state);
      if Next(state) == 0 { AboveM(state, q); }
      if Next(state) == M { AboveM(state, q + 1); }
    }
  }

  lemma NextInjective(a: u32, b: u32)
    requires InRange(a) && InRange(b) && Next(a) == Next(b)
    ensures a == b
  {
    var p := NextIsCongruent(a);
    var q := NextIsCongruent(b);
    var r := Next(a);
    SameImage(a, p, b, q, r);
  }

  lemma SameImage(a: int, p: int, b: int, q: int, r: int)
    requires MULTIPLIER * a == M * p + r && MULTIPLIER * b == M * q + r && InRange(a) && InRange(b)
    ensures a == b
  {
    Invertible(a - b, p - q);
  }

  // -------------------------------------------------------------------- runs

  /** n steps of f from a state. */
  function Iterate(f: u32 -> u32, state: u32, n: nat): u32 {
    if n == 0 then state else f(Iterate(f, state, n - 1))
  }

  /** f permutes the good states. */
  ghost predicate Permutes(f: u32 -> u32) {
    && (forall x: u32 {:trigger f(x)} :: InRange(x) ==> InRange(f(x)))
    && (forall x: u32, y: u32 {:trigger f(x), f(y)} :: InRange(x) && InRange(y) && f(x) == f(y) ==> x == y)
  }

  lemma {:induction false} IterateInRange(f: u32 -> u32, state: u32, n: nat)
    requires Permutes(f) && InRange(state)
    ensures InRange(Iterate(f, state, n))
  {
    if n > 0 { IterateInRange(f, state, n - 1); }
  }

  lemma OneStepBack(f: u32 -> u32, state: u32, i: nat, j: nat)
    requires Permutes(f) && InRange(state) && Iterate(f, state, i + 1) == Iterate(f, state, j + 1)
    ensures Iterate(f, state, i) == Iterate(f, state, j)
  {
    IterateInRange(f, state, i);
    IterateInRange(f, state, j);
  }

  /** Equal states have equal pasts. */
  lemma {:induction false} StepBack(f: u32 -> u32, state: u32, i: nat, n: nat)
    requires Permutes(f) && InRange(state) && Iterate(f, state, i) == Iterate(f, state, i + n)
    ensures Iterate(f, state, n) == state
    decreases i
  {
    if i > 0 {
      OneStepBack(f, state, i - 1, i - 1 + n);
      StepBack(f, state, i - 1, n);
    }
  }

  lemma {:induction false} FewBelow(s: set<int>, n: nat)
    requires forall x :: x in s ==> 1 <= x <= n
    ensures |s| <= n
  {
    if n == 0 {
      assert forall x :: x !in s;
      assert s == {};
    } else {
      FewBelow(s - {n}, n - 1);
    }
  }

  /** The first k states. */
  ghost function Visited(f: u32 -> u32, state: u32, k: nat): set<int> {
    if k == 0 then {} else Visited(f, state, k - 1) + {Iterate(f, state, k - 1)}
  }

  lemma {:induction false} VisitedWhen(f: u32 -> u32, state: u32, k: nat, x: int) returns (m: nat)
    requires x in Visited(f, state, k)
    ensures m < k && x == Iterate(f, state, m)
  {
    if x == Iterate(f, state, k - 1) {
      m := k - 1;
    } else {
      m := VisitedWhen(f, state, k - 1, x);
    }
  }

  ghost predicate StaysInRange(f: u32 -> u32, state: u32) {
    forall n: nat :: InRange(Iterate(f, state, n))
  }

  lemma {:induction false} VisitedInRange(f: u32 -> u32, state: u32, k: nat)
    requires StaysInRange(f, state)
    ensures forall x :: x in Visited(f, state, k) ==> 1 <= x <= M - 1
  {
    if k > 0 { VisitedInRange(f, state, k - 1); }
  }

  /** The states cannot go on being different for M steps. */
  lemma {:induction false} FindRepeat(f: u32 -> u32, state: u32, k: nat) returns (i: nat, j: nat)
    requires StaysInRange(f, state) && |Visited(f, state, k)| == k
    ensures i < j && Iterate(f, state, i) == Iterate(f, state, j)
    decreases M - k
  {
    VisitedInRange(f, state, k);
    FewBelow(Visited(f, state, k), M - 1);
    if Iterate(f, state, k) in Visited(f, state, k) {
      i := VisitedWhen(f, state, k, Iterate(f, state, k));
      j := k;
    } else {
      assert Visited(f, state, k + 1) == Visited(f, state, k) + {Iterate(f, state, k)};
      i, j := FindRepeat(f, state, k + 1);
    }
  }

  lemma ComesBack(f: u32 -> u32, state: u32)
    requires Permutes(f) && InRange(state)
    ensures StaysInRange(f, state)
    ensures exists n: nat :: n > 0 && Iterate(f, state, n) == state
  {
    forall n: nat ensures InRange(Iterate(f, state, n)) { IterateInRange(f, state, n); }
    var i, j := FindRepeat(f, state, 0);
    assert i + (j - i) == j;
    StepBack(f, state, i, j - i);
  }

  lemma NextPermutes()
    ensures Permutes(Next)
  {
    forall x: u32 | InRange(x) ensures InRange(Next(x)) { NextIsProduct(x); }
    forall x: u32, y: u32 | InRange(x) && InRange(y) && Next(x) == Next(y) ensures x == y { NextInjective(x, y); }
  }

  /** Every run stays in range and is purely periodic: it comes back to its seed. */
  lemma PurelyPeriodic(seed: u32)
    requires InRange(seed)
    ensures StaysInRange(Next, seed)
    ensures exists n: nat :: n > 0 && Iterate(Next, seed, n) == seed
  {
    NextPermutes();
    ComesBack(Next, seed);
  }

  lemma {:induction false} IterateStuck(f: u32 -> u32, state: u32, n: nat)
    requires f(state) == state
    ensures Iterate(f, state, n) == state
  {
    if n > 0 { IterateStuck(f, state, n - 1); }
  }

  /**
    From any 32-bit seed but three, every state after the seed is in range and the first
    of them comes back; from 0, 2^31 - 1 and 3997164152 none is, and all are the same.
   */
  lemma GoodSeedIff(seed: u32)
    ensures seed !in {0, M, THIRD} ==>
              StaysInRange(Next, Next(seed)) && exists n: nat :: n > 0 && Iterate(Next, Next(seed), n) == Next(seed)
    ensures seed in {0, M, THIRD} ==>
              !InRange(Next(seed)) && forall n: nat :: Iterate(Next, Next(seed), n) == Next(seed)
  {
    StuckIff(seed);
    if seed !in {0, M, THIRD} {
      PurelyPeriodic(Next(seed));
    } else {
      forall n: nat ensures Iterate(Next, Next(seed), n) == Next(seed) { IterateStuck(Next, Next(seed), n); }
    }
  }

  class RandGenerator {
    var state: u32

    constructor (seed: u32)
      ensures state == seed
    {
      state := seed;
    }

    method Rand() returns (r: u32)
      modifies this
      ensures r == state == Next(old(state))
      ensures InRange(old(state)) ==> InRange(r) && r == (MULTIPLIER * old(state)) % M
    {
      if InRange(state) { NextIsProduct(state); }
      var low := Wrap(state % 0x8000 * MULTIPLIER);
      var high := Wrap(state / 0x8000 * MULTIPLIER);
      var x := Wrap(low + Wrap(high % U16 * 0x8000) + high / U16);
      state := Wrap(x % 0x8000_0000 + x / 0x8000_0000);
      r := state;
    }

    /** rand(lower, upper) */
    method RandBetween(lower: u32, upper: u32) returns (r: u32)
      requires lower < upper
      modifies this
      ensures lower <= r < upper && state == Next(old(state))
      ensures r == lower + state % (upper - lower)
    {
      var x := Rand();
      r := lower + x % (upper - lower);
    }
  }
}
