/**
 * The seeded linear congruential generator and the deterministic Fisher-Yates
 * shuffle it drives. The generator is an object whose state the draws update;
 * the shuffle works in place on a fresh array copied from its input.
 */
module SeededShuffle {
  const MULTIPLIER: nat := 9301
  const INCREMENT: nat := 49297
  const MODULUS: nat := 233280

  /** One update of the generator state: `value = (value * 9301 + 49297) % 233280`. */
  function Step(value: nat): (next: nat)
    ensures next < MODULUS
  {
    (value * MULTIPLIER + INCREMENT) % MODULUS
  }

  /** The generator state after `n` draws from a generator seeded with `seed`. */
  function StateAfter(seed: nat, n: nat): (value: nat)
    ensures n > 0 ==> value < MODULUS
  {
    if n == 0 then seed else Step(StateAfter(seed, n - 1))
  }

  /** Drawing `m` times and then `n` more times leaves the state that `m + n` draws leave. */
  lemma {:induction false} StateAfterAdd(seed: nat, m: nat, n: nat)
    ensures StateAfter(StateAfter(seed, m), n) == StateAfter(seed, m + n)
  {
    if n > 0 {
      StateAfterAdd(seed, m, n - 1);
    }
  }

  /** The fraction a draw emits for state `value`: `value / 233280`. */
  function Fraction(value: nat): (f: real)
    requires value < MODULUS
    ensures 0.0 <= f < 1.0
  {
    value as real / MODULUS as real
  }

  /** `Math.floor(frac * (i + 1))`: the position swapped with position `i`. */
  function SwapIndex(frac: real, i: nat): (j: int)
    requires 0.0 <= frac < 1.0
    ensures 0 <= j <= i
  {
    assert frac * (i + 1) as real < (i + 1) as real;
    (frac * (i + 1) as real).Floor
  }

  /** The swap position for generator state `value` at step `i`, in integer arithmetic. */
  function SwapPosition(value: nat, i: nat): (j: nat)
    requires value < MODULUS
    ensures j <= i
  {
    assert value * (i + 1) < MODULUS * (i + 1);
    value * (i + 1) / MODULUS
  }

  /** In exact arithmetic `floor(value / 233280 * (i + 1))` is `value * (i + 1) / 233280`. */
  lemma SwapIndexExact(value: nat, i: nat)
    requires value < MODULUS
    ensures SwapIndex(Fraction(value), i) == SwapPosition(value, i)
  {
    var p := value * (i + 1);
    var q, r := p / MODULUS, p % MODULUS;
    assert p == q * MODULUS + r && 0 <= r < MODULUS;
    var x := Fraction(value) * (i + 1) as real;
    assert x == p as real / MODULUS as real;
    assert x == q as real + r as real / MODULUS as real;
    assert q as real <= x < (q + 1) as real;
  }

  /** The sequence with the elements at `i` and `j` exchanged. */
  function Swap<T>(s: seq<T>, i: nat, j: nat): (r: seq<T>)
    requires i < |s| && j < |s|
    ensures |r| == |s|
  {
    s[i := s[j]][j := s[i]]
  }

  /** Exchanging two elements keeps the multiset of elements. */
  lemma SwapPermutes<T>(s: seq<T>, i: nat, j: nat)
    requires i < |s| && j < |s|
    ensures multiset(Swap(s, i, j)) == multiset(s)
  {
  }

  /** Exchanging two elements moves those two and no other. */
  lemma SwapAt<T>(s: seq<T>, i: nat, j: nat, k: nat)
    requires i < |s| && j < |s| && k < |s|
    ensures Swap(s, i, j)[k] == if k == j then s[i] else if k == i then s[j] else s[k]
  {
  }

  /**
   * The copy after the first `t` iterations of the Fisher-Yates loop: iteration `t`
   * handles position `|s| - t` and uses the `t`-th draw of the generator.
   */
  function Iterate<T>(s: seq<T>, seed: nat, t: nat): (r: seq<T>)
    requires t < |s|
    ensures |r| == |s|
  {
    if t == 0 then s
    else
      var i := |s| - t;
      Swap(Iterate(s, seed, t - 1), i, SwapPosition(StateAfter(seed, t), i))
  }

  /** The loop only exchanges elements, so every intermediate copy is a permutation of the input. */
  lemma {:induction false} IteratePermutes<T>(s: seq<T>, seed: nat, t: nat)
    requires t < |s|
    ensures multiset(Iterate(s, seed, t)) == multiset(s)
  {
    if t > 0 {
      var i := |s| - t;
      var prev, j := Iterate(s, seed, t - 1), SwapPosition(StateAfter(seed, t), i);
      assert Iterate(s, seed, t) == Swap(prev, i, j);
      IteratePermutes(s, seed, t - 1);
      SwapPermutes(prev, i, j);
      calc {
        multiset(Iterate(s, seed, t));
        multiset(Swap(prev, i, j));
        multiset(prev);
        multiset(s);
      }
    }
  }

  /** Positions `|s| - t` and above are final after `t` iterations: later iterations never touch them. */
  lemma {:induction false} IterateKeepsDone<T>(s: seq<T>, seed: nat, t: nat, u: nat, k: nat)
    requires t <= u < |s| && |s| - t <= k < |s|
    ensures Iterate(s, seed, u)[k] == Iterate(s, seed, t)[k]
  {
    if u > t {
      var i := |s| - u;
      IterateKeepsDone(s, seed, t, u - 1, k);
      SwapAt(Iterate(s, seed, u - 1), i, SwapPosition(StateAfter(seed, u), i), k);
    }
  }

  /** The order `shuffleWithSeed(s, seed)` returns: the copy after all `|s| - 1` iterations. */
  function Shuffled<T>(s: seq<T>, seed: nat): (r: seq<T>)
    ensures |r| == |s| && multiset(r) == multiset(s)
    ensures |s| <= 1 ==> r == s
  {
    if s == [] then s
    else
      IteratePermutes(s, seed, |s| - 1);
      Iterate(s, seed, |s| - 1)
  }

  /** One more iteration turns the copy after `t - 1` iterations into the copy after `t`. */
  lemma IterateStep<T>(s: seq<T>, seed: nat, t: nat, before: seq<T>, after: seq<T>, j: nat)
    requires 0 < t < |s| == |before| == |after| && before == Iterate(s, seed, t - 1)
    requires j == SwapPosition(StateAfter(seed, t), |s| - t)
    requires after[|s| - t] == before[j] && after[j] == before[|s| - t]
    requires forall k :: 0 <= k < |s| && k != j && k != |s| - t ==> after[k] == before[k]
    ensures after == Iterate(s, seed, t)
  {
    assert after == Swap(before, |s| - t, j);
  }

  /** A non-empty input is shuffled by running all `|s| - 1` iterations. */
  lemma ShuffledIsLastIterate<T>(s: seq<T>, seed: nat)
    requires s != []
    ensures Shuffled(s, seed) == Iterate(s, seed, |s| - 1)
  {
  }

  /** With seed 42 the first draw leaves state 206659, so a pair is swapped with itself. */
  lemma SeedFortyTwoKeepsPairs<T>(a: T, b: T)
    ensures StateAfter(42, 1) == 206659
    ensures SwapIndex(Fraction(206659), 1) == SwapPosition(206659, 1) == 1
    ensures Shuffled([a, b], 42) == [a, b]
  {
    SwapIndexExact(206659, 1);
    assert Step(42) == 206659;
    assert SwapPosition(206659, 1) == 1;
    assert Iterate([a, b], 42, 1) == Swap([a, b], 1, 1);
  }

  /** The closure `seededRandom(seed)` returns: its captured `value` is the state. */
  class SeededRandom {
    var value: nat
    ghost const seed: nat
    ghost var draws: nat

    ghost predicate Valid()
      reads this
    {
      value == StateAfter(seed, draws)
    }

    constructor (seed: nat)
      ensures Valid() && this.seed == seed && draws == 0 && value == seed
    {
      value := seed;
      this.seed := seed;
      draws := 0;
    }

    /** One call of the closure: advance the state and emit it as a fraction of the modulus. */
    method Next() returns (frac: real)
      requires Valid()
      modifies this
      ensures Valid() && draws == old(draws) + 1
      ensures value == Step(old(value)) && value < MODULUS
      ensures frac == Fraction(value) && 0.0 <= frac < 1.0
    {
      value := (value * MULTIPLIER + INCREMENT) % MODULUS;
      draws := draws + 1;
      frac := value as real / MODULUS as real;
    }
  }

  /**
   * `shuffleWithSeed(input, seed)`: copy the input, then for `i` from the last
   * position down to 1 swap position `i` with `floor(random() * (i + 1))`.
   * `drawn` is the number of draws taken from the generator.
   */
  method ShuffleWithSeed<T>(input: seq<T>, seed: nat) returns (r: seq<T>, ghost drawn: nat)
    ensures r == Shuffled(input, seed)
    ensures drawn == if |input| == 0 then 0 else |input| - 1
  {
    var shuffled := new T[|input|](k requires 0 <= k < |input| => input[k]);
    assert shuffled[..] == input;
    var random := new SeededRandom(seed);
    var i := shuffled.Length - 1;
    while i > 0
      invariant -1 <= i < shuffled.Length == |input|
      invariant |input| > 0 ==> i >= 0
      invariant random.Valid() && random.seed == seed
      invariant random.draws == |input| - 1 - i
      invariant |input| > 0 ==> shuffled[..] == Iterate(input, seed, random.draws)
    {
      ghost var before := shuffled[..];
      var frac := random.Next();
      var j := SwapIndex(frac, i);
      SwapIndexExact(random.value, i);
      shuffled[i], shuffled[j] := shuffled[j], shuffled[i];
      IterateStep(input, seed, random.draws, before, shuffled[..], j);
      i := i - 1;
    }
    r := shuffled[..];
    drawn := random.draws;
    if |input| > 0 {
      ShuffledIsLastIterate(input, seed);
    } else {
      assert r == [];
    }
  }
}
