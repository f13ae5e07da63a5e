/** Random projection of basic-block vectors with a generator that is recomputed on request. */
module BasicBlockVectors {

  const W64: int := 0x1_0000_0000_0000_0000
  const M48: int := 0x1_0000_0000_0000
  const A: int := 0x5DEECE66D
  const C: int := 0xB
  const NUM_BBV := 16

  type Word = x: int | 0 <= x < W64

  // ----- the generator in 64-bit registers

  function Seed(seed: Word): (state: Word) { ((seed * 0x10000) % W64 + 0x330E) % W64 }

  function Next(state: Word): (next: Word) { ((A * state) % W64 + C) % W64 % M48 }

  function Low16(state: Word): (w: nat) { state / 0x10000 % 0x10000 }

  /** The state after k outputs. */
  ghost function State(seed: Word, k: nat): (state: Word)
  {
    if k == 0 then Seed(seed) else Next(State(seed, k - 1))
  }

  function Lane(address: Word, q: nat): (seed: Word) { (address + q) % W64 }

  ghost predicate Lanes(address: Word, k: nat, s0: Word, s1: Word, s2: Word, s3: Word)
  {
    s0 == State(Lane(address, 0), k) && s1 == State(Lane(address, 1), k) && s2 == State(Lane(address, 2), k)
        && s3 == State(Lane(address, 3), k)
  }

  lemma LanesStart(address: Word)
    ensures Lanes(address, 0, Seed(address), Seed(Lane(address, 1)), Seed(Lane(address, 2)), Seed(Lane(address, 3)))
  {
    hide Seed;
    assert Lane(address, 0) == address;
  }

  lemma LanesNext(address: Word, k: nat, s0: Word, s1: Word, s2: Word, s3: Word)
    requires Lanes(address, k, s0, s1, s2, s3)
    ensures Lanes(address, k + 1, Next(s0), Next(s1), Next(s2), Next(s3))
  {
    hide Seed, Next, Lane;
  }

  // ----- the generator of drand48, over unbounded integers: modulus 2^48, multiplier and increment in decimal

  ghost function Exact(seed: nat, k: nat): (x: nat)
    ensures x < 281474976710656
  {
    if k == 0 then (seed * 65536 + 13070) % 281474976710656
    else (25214903917 * Exact(seed, k - 1) + 11) % 281474976710656
  }

  lemma SeedIsExact(seed: nat)
    ensures Seed(seed % W64) % M48 == (seed * 0x10000 + 0x330E) % M48
  {
    var r, q := seed % W64, seed / W64;
    assert seed == W64 * q + r;
    var x := r * 0x10000;
    assert x == W64 * (x / W64) + x % W64;
    assert seed * 0x10000 + 0x330E == x % W64 + 0x330E + M48 * (0x10000 * (0x10000 * q + x / W64));
    Multiple(x % W64 + 0x330E, 0x10000 * (0x10000 * q + x / W64));
    Wrapped(x % W64 + 0x330E);
  }

  lemma Multiple(a: int, k: int)
    ensures (a + M48 * k) % M48 == a % M48
  {
  }

  /** Wrapping at 64 bits does not reach the low 48. */
  lemma Wrapped(x: nat)
    ensures (x % W64) % M48 == x % M48
  {
    assert x == x % W64 + M48 * (0x10000 * (x / W64));
    Multiple(x % W64, 0x10000 * (x / W64));
  }

  lemma NextIsExact(state: Word)
    ensures Next(state) == (A * (state % M48) + C) % M48
  {
    var x := A * state;
    Wrapped(x % W64 + C);
    assert x == x % W64 + M48 * (0x10000 * (x / W64));
    Multiple(x % W64 + C, 0x10000 * (x / W64));
    assert state == state % M48 + M48 * (state / M48);
    assert x + C == A * (state % M48) + C + M48 * (A * (state / M48));
    Multiple(A * (state % M48) + C, A * (state / M48));
  }

  /** Neither the wrapped addition to the address nor the wrapped products change any output. */
  lemma {:induction false} StateIsExact(seed: nat, k: nat)
    ensures State(seed % W64, k) % M48 == Exact(seed, k)
    ensures k > 0 ==> State(seed % W64, k) == Exact(seed, k)
    decreases k
  {
    hide Seed, Next;
    if k == 0 {
      SeedIsExact(seed);
    } else {
      StateIsExact(seed, k - 1);
      NextIsExact(State(seed % W64, k - 1));
    }
  }

  // ----- the projection

  /** The weight of an address in dimension d: output d / 4 + 1 of the generator seeded with address + d % 4. */
  ghost function Weight(address: nat, d: nat): (w: nat) { Exact(address + d % 4, d / 4 + 1) / 65536 % 65536 }

  datatype Hit = Hit(address: Word, count: Word)

  ghost function Part(hit: Hit, d: nat): (n: nat) { Weight(hit.address, d) * hit.count }

  ghost function Projected(hits: seq<Hit>, d: nat): (n: nat)
  {
    if hits == [] then 0
    else Projected(hits[..|hits| - 1], d) + Part(hits[|hits| - 1], d)
  }

  ghost function Instructions(hits: seq<Hit>): (n: nat)
  {
    if hits == [] then 0 else Instructions(hits[..|hits| - 1]) + hits[|hits| - 1].count
  }

  lemma AddWrapped(x: int, y: int)
    ensures (x % W64 + y % W64) % W64 == (x + y) % W64
  {
    assert x + y == x % W64 + y % W64 + W64 * (x / W64 + y / W64);
  }

  lemma StateGivesWeight(address: Word, d: nat)
    ensures Low16(State(Lane(address, d % 4), d / 4 + 1)) == Weight(address, d)
  {
    hide State, Exact;
    StateIsExact(address + d % 4, d / 4 + 1);
  }

  lemma ProjectedNext(hits: seq<Hit>, hit: Hit, d: nat)
    ensures Projected(hits + [hit], d) == Projected(hits, d) + Part(hit, d)
  {
    assert (hits + [hit])[..|hits|] == hits;
  }

  lemma InstructionsNext(hits: seq<Hit>, hit: Hit)
    ensures Instructions(hits + [hit]) == Instructions(hits) + hit.count
  {
    assert (hits + [hit])[..|hits|] == hits;
  }

  class Bbv {
    var instrs: Word
    const counts: array<Word>

    /** After the given hits since the last clearing: every dimension is their weighted sum modulo 2^64. */
    ghost predicate After(hits: seq<Hit>)
      reads this, counts
    {
      && counts.Length == 16 && instrs == Instructions(hits) % 18446744073709551616
      && forall d :: 0 <= d < 16 ==> counts[d] == Projected(hits, d) % 18446744073709551616
    }

    constructor ()
      ensures fresh(counts) && After([])
    {
      instrs := 0;
      counts := new Word[NUM_BBV](_ => 0);
    }

    /** Four generators side by side, one step of each per round. */
    method Count(address: Word, count: Word, ghost hits: seq<Hit>)
      requires After(hits)
      modifies this`instrs, counts
      ensures After(hits + [Hit(address, count)])
    {
      hide Seed, Next, State, Lane, Projected, Instructions;
      InstructionsNext(hits, Hit(address, count));
      AddWrapped(Instructions(hits), count);
      instrs := (instrs + count) % W64;
      var s0, s1, s2, s3 := Seed(address), Seed(Lane(address, 1)), Seed(Lane(address, 2)), Seed(Lane(address, 3));
      LanesStart(address);
      var i := 0;
      while i < NUM_BBV
        invariant 0 <= i <= NUM_BBV && i % 4 == 0
        invariant instrs == Instructions(hits + [Hit(address, count)]) % W64 && Lanes(address, i / 4, s0, s1, s2, s3)
        invariant forall d :: 0 <= d < i ==> counts[d] == Projected(hits + [Hit(address, count)], d) % W64
        invariant forall d :: i <= d < NUM_BBV ==> counts[d] == Projected(hits, d) % W64
      {
        LanesNext(address, i / 4, s0, s1, s2, s3);
        s0 := Next(s0);
        Add(i, s0, address, count, hits);
        s1 := Next(s1);
        Add(i + 1, s1, address, count, hits);
        s2 := Next(s2);
        Add(i + 2, s2, address, count, hits);
        s3 := Next(s3);
        Add(i + 3, s3, address, count, hits);
        i := i + 4;
      }
    }

    method Add(d: nat, state: Word, address: Word, count: Word, ghost hits: seq<Hit>)
      requires d < NUM_BBV == counts.Length && counts[d] == Projected(hits, d) % W64
      requires state == State(Lane(address, d % 4), d / 4 + 1)
      modifies counts
      ensures counts[d] == Projected(hits + [Hit(address, count)], d) % W64
      ensures forall e :: 0 <= e < NUM_BBV && e != d ==> counts[e] == old(counts[e])
    {
      hide State, Low16, Weight, Projected;
      var weight := Low16(state);
      StateGivesWeight(address, d);
      ProjectedNext(hits, Hit(address, count), d);
      AddWrapped(Projected(hits, d), weight * count);
      counts[d] := (counts[d] + (weight * count) % W64) % W64;
    }

    method Clear()
      requires counts.Length == NUM_BBV
      modifies this`instrs, counts
      ensures After([])
    {
      instrs := 0;
      for i := 0 to NUM_BBV
        invariant instrs == 0 && forall d :: 0 <= d < i ==> counts[d] == 0
      {
        counts[i] := 0;
      }
    }
  }

  // ----- the order of the hits does not matter

  lemma {:induction false} ProjectedRemove(hits: seq<Hit>, i: nat, d: nat)
    requires i < |hits|
    ensures Projected(hits, d) == Projected(hits[..i] + hits[i + 1..], d) + Part(hits[i], d)
    decreases |hits|
  {
    hide Part;
    var n := |hits| - 1;
    var without := hits[..i] + hits[i + 1..];
    if i == n {
      assert without == hits[..n];
    } else {
      ProjectedRemove(hits[..n], i, d);
      assert without[..n - 1] == hits[..n][..i] + hits[..n][i + 1..];
    }
  }

  lemma Bag(s: seq<Hit>, i: nat)
    requires i < |s|
    ensures multiset(s) == multiset(s[..i] + s[i + 1..]) + multiset{s[i]}
  {
    assert s == s[..i] + ([s[i]] + s[i + 1..]);
    assert multiset(s[..i] + s[i + 1..]) == multiset(s[..i]) + multiset(s[i + 1..]);
  }

  /** The same hits but for one of them, wherever it stands in the other list. */
  lemma Without(a: seq<Hit>, b: seq<Hit>) returns (i: nat)
    requires multiset(a) == multiset(b) && a != []
    ensures i < |b| && b[i] == a[|a| - 1] && multiset(a[..|a| - 1]) == multiset(b[..i] + b[i + 1..])
  {
    var n := |a| - 1;
    Bag(a, n);
    assert a[..n] + a[n + 1..] == a[..n];
    assert a[n] in multiset(b);
    i :| 0 <= i < |b| && b[i] == a[n];
    Bag(b, i);
    assert multiset(a[..n]) == multiset(a) - multiset{a[n]};
    assert multiset(b[..i] + b[i + 1..]) == multiset(b) - multiset{b[i]};
  }

  /** Any two orders of the same hits give the same vector. */
  lemma {:induction false} OrderIsIrrelevant(a: seq<Hit>, b: seq<Hit>, d: nat)
    requires multiset(a) == multiset(b)
    ensures Projected(a, d) == Projected(b, d)
    decreases |a|
  {
    hide Part;
    if a == [] {
      assert |multiset(b)| == 0;
    } else {
      var i := Without(a, b);
      OrderIsIrrelevant(a[..|a| - 1], b[..i] + b[i + 1..], d);
      ProjectedRemove(b, i, d);
    }
  }
}
