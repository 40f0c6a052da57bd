/** XXH64 (inc/xxhash64.h) and the "XXH64 Algorithm Description" of the xxHash specification. */
module XxHash64 {
  import opened Streaming

  type word = bv64

  const PRIME1: word := 11400714785074694791
  const PRIME2: word := 14029467366897019727
  const PRIME3: word := 1609587929392839161
  const PRIME4: word := 9650029242287828579
  const PRIME5: word := 2870177450012600261

  function RotateLeft(x: word, bits: bv7): word
    requires 0 < bits < 64
  {
    (x << bits) | (x >> (64 - bits))
  }

  function Round(acc: word, lane: word): word {
    RotateLeft(acc + lane * PRIME2, 31) * PRIME1
  }

  /** Little-endian loads; a missing byte reads as 0. */
  function At(b: seq<byte>, i: nat): word {
    if i < |b| then b[i] as word else 0
  }

  function Load4(b: seq<byte>, i: nat): word {
    At(b, i) | (At(b, i + 1) << 8) | (At(b, i + 2) << 16) | (At(b, i + 3) << 24)
  }

  function Load8(b: seq<byte>, i: nat): word {
    Load4(b, i) | (Load4(b, i + 4) << 32)
  }

  datatype Lanes = Lanes(a: word, b: word, c: word, d: word)

  /** Step 1. */
  function Start(seed: word): Lanes {
    Lanes(seed + PRIME1 + PRIME2, seed + PRIME2, seed, seed - PRIME1)
  }

  /** Step 2, one stripe. */
  function Stripe(s: Lanes, b: seq<byte>): Lanes {
    Lanes(Round(s.a, Load8(b, 0)), Round(s.b, Load8(b, 8)), Round(s.c, Load8(b, 16)), Round(s.d, Load8(b, 24)))
  }

  /** Step 3. */
  function Merge(acc: word, lane: word): word {
    (acc ^ Round(0, lane)) * PRIME1 + PRIME4
  }

  function Converge(s: Lanes): word {
    var acc := RotateLeft(s.a, 1) + RotateLeft(s.b, 7) + RotateLeft(s.c, 12) + RotateLeft(s.d, 18);
    Merge(Merge(Merge(Merge(acc, s.a), s.b), s.c), s.d)
  }

  /** Step 5: eight bytes at a time, then four, then one. */
  function Eat8(acc: word, b: seq<byte>): word {
    RotateLeft(acc ^ Round(0, Load8(b, 0)), 27) * PRIME1 + PRIME4
  }

  function Eat4(acc: word, b: seq<byte>): word {
    RotateLeft(acc ^ (Load4(b, 0) * PRIME1), 23) * PRIME2 + PRIME3
  }

  function Eat1(acc: word, b: seq<byte>): word {
    RotateLeft(acc ^ (At(b, 0) * PRIME5), 11) * PRIME1
  }

  /** Step 6. */
  function Avalanche(acc: word): word {
    var x := (acc ^ (acc >> 33)) * PRIME2;
    var y := (x ^ (x >> 29)) * PRIME3;
    y ^ (y >> 32)
  }

  /** Step 4. */
  function Length(n: nat): word {
    (n % 0x1_0000_0000_0000_0000) as word
  }

  const XXH64 := Scheme(32, Start, Stripe, (s: Lanes) => s.c,
                        (seed, n) => seed + PRIME5 + Length(n), (s: Lanes, n) => Converge(s) + Length(n),
                        [Bite(8, Eat8), Bite(4, Eat4), Bite(1, Eat1)], Avalanche)

  lemma Xxh64WellFormed()
    ensures WellFormed(XXH64)
  {
  }

  /** The published digests of the empty input, without a seed and with one. */
  lemma EmptyDigest()
    ensures WellFormed(XXH64)
    ensures Digest(XXH64, 0, []) == 0xEF46DB3751D8E999 && Digest(XXH64, 0x9E3779B1, []) == 0xAC75FDA2929B17EF
  {
    Xxh64WellFormed();
    DrainNothing(XXH64.bites, PRIME5);
    DrainNothing(XXH64.bites, 0x9E3779B1 + PRIME5);
  }

  /** How the seed enters: it is the third accumulator, and the others are what other seeds would put there. */
  lemma SeedOffsets(seed: word)
    ensures var s := Start(seed);
      s.c == seed && s.b == Start(seed + PRIME2).c && s.a == Start(seed + PRIME1).b && s.d == Start(seed - PRIME1).c
  {
  }

  /** hash(): one-shot digest of the joined chunks. */
  method HashMessage(chunks: seq<seq<byte>>, seed: word) returns (result: word)
    requires |Join(chunks)| < UINT64
    ensures WellFormed(XXH64) && result == Digest(XXH64, seed, Join(chunks))
  {
    Xxh64WellFormed();
    result := HashChunks(XXH64, chunks, seed);
  }
}
