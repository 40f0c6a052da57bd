/** XXH32 (inc/xxhash32.h) and the "XXH32 Algorithm Description" of the xxHash specification. */
module XxHash32 {
  import opened Streaming

  type word = bv32

  const PRIME1: word := 2654435761
  const PRIME2: word := 2246822519
  const PRIME3: word := 3266489917
  const PRIME4: word := 668265263
  const PRIME5: word := 374761393

  function RotateLeft(x: word, bits: bv6): word
    requires 0 < bits < 32
  {
    (x << bits) | (x >> (32 - bits))
  }

  function Round(acc: word, lane: word): word {
    RotateLeft(acc + lane * PRIME2, 13) * PRIME1
  }

  /** Little-endian loads; a missing byte reads as 0. */
  function At(b: seq<byte>, i: nat): word {
    if i < |b| then b[i] as word else 0
  }

  function Load4(b: seq<byte>, i: nat): word {
    At(b, i) | (At(b, i + 1) << 8) | (At(b, i + 2) << 16) | (At(b, i + 3) << 24)
  }

  datatype Lanes = Lanes(a: word, b: word, c: word, d: word)

  /** Step 1. */
  function Start(seed: word): Lanes {
    Lanes(seed + PRIME1 + PRIME2, seed + PRIME2, seed, seed - PRIME1)
  }

  /** Step 2, one stripe. */
  function Stripe(s: Lanes, b: seq<byte>): Lanes {
    Lanes(Round(s.a, Load4(b, 0)), Round(s.b, Load4(b, 4)), Round(s.c, Load4(b, 8)), Round(s.d, Load4(b, 12)))
  }

  /** Step 3. */
  function Converge(s: Lanes): word {
    RotateLeft(s.a, 1) + RotateLeft(s.b, 7) + RotateLeft(s.c, 12) + RotateLeft(s.d, 18)
  }

  /** Step 5: four bytes at a time, then one. */
  function Eat4(acc: word, b: seq<byte>): word {
    RotateLeft(acc + Load4(b, 0) * PRIME3, 17) * PRIME4
  }

  function Eat1(acc: word, b: seq<byte>): word {
    RotateLeft(acc + At(b, 0) * PRIME5, 11) * PRIME1
  }

  /** Step 6. */
  function Avalanche(acc: word): word {
    var x := (acc ^ (acc >> 15)) * PRIME2;
    var y := (x ^ (x >> 13)) * PRIME3;
    y ^ (y >> 16)
  }

  /** Step 4 adds the length, truncated to 32 bits. */
  function Length(n: nat): word {
    (n % 0x1_0000_0000) as word
  }

  const XXH32 := Scheme(16, Start, Stripe, (s: Lanes) => s.c,
                        (seed, n) => Length(n) + (seed + PRIME5), (s: Lanes, n) => Length(n) + Converge(s),
                        [Bite(4, Eat4), Bite(1, Eat1)], Avalanche)

  lemma Xxh32WellFormed()
    ensures WellFormed(XXH32)
  {
  }

  /** The published digests of the empty input, without a seed and with one. */
  lemma EmptyDigest()
    ensures WellFormed(XXH32)
    ensures Digest(XXH32, 0, []) == 0x02CC5D05 && Digest(XXH32, 0x9E3779B1, []) == 0x36B78AE7
  {
    Xxh32WellFormed();
    DrainNothing(XXH32.bites, PRIME5);
    DrainNothing(XXH32.bites, 0x9E3779B1 + PRIME5);
  }

  /** How the seed enters: it is the third accumulator, and the others are what other seeds would put there. */
  lemma SeedOffsets(seed: word)
    ensures var s := Start(seed);
      s.c == seed && s.b == Start(seed + PRIME2).c && s.a == Start(seed + PRIME1).b && s.d == Start(seed - PRIME1).c
  {
  }

  /** hash(): one-shot digest of the joined chunks. */
  method HashMessage(chunks: seq<seq<byte>>, seed: word) returns (result: word)
    requires |Join(chunks)| < UINT64
    ensures WellFormed(XXH32) && result == Digest(XXH32, seed, Join(chunks))
  {
    Xxh32WellFormed();
    result := HashChunks(XXH32, chunks, seed);
  }
}
