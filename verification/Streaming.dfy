/** A message absorbed block by block, and the buffer that makes its chunking irrelevant. XXHash32::add and
    XXHash64::add (inc/xxhash32.h, inc/xxhash64.h) are this code with blocks of 16 and 32 bytes. */
module Streaming {
  type byte = bv8

  const UINT64 := 0x1_0000_0000_0000_0000

  /** The state after all full blocks of m, and the bytes left over. */
  function Absorb<S>(round: (S, seq<byte>) -> S, size: nat, acc: S, m: seq<byte>): (r: (S, seq<byte>))
    requires 0 < size
    ensures |r.1| < size
    decreases |m|
  {
    if |m| < size then (acc, m) else Absorb(round, size, round(acc, m[..size]), m[size..])
  }

  lemma AbsorbStep<S>(round: (S, seq<byte>) -> S, size: nat, acc: S, m: seq<byte>)
    requires 0 < size <= |m|
    ensures Absorb(round, size, acc, m) == Absorb(round, size, round(acc, m[..size]), m[size..])
  {
  }

  lemma AbsorbShort<S>(round: (S, seq<byte>) -> S, size: nat, acc: S, m: seq<byte>)
    requires |m| < size
    ensures Absorb(round, size, acc, m) == (acc, m)
  {
  }

  /** A message arriving in two pieces: the second continues from what the first left over. */
  lemma {:induction false} AbsorbAppend<S>(round: (S, seq<byte>) -> S, size: nat, acc: S, a: seq<byte>, b: seq<byte>)
    requires 0 < size
    ensures var (s, rest) := Absorb(round, size, acc, a);
      Absorb(round, size, acc, a + b) == Absorb(round, size, s, rest + b)
    decreases |a|
  {
    if |a| >= size {
      AbsorbAppend(round, size, round(acc, a[..size]), a[size..], b);
      assert (a + b)[..size] == a[..size] && (a + b)[size..] == a[size..] + b;
    }
  }

  /** The leftover is the end of the message, as long as the remainder of its length. */
  lemma {:induction false} Leftover<S>(round: (S, seq<byte>) -> S, size: nat, acc: S, m: seq<byte>, blocks: nat)
    requires 0 < size && blocks * size <= |m| < blocks * size + size
    ensures Absorb(round, size, acc, m).1 == m[blocks * size..]
    decreases blocks
  {
    if blocks > 0 {
      var done := (blocks - 1) * size;
      assert blocks * size == done + size && done >= 0;
      Leftover(round, size, round(acc, m[..size]), m[size..], blocks - 1);
      assert m[size..][done..] == m[done + size..];
      AbsorbStep(round, size, acc, m);
    } else {
      AbsorbShort(round, size, acc, m);
    }
  }

  /** A loop that eats `size` bytes per step while there are that many. */
  method Consume<S>(round: (S, seq<byte>) -> S, size: nat, acc: S, m: seq<byte>) returns (s: S, rest: seq<byte>)
    requires 0 < size
    ensures (s, rest) == Absorb(round, size, acc, m)
  {
    s := acc;
    var data := 0;
    while data + size <= |m|
      invariant data <= |m| && Absorb(round, size, s, m[data..]) == Absorb(round, size, acc, m)
    {
      assert m[data..][..size] == m[data..data + size] && m[data..][size..] == m[data + size..];
      s := round(s, m[data..data + size]);
      data := data + size;
    }
    rest := m[data..];
  }

  lemma WrapAdd(a: nat, b: nat)
    ensures (a % UINT64 + b) % UINT64 == (a + b) % UINT64
  {
  }

  class Stream<S> {
    const size: nat
    const round: (S, seq<byte>) -> S
    var state: S
    const buffer: array<byte>
    var bufferSize: nat
    var totalLength: nat
    ghost const start: S
    /** All bytes added so far. */
    ghost var message: seq<byte>

    ghost predicate Valid()
      reads this, buffer
    {
      && buffer.Length == size && bufferSize < size
      && totalLength == |message| % UINT64
      && Absorb(round, size, start, message) == (state, buffer[..bufferSize])
    }

    constructor (size: nat, round: (S, seq<byte>) -> S, start: S)
      requires 0 < size
      ensures Valid() && fresh(buffer) && message == []
      ensures this.size == size && this.round == round && this.start == start
    {
      this.size, this.round, this.start := size, round, start;
      state := start;
      buffer := new byte[size](_ => 0);
      bufferSize, totalLength, message := 0, 0, [];
    }

    /** Copies bytes to the end of the buffer. */
    method Fill(input: seq<byte>)
      requires bufferSize + |input| <= buffer.Length
      modifies `bufferSize, buffer
      ensures bufferSize == old(bufferSize) + |input|
      ensures buffer[..bufferSize] == old(buffer[..bufferSize]) + input
    {
      ghost var before := buffer[..bufferSize];
      var i := 0;
      while i < |input|
        invariant i <= |input| && bufferSize == |before| + i
        invariant buffer[..bufferSize] == before + input[..i]
      {
        buffer[bufferSize] := input[i];
        bufferSize := bufferSize + 1;
        i := i + 1;
      }
      assert input[..i] == input;
    }

    method Add(input: seq<byte>) returns (ok: bool)
      requires Valid()
      modifies this, buffer
      ensures Valid() && message == old(message) + input
      ensures ok <==> input != []
    {
      if |input| == 0 {
        assert message + input == message;
        return false;
      }
      ok := true;
      WrapAdd(|message|, |input|);
      totalLength := (totalLength + |input|) % UINT64;
      ghost var done := Absorb(round, size, state, buffer[..bufferSize] + input);
      AbsorbAppend(round, size, start, message, input);
      message := message + input;
      Refill(input, done);
    }

    /** Everything add does to the state and the buffer; `done` is where that must lead. */
    method Refill(input: seq<byte>, ghost done: (S, seq<byte>))
      requires buffer.Length == size && bufferSize < size && 0 < |input|
      requires done == Absorb(round, size, state, buffer[..bufferSize] + input)
      modifies `state, `bufferSize, buffer
      ensures bufferSize < size && (state, buffer[..bufferSize]) == done
    {
      ghost var held := buffer[..bufferSize];
      if bufferSize + |input| < size {
        Fill(input);
        return;
      }
      var data := 0;
      if bufferSize > 0 {
        data := size - bufferSize;
        Fill(input[..data]);
        assert (held + input)[..size] == buffer[..] && (held + input)[size..] == input[data..];
        state := round(state, buffer[..]);
      } else {
        assert held + input == input[data..];
      }
      while data + size <= |input|
        invariant data <= |input|
        invariant Absorb(round, size, state, input[data..]) == done
      {
        assert input[data..][..size] == input[data..data + size] && input[data..][size..] == input[data + size..];
        state := round(state, input[data..data + size]);
        data := data + size;
      }
      assert done == (state, input[data..]);
      bufferSize := 0;
      Fill(input[data..]);
      assert buffer[..bufferSize] == input[data..];
    }
  }

  // ---------- the xxHash scheme

  /** One kind of step over the remaining input. */
  datatype Bite<!W> = Bite(size: nat, eat: (W, seq<byte>) -> W)

  /** What distinguishes XXH32 from XXH64 in the seven steps of their description: stripe size, initial
      accumulators, stripe round, the value a short or a long input starts from, the steps that consume the
      remaining input, and the final mix. seedOf reads the seed back from untouched accumulators. */
  datatype Scheme<!S, !W> = Scheme(block: nat, start: W -> S, stripe: (S, seq<byte>) -> S, seedOf: S -> W,
                                   short: (W, nat) -> W, long: (S, nat) -> W,
                                   bites: seq<Bite<W>>, avalanche: W -> W)

  ghost predicate WellFormed<S, W(!new)>(scheme: Scheme<S, W>) {
    && 0 < scheme.block
    && (forall i :: 0 <= i < |scheme.bites| ==> 0 < scheme.bites[i].size)
    && (forall seed: W :: scheme.seedOf(scheme.start(seed)) == seed)
  }

  function Drain<W>(bites: seq<Bite<W>>, acc: W, b: seq<byte>): W
    requires forall i :: 0 <= i < |bites| ==> 0 < bites[i].size
  {
    if bites == [] then acc else
    var (x, rest) := Absorb(bites[0].eat, bites[0].size, acc, b);
    Drain(bites[1..], x, rest)
  }

  lemma DrainStep<W>(bites: seq<Bite<W>>, acc: W, b: seq<byte>)
    requires bites != [] && forall i :: 0 <= i < |bites| ==> 0 < bites[i].size
    requires |b| >= bites[0].size
    ensures Drain(bites, acc, b) == Drain(bites, bites[0].eat(acc, b[..bites[0].size]), b[bites[0].size..])
  {
  }

  lemma DrainShort<W>(bites: seq<Bite<W>>, acc: W, b: seq<byte>)
    requires bites != [] && forall i :: 0 <= i < |bites| ==> 0 < bites[i].size
    requires |b| < bites[0].size
    ensures Drain(bites, acc, b) == Drain(bites[1..], acc, b)
  {
  }

  lemma {:induction false} DrainNothing<W>(bites: seq<Bite<W>>, acc: W)
    requires forall i :: 0 <= i < |bites| ==> 0 < bites[i].size
    ensures Drain(bites, acc, []) == acc
  {
    if bites != [] {
      DrainNothing(bites[1..], acc);
    }
  }

  /** Steps 1 to 7 on a whole message. */
  ghost function Digest<S, W(!new)>(scheme: Scheme<S, W>, seed: W, m: seq<byte>): W
    requires WellFormed(scheme)
  {
    var (s, rest) := Absorb(scheme.stripe, scheme.block, scheme.start(seed), m);
    var acc := if |m| < scheme.block then scheme.short(seed, |m|) else scheme.long(s, |m|);
    scheme.avalanche(Drain(scheme.bites, acc, rest))
  }

  /** hash() const: the seed of a short message is still in the accumulators. */
  method Hash<S, W(!new)>(scheme: Scheme<S, W>, stream: Stream<S>, ghost seed: W) returns (result: W)
    requires WellFormed(scheme) && stream.Valid()
    requires stream.size == scheme.block && stream.round == scheme.stripe && stream.start == scheme.start(seed)
    requires |stream.message| < UINT64
    ensures result == Digest(scheme, seed, stream.message)
  {
    result := if stream.totalLength >= stream.size then scheme.long(stream.state, stream.totalLength)
              else scheme.short(scheme.seedOf(stream.state), stream.totalLength);
    var data := stream.buffer[..stream.bufferSize];
    ghost var end := Drain(scheme.bites, result, data);
    var i := 0;
    while i < |scheme.bites|
      invariant i <= |scheme.bites| && Drain(scheme.bites[i..], result, data) == end
    {
      assert scheme.bites[i..][1..] == scheme.bites[i + 1..];
      result, data := Consume(scheme.bites[i].eat, scheme.bites[i].size, result, data);
      i := i + 1;
    }
    result := scheme.avalanche(result);
  }

  /** Constructor, one add call per chunk, and hash: only the bytes matter, not how they were cut up. */
  method HashChunks<S, W(!new)>(scheme: Scheme<S, W>, chunks: seq<seq<byte>>, seed: W) returns (result: W)
    requires WellFormed(scheme) && |Join(chunks)| < UINT64
    ensures result == Digest(scheme, seed, Join(chunks))
  {
    var stream := new Stream(scheme.block, scheme.stripe, scheme.start(seed));
    var i := 0;
    while i < |chunks|
      invariant i <= |chunks| && fresh(stream) && fresh(stream.buffer)
      invariant stream.Valid() && stream.message == Join(chunks[..i])
    {
      assert chunks[..i + 1][..i] == chunks[..i];
      var _ := stream.Add(chunks[i]);
      i := i + 1;
    }
    assert chunks[..i] == chunks;
    result := Hash(scheme, stream, seed);
  }

  function Join(chunks: seq<seq<byte>>): seq<byte> {
    if chunks == [] then [] else Join(chunks[..|chunks| - 1]) + chunks[|chunks| - 1]
  }
}
