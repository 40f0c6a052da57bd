/** The signature path prefetcher's pattern table (inc/kpcp.h): per signature four deltas with counters, and a
    counter of the signature itself. A delta's confidence is its counter over the signature's. */
module PatternTable {
  import opened FirstMinimum
  import opened Sequences

  const WAYS: nat := 4
  const CDELTA_MAX: nat := 16
  const CSIG_MAX: nat := 16

  /** Only the first entry's signature counter is used. */
  datatype Pattern = Pattern(delta: int, cDelta: nat, cSig: nat)

  const EMPTY := Pattern(0, 0, 0)
  const EMPTY_BUCKET: seq<Pattern> := [EMPTY, EMPTY, EMPTY, EMPTY]

  function Total(b: seq<Pattern>): nat
    requires |b| == WAYS
  {
    b[0].cDelta + b[1].cDelta + b[2].cDelta + b[3].cDelta
  }

  /** The counters form a sub-distribution of a signature counter below its maximum; no delta is held twice. */
  ghost predicate BucketOk(b: seq<Pattern>) {
    && |b| == WAYS && Total(b) <= b[0].cSig < CSIG_MAX
    && forall i, j :: 0 <= i < j < WAYS && b[i].delta != 0 ==> b[i].delta != b[j].delta
  }

  /** The first way holding the delta, WAYS if there is none. */
  function WayOf(b: seq<Pattern>, delta: int): (i: nat)
    ensures i <= |b|
    ensures i < |b| ==> b[i].delta == delta
    ensures forall j :: 0 <= j < i ==> b[j].delta != delta
  {
    First(b, (p: Pattern) => p.delta == delta)
  }

  function Counters(b: seq<Pattern>): (c: seq<nat>)
    ensures |c| == |b|
  {
    seq(|b|, i requires 0 <= i < |b| => b[i].cDelta)
  }

  function Halved(b: seq<Pattern>): (h: seq<Pattern>)
    ensures |h| == |b|
  {
    seq(|b|, i requires 0 <= i < |b| => b[i].(cDelta := b[i].cDelta / 2))
  }

  /** Counting one more sighting of the signature, halving everything at saturation. */
  function Counted(b: seq<Pattern>): (c: seq<Pattern>)
    requires |b| == WAYS
    ensures |c| == WAYS
  {
    if b[0].cSig + 1 == CSIG_MAX then var h := Halved(b); h[0 := h[0].(cSig := CSIG_MAX / 2)]
    else b[0 := b[0].(cSig := b[0].cSig + 1)]
  }

  /** The way that takes the delta: the one that has it, else a free one, else the first with the lowest counter. */
  function Target(b: seq<Pattern>, delta: int): nat {
    if WayOf(b, delta) < |b| then WayOf(b, delta)
    else if WayOf(b, 0) < |b| then WayOf(b, 0)
    else match FirstMin(Counters(b))
         case At(i, _) => i
         case Nothing => |b|
  }

  function Placed(b: seq<Pattern>, delta: int): (p: seq<Pattern>)
    ensures |p| == |b|
  {
    var i := Target(b, delta);
    if i >= |b| then b
    else b[i := b[i].(delta := delta, cDelta := if b[i].delta == delta then b[i].cDelta + 1 else 0)]
  }

  function Update(b: seq<Pattern>, delta: int): (u: seq<Pattern>)
    requires |b| == WAYS
    ensures |u| == WAYS
  {
    Placed(Counted(b), delta)
  }

  class Bucket {
    const table: array<Pattern>

    constructor ()
      ensures fresh(table) && table.Length == WAYS && table[..] == EMPTY_BUCKET && BucketOk(table[..])
    {
      table := new Pattern[WAYS](_ => EMPTY);
      new;
      assert table[..] == EMPTY_BUCKET;
    }

    method Count()
      requires table.Length == WAYS && BucketOk(table[..])
      modifies table
      ensures table[..] == Counted(old(table[..]))
    {
      table[0] := table[0].(cSig := table[0].cSig + 1);
      if table[0].cSig == CSIG_MAX {
        table[0] := table[0].(cSig := CSIG_MAX / 2);
        ghost var was := table[..];
        for i := 0 to WAYS
          invariant forall j :: 0 <= j < WAYS ==> table[j] == if j < i then Halved(was)[j] else was[j]
        {
          table[i] := table[i].(cDelta := table[i].cDelta / 2);
        }
      }
    }

    method Find(delta: int) returns (way: nat)
      requires table.Length == WAYS
      ensures way == WayOf(table[..], delta)
    {
      for i := 0 to WAYS
        invariant forall j :: 0 <= j < i ==> table[j].delta != delta
      {
        if table[i].delta == delta {
          return i;
        }
      }
      return WAYS;
    }

    /** The scan starts from CDELTA_MAX, so a victim is found because no counter reaches it. */
    method Lowest() returns (way: nat)
      requires table.Length == WAYS
      requires forall i :: 0 <= i < WAYS ==> table[i].cDelta < CDELTA_MAX
      ensures FirstMin(Counters(table[..])).At? && way == FirstMin(Counters(table[..])).index
    {
      var minIdx: int := -1;
      var minVal := CDELTA_MAX;
      ghost var keys := Counters(table[..]);
      for i := 0 to WAYS
        invariant minIdx == -1 ==> i == 0 && minVal == CDELTA_MAX
        invariant minIdx != -1 ==> 0 <= minIdx < WAYS && FirstMin(keys[..i]) == At(minIdx, minVal)
      {
        FirstMinStep(keys, i);
        if table[i].cDelta < minVal {
          minIdx := i;
          minVal := table[i].cDelta;
        }
      }
      assert keys[..WAYS] == keys;
      way := minIdx;
    }

    method PtUpdate(delta: int)
      requires table.Length == WAYS && BucketOk(table[..])
      modifies table
      ensures table[..] == Update(old(table[..]), delta) && BucketOk(table[..])
    {
      CountedOk(table[..]);
      UpdateOk(table[..], delta);
      Count();
      var match0 := Find(delta);
      if match0 < WAYS {
        table[match0] := table[match0].(cDelta := table[match0].cDelta + 1);
      } else {
        match0 := Find(0);
        if match0 == WAYS {
          match0 := Lowest();
        }
        table[match0] := table[match0].(delta := delta, cDelta := 0);
      }
    }
  }

  /** Counting leaves room for one more: halving rounds every counter down. */
  lemma CountedOk(b: seq<Pattern>)
    requires BucketOk(b)
    ensures var c := Counted(b);
      && BucketOk(c) && Total(c) < c[0].cSig
      && forall i :: 0 <= i < WAYS ==> c[i].delta == b[i].delta && c[i].cDelta < CDELTA_MAX
  {
    var c := Counted(b);
    assert forall i :: 0 <= i < WAYS ==> c[i].delta == b[i].delta;
  }

  lemma VictimFound(b: seq<Pattern>, delta: int)
    requires |b| == WAYS && forall i :: 0 <= i < WAYS ==> b[i].cDelta < CDELTA_MAX
    ensures Target(b, delta) < WAYS
    ensures WayOf(b, delta) == WAYS && WayOf(b, 0) == WAYS ==>
              IsFirst(Counters(b), At(Target(b, delta), b[Target(b, delta)].cDelta))
  {
    FirstMinIsFirst(Counters(b));
    assert Counters(b)[0] < NEVER;
  }

  lemma PlacedOk(b: seq<Pattern>, delta: int)
    requires BucketOk(b) && Total(b) < b[0].cSig
    ensures BucketOk(Placed(b, delta))
  {
    var i := Target(b, delta);
    if i < WAYS {
      forall j, k | 0 <= j < k < WAYS && Placed(b, delta)[j].delta != 0
        ensures Placed(b, delta)[j].delta != Placed(b, delta)[k].delta
      {
        if WayOf(b, delta) == WAYS {
          assert b[j].delta != delta && b[k].delta != delta;
        }
      }
    }
  }

  lemma UpdateOk(b: seq<Pattern>, delta: int)
    requires BucketOk(b)
    ensures BucketOk(Update(b, delta)) && Target(Counted(b), delta) < WAYS
  {
    CountedOk(b);
    VictimFound(Counted(b), delta);
    PlacedOk(Counted(b), delta);
  }

  function Run(deltas: seq<int>): (b: seq<Pattern>)
    ensures |b| == WAYS
  {
    if deltas == [] then EMPTY_BUCKET else Update(Run(deltas[..|deltas| - 1]), deltas[|deltas| - 1])
  }

  /** Over any sequence of updates the counters stay a sub-distribution, so a victim is always found. */
  lemma {:induction false} RunOk(deltas: seq<int>)
    ensures BucketOk(Run(deltas))
    ensures forall i :: 0 <= i < WAYS ==> Run(deltas)[i].cDelta < CDELTA_MAX
  {
    if deltas != [] {
      var before := deltas[..|deltas| - 1];
      RunOk(before);
      UpdateOk(Run(before), deltas[|deltas| - 1]);
    }
  }

  function CounterAfter(n: nat): nat {
    if n < CSIG_MAX then n else CSIG_MAX / 2 + n % (CSIG_MAX / 2)
  }

  lemma CounterStep(n: nat)
    ensures CounterAfter(n + 1) == if CounterAfter(n) + 1 == CSIG_MAX then CSIG_MAX / 2 else CounterAfter(n) + 1
  {
    assert (n + 1) % 8 == if n % 8 == 7 then 0 else n % 8 + 1;
  }

  lemma UpdateCounts(b: seq<Pattern>, delta: int)
    requires |b| == WAYS
    ensures Update(b, delta)[0].cSig == if b[0].cSig + 1 == CSIG_MAX then CSIG_MAX / 2 else b[0].cSig + 1
  {
  }

  /** The signature counter depends on the number of updates alone. */
  lemma {:induction false} SignatureCounter(deltas: seq<int>)
    ensures Run(deltas)[0].cSig == CounterAfter(|deltas|)
  {
    if deltas != [] {
      var before := deltas[..|deltas| - 1];
      SignatureCounter(before);
      UpdateCounts(Run(before), deltas[|deltas| - 1]);
      CounterStep(|before|);
    }
  }

  predicate Holds(b: seq<Pattern>, delta: int) {
    exists i :: 0 <= i < |b| && b[i].delta == delta
  }

  /** After an update its delta is held, and every other held delta is kept, unless the bucket was full of other
      deltas: then exactly the first one with the lowest counter is gone. */
  lemma UpdateKeeps(b: seq<Pattern>, delta: int, other: int)
    requires BucketOk(b) && other != delta && other != 0 && delta != 0
    ensures Holds(Update(b, delta), delta)
    ensures var c := Counted(b); var full := !Holds(b, delta) && !Holds(b, 0);
      Holds(Update(b, delta), other) <==> Holds(b, other) && !(full && c[Target(c, delta)].delta == other)
  {
    var c, u := Counted(b), Update(b, delta);
    CountedOk(b);
    VictimFound(c, delta);
    var t := Target(c, delta);
    assert u[t].delta == delta;
    forall d ensures Holds(b, d) <==> WayOf(c, d) < WAYS {
      if WayOf(c, d) < WAYS {
        assert b[WayOf(c, d)].delta == d;
      }
    }
    if WayOf(c, other) < WAYS {
      assert u[WayOf(c, other)].delta == other || WayOf(c, other) == t;
      assert forall j :: 0 <= j < WAYS && j != WayOf(c, other) ==> c[j].delta != other;
    } else {
      assert forall j :: 0 <= j < WAYS ==> u[j].delta != other;
    }
  }

  /** A way's counter once the signature is counted: halved when the signature counter, at 15, saturates. */
  function Aged(b: seq<Pattern>, i: nat): nat
    requires |b| == WAYS && i < WAYS
  {
    if b[0].cSig == 15 then b[i].cDelta / 2 else b[i].cDelta
  }

  /** Way t is the one an update with delta goes to: the first that holds it, else the first free one, else the first
      with the lowest counter. */
  ghost predicate GoesTo(b: seq<Pattern>, delta: int, t: nat)
    requires |b| == WAYS
  {
    && t < WAYS
    && if Holds(b, delta) then b[t].delta == delta && forall j :: 0 <= j < t ==> b[j].delta != delta
       else if Holds(b, 0) then b[t].delta == 0 && forall j :: 0 <= j < t ==> b[j].delta != 0
       else forall j :: 0 <= j < WAYS ==> Aged(b, t) <= Aged(b, j) && (j < t ==> Aged(b, t) < Aged(b, j))
  }

  /** One update: a delta seen again counts one more, a new one starts from zero, and every other way only ages. */
  lemma UpdateLaw(b: seq<Pattern>, delta: int) returns (t: nat)
    requires BucketOk(b)
    ensures GoesTo(b, delta, t)
    ensures var u := Update(b, delta);
      && u[0].cSig == (if b[0].cSig == 15 then 8 else b[0].cSig + 1)
      && u[t].delta == delta && u[t].cDelta == (if Holds(b, delta) then Aged(b, t) + 1 else 0)
      && forall i :: 0 <= i < WAYS && i != t ==> u[i].delta == b[i].delta && u[i].cDelta == Aged(b, i)
  {
    var c := Counted(b);
    CountedOk(b);
    VictimFound(c, delta);
    t := Target(c, delta);
    assert forall i :: 0 <= i < WAYS ==> c[i].delta == b[i].delta && Counters(c)[i] == c[i].cDelta == Aged(b, i);
    forall d ensures Holds(b, d) <==> WayOf(c, d) < WAYS {
      if WayOf(c, d) < WAYS {
        assert b[WayOf(c, d)].delta == d;
      }
    }
  }

  /** How often d was seen again since it was first seen, every count halved when the sixteenth, twenty-fourth, ...
      update saturates the signature counter; -1 before d is seen. */
  function SeenAgain(deltas: seq<int>, d: int): int {
    if deltas == [] then -1 else
    var n := |deltas| - 1;
    var seen := SeenAgain(deltas[..n], d);
    var aged := if seen >= 0 && n >= 15 && n % 8 == 7 then seen / 2 else seen;
    if deltas[n] == d then aged + 1 else aged
  }

  lemma {:induction false} SeenIff(deltas: seq<int>, d: int)
    ensures SeenAgain(deltas, d) >= 0 <==> d in deltas
    ensures SeenAgain(deltas, d) >= -1
  {
    if deltas != [] {
      SeenIff(deltas[..|deltas| - 1], d);
      assert deltas == deltas[..|deltas| - 1] + [deltas[|deltas| - 1]];
    }
  }

  function Distinct(deltas: seq<int>): set<int> {
    set d | d in deltas
  }

  /** A delta that is not in a full bucket would be a fifth one. */
  lemma Fifth(b: seq<Pattern>, delta: int, all: set<int>)
    requires BucketOk(b) && !Holds(b, delta) && !Holds(b, 0)
    requires delta in all && forall i :: 0 <= i < WAYS ==> b[i].delta in all
    ensures |all| >= 5
  {
    var five := {b[0].delta, b[1].delta, b[2].delta, b[3].delta, delta};
    assert forall i :: 0 <= i < WAYS ==> b[i].delta != 0 && b[i].delta != delta;
    assert |five| == 5;
    assert five <= all;
    assert all == five + (all - five);
  }

  /** Every held delta's counter is what that delta's own sightings make it. */
  ghost predicate Faithful(b: seq<Pattern>, deltas: seq<int>) {
    && (forall d :: d != 0 ==> (Holds(b, d) <==> d in deltas))
    && (forall i :: 0 <= i < |b| && b[i].delta != 0 ==> b[i].cDelta == SeenAgain(deltas, b[i].delta))
  }

  lemma HeldStep(b: seq<Pattern>, u: seq<Pattern>, delta: int, t: nat, d: int)
    requires BucketOk(b) && |u| == WAYS && t < WAYS && u[t].delta == delta && (b[t].delta == delta || b[t].delta == 0)
    requires forall i :: 0 <= i < WAYS && i != t ==> u[i].delta == b[i].delta
    requires d != 0
    ensures Holds(u, d) <==> Holds(b, d) || d == delta
  {
    if i :| 0 <= i < |b| && b[i].delta == d {
      assert u[i].delta == d;
    }
    if i :| 0 <= i < |u| && u[i].delta == d {
      assert i == t || b[i].delta == d;
    }
  }

  lemma SeenStep(before: seq<int>, delta: int, d: int)
    ensures SeenAgain(before + [delta], d) ==
            (var n, seen := |before|, SeenAgain(before, d);
             var aged := if seen >= 0 && n >= 15 && n % 8 == 7 then seen / 2 else seen;
             if delta == d then aged + 1 else aged)
  {
    assert (before + [delta])[..|before|] == before;
  }

  lemma FaithfulStep(b: seq<Pattern>, before: seq<int>, delta: int)
    requires BucketOk(b) && Faithful(b, before) && b[0].cSig == CounterAfter(|before|) && delta != 0
    requires Holds(b, delta) || Holds(b, 0)
    ensures Faithful(Update(b, delta), before + [delta])
  {
    var t := UpdateLaw(b, delta);
    var u := Update(b, delta);
    forall d | d != 0 ensures Holds(u, d) <==> d in before + [delta] {
      HeldStep(b, u, delta, t, d);
    }
    forall i | 0 <= i < WAYS && u[i].delta != 0 ensures u[i].cDelta == SeenAgain(before + [delta], u[i].delta) {
      SeenStep(before, delta, u[i].delta);
      SeenIff(before, u[i].delta);
      assert b[i].delta != 0 ==> b[i].cDelta == SeenAgain(before, b[i].delta);
    }
  }

  /** As long as a signature has been followed by at most four different deltas, all of them are held, each with the
      count of its own sightings, undisturbed by the others. */
  lemma {:induction false} CountsAreFaithful(deltas: seq<int>)
    requires 0 !in deltas && |Distinct(deltas)| <= 4
    ensures Faithful(Run(deltas), deltas)
  {
    if deltas != [] {
      var n := |deltas| - 1;
      var before, delta := deltas[..n], deltas[n];
      assert deltas == before + [delta];
      assert Distinct(deltas) == Distinct(before) + (Distinct(deltas) - Distinct(before));
      CountsAreFaithful(before);
      RunOk(before);
      SignatureCounter(before);
      RoomFor(Run(before), before, delta);
      FaithfulStep(Run(before), before, delta);
    }
  }

  lemma RoomFor(b: seq<Pattern>, before: seq<int>, delta: int)
    requires BucketOk(b) && Faithful(b, before) && |Distinct(before + [delta])| <= 4
    ensures Holds(b, delta) || Holds(b, 0)
  {
    if !Holds(b, delta) && !Holds(b, 0) {
      forall i | 0 <= i < WAYS ensures b[i].delta in Distinct(before + [delta]) {
        assert Holds(b, b[i].delta);
      }
      Fifth(b, delta, Distinct(before + [delta]));
    }
  }

  // The signature: twelve bits of folded deltas, all in 32-bit arithmetic.

  const SIG_MASK: bv32 := 0xFFF
  const SIGN: bv32 := 0x8000_0000

  function SigDelta(delta: bv32): bv32 {
    if delta >= SIGN then 64 - delta else delta
  }

  /** A nonzero delta within a page always leads to a nonzero twelve-bit signature. */
  function NewSignature(old0: bv32, delta: bv32): (s: bv32)
    ensures InPage(delta) && delta != 0 ==> 0 < s <= SIG_MASK
  {
    if delta == 0 then old0 else
    var d := SigDelta(delta);
    var s := ((old0 << 3) ^ d) & SIG_MASK;
    if s == 0 then if d != 0 then d else old0 else s
  }

  /** A block offset difference within a page, in two's complement. */
  predicate InPage(delta: bv32) {
    delta <= 63 || delta >= 0xFFFF_FFC1
  }

  /** Bit i of a word. */
  predicate Bit(x: bv32, i: bv6)
    requires i < 32
  {
    (x >> i) & 1 == 1
  }

  /** The signature is the old one moved up by three bits, with the delta's size and, in bit six, its sign folded in;
      only if that cancels all twelve bits is it the delta alone. */
  lemma SignatureBits(old0: bv32, delta: bv32, i: bv6)
    requires delta != 0 && InPage(delta) && i < 12
    ensures var d := if delta <= 63 then delta else 64 + (0 - delta);
      if (old0 << 3) & SIG_MASK == d then NewSignature(old0, delta) == d
      else Bit(NewSignature(old0, delta), i) <==> (Bit(d, i) != (3 <= i && Bit(old0, i - 3)))
  {
  }

  /** From one signature, different deltas lead to different signatures. */
  lemma SignatureSeparates(old0: bv32, a: bv32, b: bv32)
    requires InPage(a) && InPage(b) && a != 0 && b != 0 && a != b
    ensures NewSignature(old0, a) != NewSignature(old0, b)
  {
  }
}
