/** The small-set/bitset hybrid of inc/set.h. Below 13 elements a sorted array, from then on eight 64-bit words;
    `card` tells which member of the union is live. A word is the set of its one-bits. */
module FastSet {

  const SMALL_SIZE: nat := 13
  const SMALLER_SIZE: nat := 6
  const MAX_SIZE: nat := 512
  const WORDS: nat := 8

  ghost predicate Increasing(v: seq<nat>) {
    forall i, j :: 0 <= i < j < |v| ==> v[i] < v[j]
  }

  ghost function Elems(v: seq<nat>): set<nat> {
    set y | y in v
  }

  predicate Bit(words: seq<set<nat>>, x: nat)
    requires |words| == WORDS && x < MAX_SIZE
  {
    x % 64 in words[x / 64]
  }

  ghost function Bits(words: seq<set<nat>>): set<nat>
    requires |words| == WORDS
  {
    set x | 0 <= x < MAX_SIZE && Bit(words, x)
  }

  lemma SetBit(words: seq<set<nat>>, x: nat)
    requires |words| == WORDS && x < MAX_SIZE
    ensures Bits(words[x / 64 := words[x / 64] + {x % 64}]) == Bits(words) + {x}
  {
    var words' := words[x / 64 := words[x / 64] + {x % 64}];
    forall y: nat | y < MAX_SIZE ensures Bit(words', y) <==> Bit(words, y) || y == x {
      assert y == y / 64 * 64 + y % 64 && x == x / 64 * 64 + x % 64;
    }
  }

  lemma PlacedAt(v: seq<nat>, i: nat, x: nat, k: nat)
    requires i <= |v| && k <= |v|
    ensures (v[..i] + [x] + v[i..])[k] == if k < i then v[k] else if k == i then x else v[k - 1]
  {
  }

  lemma PlacedElems(v: seq<nat>, i: nat, x: nat)
    requires i <= |v|
    ensures Elems(v[..i] + [x] + v[i..]) == Elems(v) + {x}
  {
    var w := v[..i] + [x] + v[i..];
    assert v == v[..i] + v[i..];
    assert forall y :: y in w <==> y in v || y == x;
  }

  lemma Placed(v: seq<nat>, i: nat, x: nat)
    requires Increasing(v) && i <= |v|
    requires forall k :: 0 <= k < i ==> v[k] < x
    requires i < |v| ==> x < v[i]
    ensures x !in v && Increasing(v[..i] + [x] + v[i..])
    ensures Elems(v[..i] + [x] + v[i..]) == Elems(v) + {x}
  {
    var w := v[..i] + [x] + v[i..];
    PlacedElems(v, i, x);
    forall k | i <= k < |v| ensures x < v[k] {
    }
    forall j, k | 0 <= j < k < |w| ensures w[j] < w[k] {
      PlacedAt(v, i, x, j);
      PlacedAt(v, i, x, k);
    }
  }

  lemma Bounded(v: seq<nat>, i: nat, x: nat)
    requires i <= |v| && x < MAX_SIZE && forall k :: 0 <= k < |v| ==> v[k] < MAX_SIZE
    ensures forall k :: 0 <= k <= |v| ==> (v[..i] + [x] + v[i..])[k] < MAX_SIZE
  {
  }

  lemma ElemsStep(v: seq<nat>, i: nat)
    requires i < |v|
    ensures Elems(v[..i + 1]) == Elems(v[..i]) + {v[i]}
  {
    assert v[..i + 1] == v[..i] + [v[i]];
  }

  /** Nothing that join would have to add lies beyond the word of bit n. */
  ghost predicate InReach(mine: set<nat>, theirs: set<nat>, small: bool, n: nat) {
    small || forall x :: x in theirs && x !in mine ==> x < 64 * (n / 64 + 1)
  }

  /** What join takes over from the other set: all of a small one, of a bitset the words up to the one of bit n. */
  ghost function Reached(theirs: set<nat>, small: bool, n: nat): set<nat> {
    set x | x in theirs && (small || x < 64 * (n / 64 + 1))
  }

  lemma JoinIsUnion(mine: set<nat>, theirs: set<nat>, small: bool, n: nat)
    ensures mine + Reached(theirs, small, n) == mine + theirs <==> InReach(mine, theirs, small, n)
    ensures (forall x :: x in theirs ==> x < n) ==> InReach(mine, theirs, small, n)
  {
    if !InReach(mine, theirs, small, n) {
      var x :| x in theirs && x !in mine && x >= 64 * (n / 64 + 1);
      assert x in mine + theirs && x !in mine + Reached(theirs, small, n);
    }
  }

  class FastSet {
    var card: nat
    const values: array<nat>
    const words: array<set<nat>>

    ghost predicate Valid()
      reads this, values, words
    {
      && values.Length == SMALL_SIZE && words.Length == WORDS && card <= SMALL_SIZE
      && (card < SMALL_SIZE ==> Increasing(values[..card]) && forall i :: 0 <= i < card ==> values[i] < MAX_SIZE)
    }

    ghost function Contents(): set<nat>
      requires Valid()
      reads this, values, words
    {
      if card < SMALL_SIZE then Elems(values[..card]) else Bits(words[..])
    }

    constructor ()
      ensures Valid() && fresh(values) && fresh(words) && card == 0 && Contents() == {}
    {
      card := 0;
      values := new nat[SMALL_SIZE](_ => 0);
      words := new set<nat>[WORDS](_ => {});
    }

    method SetBitOf(x: nat)
      requires words.Length == WORDS && x < MAX_SIZE
      modifies words
      ensures Bits(words[..]) == Bits(old(words[..])) + {x}
      ensures x in Bits(old(words[..])) ==> words[..] == old(words[..])
    {
      SetBit(words[..], x);
      words[x / 64] := words[x / 64] + {x % 64};
      assert words[..] == old(words[..])[x / 64 := words[x / 64]];
      if x in Bits(old(words[..])) {
        assert Bit(old(words[..]), x);
        assert words[x / 64] == old(words[x / 64]);
      }
    }

    method GetBit(x: nat) returns (b: bool)
      requires words.Length == WORDS && x < MAX_SIZE
      ensures b <==> x in Bits(words[..])
    {
      b := x % 64 in words[x / 64];
    }

    /** The first position whose element is not below x, and whether x is there. */
    method PlaceOf(x: nat) returns (i: nat, found: bool)
      requires Valid() && card < SMALL_SIZE
      ensures i <= card && (forall k :: 0 <= k < i ==> values[k] < x) && (i < card ==> x <= values[i])
      ensures found <==> i < card && values[i] == x
    {
      i := 0;
      while i < card
        invariant i <= card && forall k :: 0 <= k < i ==> values[k] < x
      {
        if values[i] == x {
          return i, true;
        }
        if values[i] > x {
          break;
        }
        i := i + 1;
      }
      found := false;
    }

    /** Finds the place of x, moves what follows it up by one, and puts it there. */
    method InsertSmall(x: nat)
      requires Valid() && card < SMALL_SIZE && x < MAX_SIZE
      modifies `card, values
      ensures card == old(card) + if x in old(values[..card]) then 0 else 1
      ensures Increasing(values[..card]) && Elems(values[..card]) == Elems(old(values[..card])) + {x}
      ensures forall i :: 0 <= i < card ==> values[i] < MAX_SIZE
      ensures x in old(values[..card]) ==> values[..] == old(values[..])
    {
      ghost var v := values[..card];
      var i, found := PlaceOf(x);
      if found {
        assert x == v[i] && x in Elems(v);
        return;
      }
      Placed(v, i, x);
      ShiftIn(i, x);
      Bounded(v, i, x);
      assert forall k :: 0 <= k < card ==> values[k] == values[..card][k];
    }

    method ShiftIn(i: nat, x: nat)
      requires values.Length == SMALL_SIZE && i <= card < SMALL_SIZE
      modifies `card, values
      ensures card == old(card) + 1
      ensures values[..card] == var v := old(values[..card]); v[..i] + [x] + v[i..]
    {
      ghost var v := values[..card];
      var j := card;
      while j > i
        invariant i <= j <= card == |v|
        invariant forall k :: 0 <= k < j ==> values[k] == v[k]
        invariant forall k :: j < k <= card ==> values[k] == v[k - 1]
      {
        values[j] := values[j - 1];
        j := j - 1;
      }
      values[i] := x;
      card := card + 1;
    }

    method SearchSmallLinear(x: nat) returns (b: bool)
      requires Valid() && card < SMALL_SIZE
      ensures b <==> x in values[..card]
    {
      for i := 0 to card
        invariant forall k :: 0 <= k < i ==> values[k] < x
      {
        if values[i] > x {
          assert forall k :: i < k < card ==> values[..card][i] < values[..card][k];
          return false;
        }
        if values[i] == x {
          assert values[..card][i] == x;
          return true;
        }
      }
      return false;
    }

    /** Linear below six elements, binary from there. */
    method SearchSmall(x: nat) returns (b: bool)
      requires Valid() && card < SMALL_SIZE
      ensures b <==> x in values[..card]
    {
      if card == 0 {
        return false;
      }
      if card < SMALLER_SIZE {
        b := SearchSmallLinear(x);
        return;
      }
      ghost var v := values[..card];
      var begin, end: int := 0, card - 1;
      var middle := end / 2;
      while true
        invariant 0 <= begin <= middle <= end < card
        invariant forall k :: 0 <= k < begin ==> v[k] < x
        invariant forall k :: end < k < card ==> x < v[k]
        decreases end - begin
      {
        var y := values[middle];
        assert y == v[middle];
        if x < y {
          end := middle - 1;
        } else if x > y {
          begin := middle + 1;
        } else {
          return true;
        }
        if end < begin {
          return false;
        }
        middle := (begin + end) / 2;
      }
    }

    /** Through a temporary copy, since both members of the union share their memory. */
    method SmallToBit()
      requires values.Length == SMALL_SIZE && words.Length == WORDS && card <= SMALL_SIZE
      requires forall i :: 0 <= i < card ==> values[i] < MAX_SIZE
      modifies words
      ensures Bits(words[..]) == Elems(values[..card])
    {
      var tmp := values[..card];
      for w := 0 to WORDS
        invariant forall u :: 0 <= u < w ==> words[u] == {}
      {
        words[w] := {};
      }
      assert Bits(words[..]) == Elems(tmp[..0]);
      for i := 0 to card
        invariant Bits(words[..]) == Elems(tmp[..i])
      {
        SetBitOf(tmp[i]);
        assert tmp[..i + 1] == tmp[..i] + [tmp[i]];
      }
      assert tmp[..card] == tmp;
    }

    method Insert(x: nat)
      requires Valid() && x < MAX_SIZE
      modifies this, values, words
      ensures Valid() && Contents() == old(Contents()) + {x}
      ensures card == old(card) + if old(card) < SMALL_SIZE && x !in old(Contents()) then 1 else 0
      ensures x in old(Contents()) ==> card == old(card) && values[..] == old(values[..]) && words[..] == old(words[..])
    {
      if card == 0 {
        values[card] := x;
        card := 1;
        assert values[..card] == [x];
        return;
      }
      if card < SMALL_SIZE {
        InsertSmall(x);
        if card == SMALL_SIZE {
          SmallToBit();
        }
      } else {
        SetBitOf(x);
      }
    }

    method Search(x: nat) returns (b: bool)
      requires Valid() && x < MAX_SIZE
      ensures b <==> x in Contents()
    {
      if card == 0 {
        return false;
      }
      if card == 1 {
        assert values[..card] == [values[0]];
        return values[0] == x;
      }
      if card < SMALL_SIZE {
        b := SearchSmall(x);
      } else {
        b := GetBit(x);
      }
    }

    ghost predicate Apart(other: FastSet) {
      other != this ==> other.values != values && other.words != words
    }

    /** The union exactly if no bitset brings an element from beyond the word of bit n; in particular if all its
        elements are below n, as the callers have it. */
    method Join(other: FastSet, n: nat)
      requires Valid() && other.Valid() && Apart(other) && n < MAX_SIZE
      modifies this, values, words
      ensures Valid() && Contents() == old(Contents() + Reached(other.Contents(), other.card < SMALL_SIZE, n))
      ensures Contents() == old(Contents() + other.Contents()) <==>
              old(InReach(Contents(), other.Contents(), other.card < SMALL_SIZE, n))
      ensures old(forall x :: x in other.Contents() ==> x < n) ==> Contents() == old(Contents() + other.Contents())
      ensures other.Valid() && (other != this ==> other.Contents() == old(other.Contents()))
    {
      JoinIsUnion(Contents(), other.Contents(), other.card < SMALL_SIZE, n);
      if other.card == 0 {
        assert other.values[..0] == [];
        return;
      }
      if other.card < SMALL_SIZE {
        JoinSmall(other);
        return;
      }
      if card < SMALL_SIZE {
        SmallToBit();
        card := SMALL_SIZE;
        assert other.card >= SMALL_SIZE;
      }
      OrWords(other, n / 64 + 1);
    }

    /** Inserting one of its own elements changes nothing, so the other set may be this one. */
    method InsertFrom(other: FastSet, i: nat)
      requires Valid() && other.Valid() && Apart(other) && i < other.card < SMALL_SIZE
      modifies this, values, words
      ensures Valid() && Contents() == old(Contents()) + {old(other.values[i])}
      ensures other.Valid() && other.card == old(other.card)
      ensures other.values[..other.card] == old(other.values[..other.card])
    {
      ghost var v := other.values[..other.card];
      assert other.values[i] == v[i] && v[i] in v;
      Insert(other.values[i]);
    }

    method JoinSmall(other: FastSet)
      requires Valid() && other.Valid() && Apart(other) && other.card < SMALL_SIZE
      modifies this, values, words
      ensures Valid() && Contents() == old(Contents()) + old(other.Contents())
      ensures other.Valid() && (other != this ==> other.Contents() == old(other.Contents()))
    {
      ghost var v, mine := other.values[..other.card], Contents();
      var i := 0;
      while i < other.card
        invariant Valid() && other.Valid() && i <= other.card == |v| && other.values[..other.card] == v
        invariant Contents() == mine + Elems(v[..i])
      {
        assert other.values[i] == v[i];
        InsertFrom(other, i);
        ElemsStep(v, i);
        i := i + 1;
      }
      assert v[..i] == v;
    }

    /** Or-ing the first lim words. */
    method OrWords(other: FastSet, lim: nat)
      requires Valid() && other.Valid() && Apart(other) && card == other.card == SMALL_SIZE && lim <= WORDS
      modifies words
      ensures Valid() && Contents() == old(Contents()) + (set x | x in old(other.Contents()) && x < 64 * lim)
    {
      ghost var mine, theirs := words[..], other.words[..];
      for i := 0 to lim
        invariant forall w :: 0 <= w < WORDS ==> words[w] == if w < i then mine[w] + theirs[w] else mine[w]
        invariant other != this ==> other.words[..] == theirs
      {
        words[i] := words[i] + other.words[i];
      }
      forall x: nat | x < MAX_SIZE
        ensures Bit(words[..], x) <==> Bit(mine, x) || (Bit(theirs, x) && x < 64 * lim)
      {
        assert x / 64 < lim <==> x < 64 * lim;
      }
    }

    /** Lists the elements in increasing order: a small set completely, a bitset below n. */
    method Expand(v: array<nat>, n: nat) returns (k: nat)
      requires Valid() && n <= MAX_SIZE && v != values
      requires if card < SMALL_SIZE then card <= v.Length else n <= v.Length
      modifies v
      ensures k <= v.Length && Increasing(v[..k])
      ensures Elems(v[..k]) == set x | x in old(Contents()) && (old(card) < SMALL_SIZE || x < n)
      ensures Valid() && Contents() == old(Contents())
    {
      if card == 0 {
        assert values[..0] == [];
        return 0;
      }
      if card < SMALL_SIZE {
        for i := 0 to card
          invariant v[..i] == values[..i]
        {
          v[i] := values[i];
        }
        return card;
      }
      k := 0;
      var i := 0;
      while i < n
        invariant i % 64 == 0 && k <= i && k <= n
        invariant Listed(v[..k], Bits(words[..]), if i < n then i else n)
      {
        if words[i / 64] != {} {
          k := ExpandWord(v, n, i, k);
        } else {
          assert forall x: nat :: i <= x < i + 64 && x < n ==> x / 64 == i / 64 && !Bit(words[..], x);
        }
        i := i + 64;
      }
    }

    method ExpandWord(v: array<nat>, n: nat, i: nat, k0: nat) returns (k: nat)
      requires words.Length == WORDS && n <= MAX_SIZE && n <= v.Length && i < n && i % 64 == 0 && k0 <= i
      requires Listed(v[..k0], Bits(words[..]), i)
      modifies v
      ensures k <= i + 64 && k <= n && Listed(v[..k], Bits(words[..]), if i + 64 < n then i + 64 else n)
    {
      k := k0;
      var j := 0;
      while j < 64
        invariant j <= 64 && k <= i + j <= n
        invariant Listed(v[..k], Bits(words[..]), i + j)
      {
        var l := i + j;
        if l >= n {
          break;
        }
        label Before:
        var b := GetBit(l);
        if b {
          ListedNext(v[..k], Bits(words[..]), l);
          v[k] := l;
          k := k + 1;
          assert v[..k] == old@Before(v[..k - 1]) + [l];
        } else {
          ListedNext(v[..k], Bits(words[..]), l);
        }
        j := j + 1;
      }
    }
  }

  /** low, low + 1, ..., low + m - 1. */
  function Span(low: nat, m: nat): (s: set<nat>)
    ensures forall x :: x in s <==> low <= x < low + m
  {
    if m == 0 then {} else Span(low, m - 1) + {low + m - 1}
  }

  /** Joining thirteen elements from 64 on up to bit 0 into an empty set adds none of them. */
  method JoinBeyond() returns (mine: FastSet, theirs: FastSet)
    ensures mine.Valid() && theirs.Valid() && mine.Contents() == {} && theirs.Contents() == Span(64, 13)
  {
    mine := new FastSet();
    theirs := new FastSet();
    for i := 0 to 13
      invariant fresh(theirs) && fresh(theirs.values) && fresh(theirs.words) && theirs.Valid()
      invariant theirs.values != mine.values && theirs.words != mine.words && mine.Valid() && mine.Contents() == {}
      invariant theirs.Contents() == Span(64, i) && theirs.card == i
    {
      theirs.Insert(64 + i);
    }
    mine.Join(theirs, 0);
  }

  /** v lists the elements of s below l in increasing order. */
  ghost predicate Listed(v: seq<nat>, s: set<nat>, l: nat) {
    Increasing(v) && forall x: nat :: x in v <==> x in s && x < l
  }

  lemma ListedNext(v: seq<nat>, s: set<nat>, l: nat)
    requires Listed(v, s, l)
    ensures Listed(if l in s then v + [l] else v, s, l + 1)
  {
    forall i | 0 <= i < |v| ensures v[i] < l {
      assert v[i] in v;
    }
    forall x: nat ensures x in v + [l] <==> x in v || x == l {
    }
  }
}
