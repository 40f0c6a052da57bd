/** The rank-counter LRU of the caches (replacement/base_replacement.cc) on one set of ways. */
module RankLru {
  import opened Recency

  /** lru_update: the way becomes rank 0, and the ranks below its old one move up. */
  function Promoted(lru: seq<nat>, way: nat): seq<nat>
    requires way < |lru|
  {
    seq(|lru|, w requires 0 <= w < |lru| =>
      if w == way then 0 else if lru[w] < lru[way] then lru[w] + 1 else lru[w])
  }

  /** Ways fill from the left. A filled way and its place in the recency list name each other through its
      rank; an unfilled way still has its initial rank, its own number. */
  ghost predicate WayOk(lru: seq<nat>, order: seq<nat>, w: int) {
    0 <= w < |lru| ==>
      if w >= |order| then lru[w] == w
      else lru[w] < |order| && order[|order| - 1 - lru[w]] == w
  }

  ghost predicate PlaceOk(lru: seq<nat>, order: seq<nat>, i: int) {
    0 <= i < |order| ==> order[i] < |order| <= |lru| && lru[order[i]] == |order| - 1 - i
  }

  /** order lists the filled ways, least recently used first; the ranks are a permutation of 0..K-1. */
  ghost predicate Ranked(lru: seq<nat>, order: seq<nat>) {
    |order| <= |lru| && (forall w :: WayOk(lru, order, w)) && (forall i :: PlaceOk(lru, order, i))
  }

  lemma PromoteWay(lru: seq<nat>, order: seq<nat>, i: nat, w: int)
    requires i < |order| <= |lru| && order[i] < |lru| && PlaceOk(lru, order, i) && WayOk(lru, order, w)
    ensures WayOk(Promoted(lru, order[i]), Without(order, i) + [order[i]], w)
  {
    if 0 <= w < |order| && w != order[i] {
      var p := |order| - 1 - lru[w];
      assert (Without(order, i) + [order[i]])[if p < i then p else p - 1] == order[p];
    }
  }

  lemma PromotePlace(lru: seq<nat>, order: seq<nat>, i: nat, j: nat)
    requires i < |order| && order[i] < |lru| && j < |order| && PlaceOk(lru, order, i)
    requires PlaceOk(lru, order, if j < i then j else j + 1)
    ensures PlaceOk(Promoted(lru, order[i]), Without(order, i) + [order[i]], j)
  {
    var order' := Without(order, i) + [order[i]];
    assert order'[j] == if j == |order| - 1 then order[i] else if j < i then order[j] else order[j + 1];
  }

  lemma PromoteRanked(lru: seq<nat>, order: seq<nat>, i: nat)
    requires Ranked(lru, order) && i < |order| && order[i] < |lru|
    ensures Ranked(Promoted(lru, order[i]), Without(order, i) + [order[i]])
  {
    var lru', order' := Promoted(lru, order[i]), Without(order, i) + [order[i]];
    assert PlaceOk(lru, order, i);
    forall w ensures WayOk(lru', order', w) {
      assert WayOk(lru, order, w);
      PromoteWay(lru, order, i, w);
    }
    forall j ensures PlaceOk(lru', order', j) {
      if 0 <= j < |order| {
        assert PlaceOk(lru, order, j) && PlaceOk(lru, order, j + 1);
        PromotePlace(lru, order, i, j);
      }
    }
  }

  lemma FillRanked(lru: seq<nat>, order: seq<nat>)
    requires Ranked(lru, order) && |order| < |lru|
    ensures Ranked(Promoted(lru, |order|), order + [|order|])
  {
    var lru', order' := Promoted(lru, |order|), order + [|order|];
    assert WayOk(lru, order, |order|);
    forall w ensures WayOk(lru', order', w) {
      assert WayOk(lru, order, w);
    }
    forall j ensures PlaceOk(lru', order', j) {
      assert PlaceOk(lru, order, j);
    }
  }

  lemma InitialRanks(ways: nat)
    ensures Ranked(seq(ways, j => j), [])
  {
  }

  /** The ways hold the keys of the recency list. */
  ghost predicate Holds(valid: seq<bool>, key: seq<nat>, order: seq<nat>, recent: seq<nat>) {
    && |recent| == |order| <= |valid| == |key|
    && (forall w :: 0 <= w < |valid| ==> (valid[w] <==> w < |order|))
    && (forall i {:trigger recent[i]} :: 0 <= i < |order| ==> order[i] < |key| && key[order[i]] == recent[i])
  }

  datatype Access = Hit(way: nat) | Filled(way: nat) | Evicted(way: nat, victim: nat)

  class RankSet {
    const valid: array<bool>
    const key: array<nat>
    const lru: array<nat>
    /** The resident keys, least recently used first, and the ways that hold them. */
    ghost var recent: seq<nat>
    ghost var order: seq<nat>

    ghost predicate Valid()
      reads this, valid, key, lru
    {
      && 0 < valid.Length == lru.Length && key != lru
      && Ranked(lru[..], order) && Holds(valid[..], key[..], order, recent) && Distinct(recent)
    }

    constructor (ways: nat)
      requires 0 < ways
      ensures Valid() && fresh(valid) && fresh(key) && fresh(lru) && valid.Length == ways && recent == []
    {
      valid := new bool[ways](_ => false);
      key := new nat[ways](_ => 0);
      lru := new nat[ways](j => j);
      recent, order := [], [];
      new;
      InitialRanks(ways);
      assert lru[..] == seq(ways, j => j);
      assert forall i, j :: Differ(recent, i, j);
    }

    /** A full set has a way of rank K-1, the least recently used one. */
    method LruVictim() returns (way: nat)
      requires Valid()
      ensures way < valid.Length
      ensures |recent| < valid.Length ==> way == |recent|
      ensures |recent| == valid.Length ==> way == order[0]
    {
      way := 0;
      while way < valid.Length
        invariant way <= valid.Length && forall w :: 0 <= w < way ==> valid[w]
      {
        if !valid[way] {
          assert valid[..][way] == valid[way];
          assert |recent| < valid.Length ==> valid[..][|recent|] == valid[|recent|];
          return;
        }
        way := way + 1;
      }
      assert valid[valid.Length - 1] && valid[..][valid.Length - 1];
      assert PlaceOk(lru[..], order, 0) && lru[order[0]] == valid.Length - 1;
      way := 0;
      while way < valid.Length
        invariant way <= valid.Length && forall w :: 0 <= w < way ==> lru[w] != valid.Length - 1
      {
        if lru[way] == valid.Length - 1 {
          assert WayOk(lru[..], order, way);
          return;
        }
        way := way + 1;
      }
      // "no victim!" is never reached
      assert false;
    }

    method LruUpdate(way: nat)
      requires way < lru.Length
      modifies lru
      ensures lru[..] == Promoted(old(lru[..]), way)
    {
      for i := 0 to lru.Length
        invariant lru[way] == old(lru[way])
        invariant forall w :: 0 <= w < lru.Length ==>
          lru[w] == if w < i && old(lru[w]) < old(lru[way]) then old(lru[w]) + 1 else old(lru[w])
      {
        if lru[i] < lru[way] {
          lru[i] := lru[i] + 1;
        }
      }
      lru[way] := 0;
    }

    method Lookup(k: nat) returns (way: int)
      requires Valid()
      ensures way == -1 <==> k !in recent
      ensures way != -1 ==> 0 <= way == order[IndexOf(recent, k)]
    {
      if k in recent {
        var i := IndexOf(recent, k);
        assert recent[i] == key[order[i]] && PlaceOk(lru[..], order, i);
        assert valid[..][order[i]];
      }
      for w := 0 to valid.Length
        invariant forall v :: 0 <= v < w && valid[v] ==> key[v] != k
      {
        if valid[w] && key[w] == k {
          assert valid[..][w] && WayOk(lru[..], order, w);
          var i := |order| - 1 - lru[w];
          assert recent[i] == k;
          IndexIs(recent, i);
          return w;
        }
      }
      return -1;
    }

    /** A hit, or a fill of the victim way; both promote the way. */
    method Touch(k: nat) returns (a: Access)
      requires Valid()
      modifies this, valid, key, lru
      ensures Valid() && recent == Recency.Touch(old(recent), valid.Length, k)
      ensures a.Hit? <==> k in old(recent)
      ensures a.Evicted? <==> k !in old(recent) && |old(recent)| == valid.Length
      ensures a.Evicted? ==> a.victim == old(recent)[0]
    {
      var hit := Lookup(k);
      if hit != -1 {
        a := Hit(hit);
        Promote(hit, IndexOf(recent, k), k);
      } else {
        var way := LruVictim();
        if valid[way] {
          assert valid[..][way] && recent[0] == key[order[0]];
          a := Evicted(way, key[way]);
          Promote(way, 0, k);
          WithoutIsErase(old(recent), 0);
        } else {
          assert !valid[..][way];
          a := Filled(way);
          Fill(way, k);
        }
      }
    }

    method Fill(way: nat, k: nat)
      requires Valid() && way == |recent| < valid.Length && k !in recent
      modifies this, valid, key, lru
      ensures Valid() && recent == old(recent) + [k]
    {
      FillRanked(lru[..], order);
      PushDistinct(recent, k);
      assert Push(recent, k) == recent + [k];
      FillHolds(valid[..], key[..], lru[..], order, recent, k);
      ghost var valid', key' := valid[..], key[..];
      valid[way], key[way] := true, k;
      LruUpdate(way);
      recent, order := recent + [k], order + [way];
      assert valid[..] == valid'[way := true] && key[..] == key'[way := k];
    }

    /** Way order[i], now holding k, becomes the most recent. */
    method Promote(way: nat, ghost i: nat, k: nat)
      requires Valid() && i < |recent| && way == order[i] && (k == recent[i] || k !in recent)
      modifies this, valid, key, lru
      ensures Valid() && recent == Without(old(recent), i) + [k]
    {
      assert PlaceOk(lru[..], order, i);
      PromoteRanked(lru[..], order, i);
      ReplaceDistinct(recent, i, k);
      PromoteHolds(valid[..], key[..], lru[..], order, recent, i, k);
      valid[way], key[way] := true, k;
      LruUpdate(way);
      recent, order := Without(recent, i) + [k], Without(order, i) + [way];
      assert valid[..] == old(valid[..])[way := true] && key[..] == old(key[..])[way := k];
    }
  }

  lemma ReplaceDistinct(s: seq<nat>, i: nat, k: nat)
    requires Distinct(s) && i < |s| && (k == s[i] || k !in s)
    ensures Distinct(Without(s, i) + [k])
  {
    var t := Without(s, i) + [k];
    forall a, b ensures Differ(t, a, b) {
      if 0 <= a < b < |t| {
        var c := if a < i then a else a + 1;
        assert t[a] == s[c];
        assert Differ(s, c, if b < i then b else b + 1) && Differ(s, c, i) && Differ(s, i, c);
      }
    }
  }

  lemma FillHolds(valid: seq<bool>, key: seq<nat>, lru: seq<nat>, order: seq<nat>, recent: seq<nat>, k: nat)
    requires |lru| == |key| && Ranked(lru, order) && Holds(valid, key, order, recent) && |order| < |key|
    ensures Holds(valid[|order| := true], key[|order| := k], order + [|order|], recent + [k])
  {
    var order', recent' := order + [|order|], recent + [k];
    forall j | 0 <= j < |order'| ensures order'[j] < |key| && key[|order| := k][order'[j]] == recent'[j] {
      if j < |order| {
        assert PlaceOk(lru, order, j) && recent[j] == key[order[j]];
      }
    }
  }

  lemma PromoteHolds(valid: seq<bool>, key: seq<nat>, lru: seq<nat>, order: seq<nat>, recent: seq<nat>, i: nat, k: nat)
    requires |lru| == |key| && Ranked(lru, order) && Holds(valid, key, order, recent) && i < |order| && order[i] < |key|
    ensures Holds(valid[order[i] := true], key[order[i] := k], Without(order, i) + [order[i]], Without(recent, i) + [k])
  {
    assert PlaceOk(lru, order, i);
    var order', recent' := Without(order, i) + [order[i]], Without(recent, i) + [k];
    forall j | 0 <= j < |order'| ensures order'[j] < |key| && key[order[i] := k][order'[j]] == recent'[j] {
      if j < |order'| - 1 {
        var c := if j < i then j else j + 1;
        assert PlaceOk(lru, order, c) && recent[c] == key[order[c]];
      }
    }
  }
}
