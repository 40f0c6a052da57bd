/** LRUSetAssociativeCache of prefetcher/bingo_frame.h: every touch stamps its way with a running clock, and the
    way with the lowest stamp is the victim. */
module TimestampLru {
  import opened Recency
  import opened SetAssociative

  // ---------- one set

  /** Ways fill from the left, and hold the resident keys. */
  ghost predicate FilledOk<T>(row: seq<Entry<T>>, recent: seq<nat>, w: int) {
    0 <= w < |row| ==> (row[w].valid <==> w < |recent|) && (w < |recent| ==> row[w].key in recent)
  }

  /** A resident key is found through the CAM, in a way stamped before t. */
  ghost predicate ResidentOk<T>(row: seq<Entry<T>>, cam: map<nat, nat>, ages: seq<nat>, recent: seq<nat>, t: nat,
                                n: nat, i: int)
    requires 0 < n
  {
    0 <= i < |recent| <= |row| <= |ages| ==>
      && recent[i] / n in cam && cam[recent[i] / n] < |recent|
      && row[cam[recent[i] / n]].key == recent[i] && ages[cam[recent[i] / n]] < t
  }

  function AgeOf(cam: map<nat, nat>, ages: seq<nat>, n: nat, key: nat): nat
    requires 0 < n
  {
    if key / n in cam && cam[key / n] < |ages| then ages[cam[key / n]] else 0
  }

  function Stamped(ages: seq<nat>, w: nat, t: nat): seq<nat>
    requires w < |ages|
  {
    ages[w := t]
  }

  /** The recency list is ordered by stamp. */
  ghost predicate OlderOk(cam: map<nat, nat>, ages: seq<nat>, recent: seq<nat>, n: nat, i: int, j: int)
    requires 0 < n
  {
    0 <= i < j < |recent| ==> AgeOf(cam, ages, n, recent[i]) < AgeOf(cam, ages, n, recent[j])
  }

  ghost predicate Aged<T>(row: seq<Entry<T>>, cam: map<nat, nat>, ages: seq<nat>, recent: seq<nat>, t: nat, n: nat)
    requires 0 < n
  {
    && |recent| <= |row| == |ages| && Distinct(recent)
    && (forall w :: FilledOk(row, recent, w))
    && (forall i :: ResidentOk(row, cam, ages, recent, t, n, i))
    && (forall i, j :: OlderOk(cam, ages, recent, n, i, j))
  }

  lemma AgedLater<T>(row: seq<Entry<T>>, cam: map<nat, nat>, ages: seq<nat>, recent: seq<nat>, t: nat, n: nat)
    requires 0 < n && Aged(row, cam, ages, recent, t, n)
    ensures Aged(row, cam, ages, recent, t + 1, n)
  {
    var later := t + 1;
    forall i ensures ResidentOk(row, cam, ages, recent, later, n, i) {
      assert ResidentOk(row, cam, ages, recent, t, n, i);
    }
  }

  /** Way w, which held recent[i] or was the first free one, now holds k and is stamped t. */
  ghost predicate Stamps<T>(row: seq<Entry<T>>, cam: map<nat, nat>, recent: seq<nat>, n: nat,
                            row': seq<Entry<T>>, cam': map<nat, nat>, w: nat, i: nat, k: nat)
    requires 0 < n
  {
    && i <= |recent| <= |row| && w < |row|
    && (if i < |recent| then recent[i] / n in cam && w == cam[recent[i] / n] else w == |recent|)
    && (k !in recent || (i < |recent| && k == recent[i]))
    && |row'| == |row| && row' == row[w := row'[w]] && row'[w].valid && row'[w].key == k
    && k / n in cam' && cam'[k / n] == w
    && forall j :: OtherOk(cam, cam', recent, n, i, j)
  }

  /** Every other resident keeps its way. */
  ghost predicate OtherOk(cam: map<nat, nat>, cam': map<nat, nat>, recent: seq<nat>, n: nat, i: nat, j: int)
    requires 0 < n
  {
    0 <= j < |recent| && j != i && recent[j] / n in cam ==>
      recent[j] / n in cam' && cam'[recent[j] / n] == cam[recent[j] / n]
  }

  /** Where the residents other than recent[i] go in the new list, and that they keep their way and age. */
  lemma OtherKept<T>(row: seq<Entry<T>>, cam: map<nat, nat>, ages: seq<nat>, recent: seq<nat>, t: nat, n: nat,
                     row': seq<Entry<T>>, cam': map<nat, nat>, w: nat, i: nat, k: nat, c: nat)
    requires 0 < n && Aged(row, cam, ages, recent, t, n) && Stamps(row, cam, recent, n, row', cam', w, i, k)
    requires c < |recent| && c != i
    ensures recent[c] / n in cam && recent[c] / n in cam' && cam'[recent[c] / n] == cam[recent[c] / n] < |recent|
    ensures cam[recent[c] / n] != w && row'[cam[recent[c] / n]].key == recent[c]
    ensures AgeOf(cam', ages[w := t], n, recent[c]) == AgeOf(cam, ages, n, recent[c]) < t
    ensures recent[c] != k
  {
    assert ResidentOk(row, cam, ages, recent, t, n, c) && OtherOk(cam, cam', recent, n, i, c);
    assert ResidentOk(row, cam, ages, recent, t, n, i);
    assert Differ(recent, c, i) && Differ(recent, i, c);
  }

  lemma StampFilled<T>(row: seq<Entry<T>>, cam: map<nat, nat>, ages: seq<nat>, recent: seq<nat>, t: nat, n: nat, s: nat,
                       row': seq<Entry<T>>, cam': map<nat, nat>, w: nat, i: nat, k: nat, v: int)
    requires 0 < n && Aged(row, cam, ages, recent, t, n) && SetOk(row, cam, s, n)
    requires Stamps(row, cam, recent, n, row', cam', w, i, k)
    ensures FilledOk(row', Without(recent, i) + [k], v)
  {
    var recent' := Without(recent, i) + [k];
    assert FilledOk(row, recent, v) && ResidentOk(row, cam, ages, recent, t, n, i);
    if v == w {
      assert recent'[|recent'| - 1] == k;
    } else if 0 <= v < |recent| {
      var c := IndexOf(recent, row[v].key);
      assert SetAssociative.WayOk(row, cam, s, n, v);
      assert c != i by {
        assert cam[row[v].tag] == v;
      }
      assert recent'[if c < i then c else c - 1] == recent[c];
    }
  }

  lemma StampOrder<T>(row: seq<Entry<T>>, cam: map<nat, nat>, ages: seq<nat>, recent: seq<nat>, t: nat, n: nat,
                      row': seq<Entry<T>>, cam': map<nat, nat>, w: nat, i: nat, k: nat, a: nat, b: nat)
    requires 0 < n && Aged(row, cam, ages, recent, t, n) && Stamps(row, cam, recent, n, row', cam', w, i, k)
    requires a < b < |Without(recent, i) + [k]|
    ensures Differ(Without(recent, i) + [k], a, b) && OlderOk(cam', ages[w := t], Without(recent, i) + [k], n, a, b)
  {
    var recent' := Without(recent, i) + [k];
    var c, d := if a < i then a else a + 1, if b < i then b else b + 1;
    OtherKept(row, cam, ages, recent, t, n, row', cam', w, i, k, c);
    assert recent'[a] == recent[c];
    if b < |recent'| - 1 {
      OtherKept(row, cam, ages, recent, t, n, row', cam', w, i, k, d);
      assert recent'[b] == recent[d] && Differ(recent, c, d) && OlderOk(cam, ages, recent, n, c, d);
    }
  }

  lemma StampResident<T>(row: seq<Entry<T>>, cam: map<nat, nat>, ages: seq<nat>, recent: seq<nat>, t: nat, n: nat,
                         row': seq<Entry<T>>, cam': map<nat, nat>, w: nat, i: nat, k: nat, a: nat)
    requires 0 < n && Aged(row, cam, ages, recent, t, n) && Stamps(row, cam, recent, n, row', cam', w, i, k)
    requires a < |Without(recent, i) + [k]|
    ensures ResidentOk(row', cam', ages[w := t], Without(recent, i) + [k], t + 1, n, a)
  {
    var recent' := Without(recent, i) + [k];
    assert ResidentOk(row, cam, ages, recent, t, n, i);
    if a < |recent'| - 1 {
      var c := if a < i then a else a + 1;
      OtherKept(row, cam, ages, recent, t, n, row', cam', w, i, k, c);
      assert recent'[a] == recent[c];
    }
  }

  /** Stamping a way moves its key to the end of the recency list. */
  lemma StampAged<T>(row: seq<Entry<T>>, cam: map<nat, nat>, ages: seq<nat>, recent: seq<nat>, t: nat, n: nat, s: nat,
                     row': seq<Entry<T>>, cam': map<nat, nat>, w: nat, i: nat, k: nat)
    requires 0 < n && Aged(row, cam, ages, recent, t, n) && SetOk(row, cam, s, n)
    requires Stamps(row, cam, recent, n, row', cam', w, i, k)
    ensures Aged(row', cam', ages[w := t], Without(recent, i) + [k], t + 1, n)
  {
    var recent', ages', later := Without(recent, i) + [k], ages[w := t], t + 1;
    forall a, b ensures Differ(recent', a, b) && OlderOk(cam', ages', recent', n, a, b) {
      if 0 <= a < b < |recent'| {
        StampOrder(row, cam, ages, recent, t, n, row', cam', w, i, k, a, b);
      }
    }
    forall a ensures ResidentOk(row', cam', ages', recent', later, n, a) {
      if 0 <= a < |recent'| {
        StampResident(row, cam, ages, recent, t, n, row', cam', w, i, k, a);
      }
    }
    forall v ensures FilledOk(row', recent', v) {
      StampFilled(row, cam, ages, recent, t, n, s, row', cam', w, i, k, v);
    }
  }

  /** In a full set the lowest stamp belongs to the least recently used key. */
  lemma LowestIsOldest<T>(row: seq<Entry<T>>, cam: map<nat, nat>, ages: seq<nat>, recent: seq<nat>, t: nat, n: nat,
                          s: nat, w: nat)
    requires 0 < n && Aged(row, cam, ages, recent, t, n) && SetOk(row, cam, s, n)
    requires |recent| == |row| && w < |row| && forall v :: 0 <= v < |row| ==> ages[w] <= ages[v]
    ensures row[w].key == recent[0] && recent[0] / n in cam && cam[recent[0] / n] == w
  {
    assert FilledOk(row, recent, w) && SetAssociative.WayOk(row, cam, s, n, w);
    var i := IndexOf(recent, row[w].key);
    assert ResidentOk(row, cam, ages, recent, t, n, 0) && ResidentOk(row, cam, ages, recent, t, n, i);
    assert OlderOk(cam, ages, recent, n, 0, i);
  }

  /** A key of the set is resident iff the CAM knows its tag. */
  lemma ResidentIffCam<T>(row: seq<Entry<T>>, cam: map<nat, nat>, ages: seq<nat>, recent: seq<nat>, t: nat, n: nat,
                          s: nat, k: nat)
    requires 0 < n && Aged(row, cam, ages, recent, t, n) && SetOk(row, cam, s, n) && k % n == s
    ensures k in recent <==> k / n in cam
    ensures k in recent ==> cam[k / n] < |row| && row[cam[k / n]].key == k
  {
    if k in recent {
      assert ResidentOk(row, cam, ages, recent, t, n, IndexOf(recent, k));
    }
    if k / n in cam {
      assert CamOk(row, cam, k / n);
      assert SetAssociative.WayOk(row, cam, s, n, cam[k / n]) && FilledOk(row, recent, cam[k / n]);
      KeySplit(k, n);
      KeySplit(row[cam[k / n]].key, n);
    }
  }

  /** The resident an insert of k into way w pushes aside: k itself, the oldest, or none. */
  function Slot(recent: seq<nat>, k: nat, ways: nat): nat {
    if k in recent then IndexOf(recent, k) else if |recent| >= ways then 0 else |recent|
  }

  lemma TouchIsSlot(recent: seq<nat>, k: nat, ways: nat)
    requires 0 < ways
    ensures Recency.Touch(recent, ways, k) == Without(recent, Slot(recent, k, ways)) + [k]
  {
    if k !in recent && |recent| >= ways {
      WithoutIsErase(recent, 0);
    }
  }

  lemma InsertStamps<T>(row: seq<Entry<T>>, cam: map<nat, nat>, ages: seq<nat>, recent: seq<nat>, t: nat, n: nat,
                        s: nat, row': seq<Entry<T>>, cam': map<nat, nat>, w: nat, k: nat)
    requires 0 < n && Aged(row, cam, ages, recent, t, n) && SetOk(row, cam, s, n) && k % n == s && w < |row| == |row'|
    requires row' == row[w := row'[w]] && row'[w].valid && row'[w].key == k && k / n in cam' && cam'[k / n] == w
    requires k in recent ==> cam' == cam
    requires k !in recent ==> cam' == (if row[w].valid then cam - {row[w].tag} else cam)[k / n := w]
    requires k !in recent && !row[w].valid ==> forall v :: 0 <= v < w ==> row[v].valid
    requires k !in recent && row[w].valid ==>
               |recent| == |row| && row[w].key == recent[0] && recent[0] / n in cam && cam[recent[0] / n] == w
    ensures Stamps(row, cam, recent, n, row', cam', w, Slot(recent, k, |row|), k)
  {
    var i := Slot(recent, k, |row|);
    ResidentIffCam(row, cam, ages, recent, t, n, s, k);
    assert FilledOk(row, recent, w) && SetAssociative.WayOk(row, cam, s, n, w);
    assert FilledOk(row, recent, |recent|);
    forall j ensures OtherOk(cam, cam', recent, n, i, j) {
      if 0 <= j < |recent| && j != i {
        assert ResidentOk(row, cam, ages, recent, t, n, j) && Differ(recent, i, j);
        assert SetAssociative.WayOk(row, cam, s, n, cam[recent[j] / n]);
        KeySplit(recent[j], n);
        KeySplit(k, n);
      }
    }
  }

  // ---------- all sets

  ghost predicate AgedAt<T>(rows: seq<seq<Entry<T>>>, cams: seq<map<nat, nat>>, lru: seq<seq<nat>>,
                            recent: seq<seq<nat>>, t: nat, s: int)
  {
    0 <= s < |rows| == |cams| == |lru| == |recent| ==> Aged(rows[s], cams[s], lru[s], recent[s], t, |rows|)
  }

  ghost predicate AllAged<T>(rows: seq<seq<Entry<T>>>, cams: seq<map<nat, nat>>, lru: seq<seq<nat>>,
                             recent: seq<seq<nat>>, t: nat)
  {
    |rows| == |cams| == |lru| == |recent| && forall s :: AgedAt(rows, cams, lru, recent, t, s)
  }

  /** An insert of key into way w of set s, stamped t, is one LRU touch of that set. */
  lemma TouchAged<T>(rows: seq<seq<Entry<T>>>, cams: seq<map<nat, nat>>, lru: seq<seq<nat>>, recent: seq<seq<nat>>,
                     t: nat, ways: nat, s: nat, rows': seq<seq<Entry<T>>>, cams': seq<map<nat, nat>>,
                     lru': seq<seq<nat>>, w: nat, k: nat)
    requires AllAged(rows, cams, lru, recent, t)
    requires s < |rows| == |rows'| == |cams'| && w < ways == |rows[s]| == |lru[s]|
    requires Stamps(rows[s], cams[s], recent[s], |rows|, rows'[s], cams'[s], w, Slot(recent[s], k, ways), k)
    requires SetOk(rows[s], cams[s], s, |rows|)
    requires rows' == rows[s := rows'[s]] && cams' == cams[s := cams'[s]] && lru' == lru[s := Stamped(lru[s], w, t)]
    ensures AllAged(rows', cams', lru', recent[s := Recency.Touch(recent[s], ways, k)], t + 1)
  {
    var recent', later := recent[s := Recency.Touch(recent[s], ways, k)], t + 1;
    forall u ensures AgedAt(rows', cams', lru', recent', later, u) {
      assert AgedAt(rows, cams, lru, recent, t, u);
      if u == s {
        StampAged(rows[s], cams[s], lru[s], recent[s], t, |rows|, s,
                  rows'[s], cams'[s], w, Slot(recent[s], k, ways), k);
        TouchIsSlot(recent[s], k, ways);
      } else if 0 <= u < |rows| {
        AgedLater(rows[u], cams[u], lru[u], recent[u], t, |rows|);
      }
    }
  }

  /** What the recency list says about the key and the chosen way of its set. */
  lemma BeforeTouch<T>(rows: seq<seq<Entry<T>>>, cams: seq<map<nat, nat>>, lru: seq<seq<nat>>, recent: seq<seq<nat>>,
                       contents: map<nat, T>, t: nat, ways: nat, s: nat, k: nat, choice: nat)
    requires AllAged(rows, cams, lru, recent, t) && Refines(rows, cams, ways, contents) && s == k % |rows|
    requires |lru[s]| == ways && choice < ways && forall v :: 0 <= v < ways ==> lru[s][choice] <= lru[s][v]
    ensures |rows[s]| == ways && SetOk(rows[s], cams[s], s, |rows|) && |recent[s]| <= ways
    ensures Aged(rows[s], cams[s], lru[s], recent[s], t, |rows|)
    ensures k in recent[s] <==> k in contents
    ensures |recent[s]| == ways ==>
              rows[s][choice].valid && rows[s][choice].key == recent[s][0]
              && recent[s][0] / |rows| in cams[s] && cams[s][recent[s][0] / |rows|] == choice
    ensures |recent[s]| < ways ==> !rows[s][|recent[s]|].valid
  {
    assert RowOk(rows, cams, ways, s) && AgedAt(rows, cams, lru, recent, t, s) && KeyOk(rows, cams, contents, k);
    ResidentIffCam(rows[s], cams[s], lru[s], recent[s], t, |rows|, s, k);
    if |recent[s]| == ways {
      LowestIsOldest(rows[s], cams[s], lru[s], recent[s], t, |rows|, s, choice);
    }
    assert FilledOk(rows[s], recent[s], |recent[s]|) && FilledOk(rows[s], recent[s], choice);
  }

  class LruSetAssociativeCache<T> {
    const cache: SetAssociativeCache<T>
    const lru: array<seq<nat>>
    var t: nat
    /** Per set the resident keys, least recently stamped first. */
    ghost var recent: seq<seq<nat>>

    ghost predicate Valid()
      reads this, cache, cache.entries, cache.cams, lru
    {
      && cache.Valid() && AllAged(cache.entries[..], cache.cams[..], lru[..], recent, t)
      && (forall s :: 0 <= s < lru.Length ==> |lru[s]| == cache.numWays)
    }

    constructor (size: nat, numWays: nat, blank: T)
      requires 0 < numWays <= size && size % numWays == 0
      ensures Valid() && fresh(cache) && fresh(cache.entries) && fresh(cache.cams) && fresh(lru)
      ensures cache.numWays == numWays && cache.entries.Length == size / numWays
      ensures recent == seq(size / numWays, _ => [])
    {
      cache := new SetAssociativeCache(size, numWays, blank);
      lru := new seq<nat>[size / numWays](_ => seq(numWays, _ => 0));
      t := 1;
      recent := seq(size / numWays, _ => []);
      new;
      forall s ensures AgedAt(cache.entries[..], cache.cams[..], lru[..], recent, t, s) {
        if 0 <= s < lru.Length {
          assert Distinct(recent[s]) by { assert forall i, j :: Differ(recent[s], i, j); }
          assert forall w :: FilledOk(cache.entries[s], recent[s], w);
          assert forall i :: ResidentOk(cache.entries[s], cache.cams[s], lru[s], recent[s], t, lru.Length, i);
          assert forall i, j :: OlderOk(cache.cams[s], lru[s], recent[s], lru.Length, i, j);
        }
      }
    }

    /** The first way of the set with the lowest stamp. */
    method SelectVictim(index: nat) returns (way: nat)
      requires Valid() && index < lru.Length
      ensures way < cache.numWays
      ensures forall v :: 0 <= v < cache.numWays ==> lru[index][way] <= lru[index][v]
    {
      way := 0;
      for v := 0 to cache.numWays
        invariant way < cache.numWays
        invariant forall u :: 0 <= u < v ==> lru[index][way] <= lru[index][u]
      {
        if lru[index][v] < lru[index][way] {
          way := v;
        }
      }
    }

    /** get_lru adds the tag of an absent key to the CAM, naming way 0, and so the CAM agrees with the ways
        afterwards exactly if the key was present. */
    method SetMru(key: nat)
      requires cache.Valid() && lru.Length == cache.entries.Length
      requires |lru[key % lru.Length]| == cache.numWays
      modifies `t, lru, cache.cams
      ensures t == old(t) + 1
      ensures var s, tag := key % lru.Length, key / lru.Length;
        var cam := old(cache.cams[key % lru.Length]);
        var way := if tag in cam then cam[tag] else 0;
        && way < cache.numWays
        && lru[..] == old(lru[..])[s := Stamped(old(lru[s]), way, old(t))]
        && cache.cams[..] == old(cache.cams[..])[s := cam[tag := way]]
      ensures key in cache.contents ==> cache.cams[..] == old(cache.cams[..])
      ensures cache.Valid() <==> key in cache.contents
    {
      var index, tag := key % lru.Length, key / lru.Length;
      ghost var rows, maps := cache.entries[..], cache.cams[..];
      assert KeyOk(rows, maps, cache.contents, key) && RowOk(rows, maps, cache.numWays, index);
      assert CamOk(rows[index], maps[index], tag);
      if tag !in cache.cams[index] {
        StrayTag(rows[index], maps[index], index, |rows|, tag, 0);
        cache.cams[index] := cache.cams[index][tag := 0];
        assert !RowOk(cache.entries[..], cache.cams[..], cache.numWays, index);
      } else {
        assert cache.cams[index][tag := cache.cams[index][tag]] == cache.cams[index];
      }
      lru[index] := Stamped(lru[index], cache.cams[index][tag], t);
      t := t + 1;
      assert key in cache.contents ==> cache.cams[..] == maps;
    }

    /** insert followed by set_mru: one LRU touch of the key's set, and no other set changes. */
    method Touch(key: nat, data: T) returns (entry: Entry<T>)
      requires Valid()
      modifies this, lru, cache, cache.entries, cache.cams
      ensures Valid()
      ensures var s := key % lru.Length;
        recent == old(recent)[s := Recency.Touch(old(recent)[s], cache.numWays, key)]
      ensures key in old(recent)[key % lru.Length] <==> key in old(cache.contents)
      ensures var list := old(recent)[key % lru.Length];
        key !in list ==> (entry.valid <==> |list| == cache.numWays) && (entry.valid ==> entry.key == list[0])
    {
      var index := key % lru.Length;
      var choice := SelectVictim(index);
      ghost var rows, maps, ages, lists, ways := cache.entries[..], cache.cams[..], lru[..], recent, cache.numWays;
      BeforeTouch(rows, maps, ages, lists, cache.contents, t, ways, index, key, choice);
      ghost var way;
      entry, way := cache.Insert(key, data, choice);
      assert FilledOk(rows[index], lists[index], way);
      InsertStamps(rows[index], maps[index], ages[index], lists[index], t, lru.Length, index,
                   cache.entries[index], cache.cams[index], way, key);
      SetMru(key);
      TouchAged(rows, maps, ages, lists, old(t), ways, index, cache.entries[..], cache.cams[..], lru[..], way, key);
      recent := recent[index := Recency.Touch(recent[index], cache.numWays, key)];
    }
  }
}
