/** The set-associative cache of prefetcher/bingo_frame.h: rows of ways, and per set a CAM from tag to way. */
module SetAssociative {

  datatype Entry<T> = Entry(key: nat, index: nat, tag: nat, valid: bool, data: T)

  // ---------- one set

  /** The CAM of set s names only ways that hold the tag. */
  ghost predicate CamOk<T>(row: seq<Entry<T>>, cam: map<nat, nat>, tag: nat) {
    tag in cam ==> cam[tag] < |row| && row[cam[tag]].valid && row[cam[tag]].tag == tag
  }

  /** A valid way is named by the CAM, and its key splits into its tag and the set. */
  ghost predicate WayOk<T>(row: seq<Entry<T>>, cam: map<nat, nat>, s: nat, n: nat, w: int)
    requires 0 < n
  {
    0 <= w < |row| && row[w].valid ==>
      var e := row[w];
      e.tag in cam && cam[e.tag] == w && e.index == s && e.tag == e.key / n && e.key % n == s
  }

  ghost predicate SetOk<T>(row: seq<Entry<T>>, cam: map<nat, nat>, s: nat, n: nat)
    requires 0 < n
  {
    (forall tag :: CamOk(row, cam, tag)) && (forall w :: WayOk(row, cam, s, n, w))
  }

  /** Overwriting way w with a key new to the set, after its old tag left the CAM. */
  lemma PlaceOk<T>(row: seq<Entry<T>>, cam: map<nat, nat>, s: nat, n: nat, w: nat, e: Entry<T>)
    requires 0 < n && SetOk(row, cam, s, n) && w < |row| && e.tag !in cam
    requires e.valid && e.index == s && e.tag == e.key / n && e.key % n == s
    ensures SetOk(row[w := e], (if row[w].valid then cam - {row[w].tag} else cam)[e.tag := w], s, n)
  {
    var row', cam' := row[w := e], (if row[w].valid then cam - {row[w].tag} else cam)[e.tag := w];
    assert WayOk(row, cam, s, n, w);
    forall tag ensures CamOk(row', cam', tag) {
      assert CamOk(row, cam, tag);
    }
    forall v ensures WayOk(row', cam', s, n, v) {
      assert WayOk(row, cam, s, n, v);
    }
  }

  lemma EraseOk<T>(row: seq<Entry<T>>, cam: map<nat, nat>, s: nat, n: nat, tag: nat)
    requires 0 < n && SetOk(row, cam, s, n) && tag in cam && cam[tag] < |row|
    ensures SetOk(row[cam[tag] := row[cam[tag]].(valid := false)], cam - {tag}, s, n)
  {
    var row', cam' := row[cam[tag] := row[cam[tag]].(valid := false)], cam - {tag};
    assert CamOk(row, cam, tag);
    forall t ensures CamOk(row', cam', t) {
      assert CamOk(row, cam, t);
    }
    forall v ensures WayOk(row', cam', s, n, v) {
      assert WayOk(row, cam, s, n, v);
    }
  }

  /** Naming a way for a tag the CAM did not know breaks the set: a valid way has its tag in the CAM already. */
  lemma StrayTag<T>(row: seq<Entry<T>>, cam: map<nat, nat>, s: nat, n: nat, tag: nat, w: nat)
    requires 0 < n && SetOk(row, cam, s, n) && tag !in cam
    ensures !SetOk(row, cam[tag := w], s, n)
  {
    assert WayOk(row, cam, s, n, w);
    assert !CamOk(row, cam[tag := w], tag);
  }

  lemma RewriteOk<T>(row: seq<Entry<T>>, cam: map<nat, nat>, s: nat, n: nat, tag: nat, data: T)
    requires 0 < n && SetOk(row, cam, s, n) && tag in cam && cam[tag] < |row|
    ensures SetOk(row[cam[tag] := row[cam[tag]].(data := data)], cam, s, n)
  {
    var row' := row[cam[tag] := row[cam[tag]].(data := data)];
    forall t ensures CamOk(row', cam, t) {
      assert CamOk(row, cam, t);
    }
    forall v ensures WayOk(row', cam, s, n, v) {
      assert WayOk(row, cam, s, n, v);
    }
  }

  /** Tag and set determine the key. */
  lemma KeySplit(k: nat, n: nat)
    requires 0 < n
    ensures k == k / n * n + k % n
  {
  }

  // ---------- all sets, against a map

  /** The map and the sets agree on key k. */
  ghost predicate KeyOk<T>(rows: seq<seq<Entry<T>>>, cams: seq<map<nat, nat>>, contents: map<nat, T>, k: nat)
    requires 0 < |rows| == |cams|
  {
    var s, tag := k % |rows|, k / |rows|;
    && (k in contents <==> tag in cams[s])
    && (tag in cams[s] && cams[s][tag] < |rows[s]| ==> contents[k] == rows[s][cams[s][tag]].data)
  }

  ghost predicate RowOk<T>(rows: seq<seq<Entry<T>>>, cams: seq<map<nat, nat>>, ways: nat, s: int)
    requires |rows| == |cams|
  {
    0 <= s < |rows| ==> |rows[s]| == ways && SetOk(rows[s], cams[s], s, |rows|)
  }

  ghost predicate Refines<T>(rows: seq<seq<Entry<T>>>, cams: seq<map<nat, nat>>, ways: nat, contents: map<nat, T>) {
    && 0 < |rows| == |cams|
    && (forall s :: RowOk(rows, cams, ways, s))
    && (forall k :: KeyOk(rows, cams, contents, k))
  }

  /** A key of set s agrees with the new map; a key of another set keeps its value. */
  ghost predicate KeyStep<T>(rows: seq<seq<Entry<T>>>, cams: seq<map<nat, nat>>,
                             contents: map<nat, T>, contents': map<nat, T>, s: nat, k: nat)
    requires 0 < |rows| == |cams|
  {
    if k % |rows| == s then KeyOk(rows, cams, contents', k)
    else (k in contents <==> k in contents') && (k in contents ==> contents[k] == contents'[k])
  }

  /** Changing one set, and in the map only keys of that set. */
  lemma RefinesUpdate<T>(rows: seq<seq<Entry<T>>>, cams: seq<map<nat, nat>>, ways: nat, contents: map<nat, T>, s: nat,
                         rows': seq<seq<Entry<T>>>, cams': seq<map<nat, nat>>, contents': map<nat, T>)
    requires Refines(rows, cams, ways, contents) && s < |rows| == |rows'| == |cams'|
    requires rows' == rows[s := rows'[s]] && cams' == cams[s := cams'[s]] && RowOk(rows', cams', ways, s)
    requires forall k :: KeyStep(rows', cams', contents, contents', s, k)
    ensures Refines(rows', cams', ways, contents')
  {
    forall u ensures RowOk(rows', cams', ways, u) {
      assert RowOk(rows, cams, ways, u);
    }
    forall k: nat ensures KeyOk(rows', cams', contents', k) {
      assert KeyOk(rows, cams, contents, k) && KeyStep(rows', cams', contents, contents', s, k);
    }
  }

  /** Key k once `written` has replaced the entry of way w of set s: that entry's key is gone, and the new one is in. */
  lemma PlacedKey<T>(rows: seq<seq<Entry<T>>>, cams: seq<map<nat, nat>>, ways: nat, contents: map<nat, T>, s: nat,
                     w: nat, written: Entry<T>, rows': seq<seq<Entry<T>>>, cams': seq<map<nat, nat>>,
                     contents': map<nat, T>, k: nat)
    requires Refines(rows, cams, ways, contents) && s < |rows| && w < |rows[s]|
    requires written.key !in contents && written.tag == written.key / |rows| && written.key % |rows| == s
    requires rows' == rows[s := rows[s][w := written]]
    requires var e := rows[s][w];
      && cams' == cams[s := (if e.valid then cams[s] - {e.tag} else cams[s])[written.tag := w]]
      && contents' == (if e.valid then contents - {e.key} else contents)[written.key := written.data]
    ensures KeyStep(rows', cams', contents, contents', s, k)
  {
    var e, n := rows[s][w], |rows|;
    assert KeyOk(rows, cams, contents, k) && RowOk(rows, cams, ways, s);
    assert CamOk(rows[s], cams[s], k / n) && WayOk(rows[s], cams[s], s, n, w);
    KeySplit(k, n);
    KeySplit(e.key, n);
    KeySplit(written.key, n);
  }

  class SetAssociativeCache<T> {
    const numWays: nat
    const entries: array<seq<Entry<T>>>
    const cams: array<map<nat, nat>>
    ghost var contents: map<nat, T>

    ghost predicate Valid()
      reads this, entries, cams
    {
      && 0 < numWays && entries.Length == cams.Length && Refines(entries[..], cams[..], numWays, contents)
      && forall s :: 0 <= s < entries.Length ==> |entries[s]| == numWays
    }

    /** size / num_ways sets; `blank` is what the data of an unused way holds. */
    constructor (size: nat, numWays: nat, blank: T)
      requires 0 < numWays <= size && size % numWays == 0
      ensures Valid() && fresh(entries) && fresh(cams)
      ensures this.numWays == numWays && entries.Length == size / numWays && contents == map[]
      ensures forall s, w :: 0 <= s < entries.Length && 0 <= w < numWays ==>
                               |entries[s]| == numWays && !entries[s][w].valid
      ensures forall s :: 0 <= s < cams.Length ==> cams[s] == map[]
    {
      this.numWays := numWays;
      entries := new seq<Entry<T>>[size / numWays](_ => seq(numWays, _ => Entry(0, 0, 0, false, blank)));
      cams := new map<nat, nat>[size / numWays](_ => map[]);
      contents := map[];
      new;
      forall s ensures RowOk(entries[..], cams[..], numWays, s) {
        if 0 <= s < entries.Length {
          assert forall tag :: CamOk(entries[s], cams[s], tag);
          assert forall w :: WayOk(entries[s], cams[s], s, entries.Length, w);
        }
      }
      assert forall k: nat :: KeyOk(entries[..], cams[..], contents, k);
    }

    method Find(key: nat) returns (way: int)
      requires Valid()
      ensures way == -1 <==> key !in contents
      ensures way != -1 ==> 0 <= way < numWays && key / entries.Length in cams[key % entries.Length]
      ensures way != -1 ==> cams[key % entries.Length][key / entries.Length] == way
      ensures way != -1 ==>
                var e := entries[key % entries.Length][way]; e.valid && e.key == key && e.data == contents[key]
    {
      var index, tag := key % entries.Length, key / entries.Length;
      assert RowOk(entries[..], cams[..], numWays, index) && KeyOk(entries[..], cams[..], contents, key);
      assert CamOk(entries[index], cams[index], tag);
      if tag !in cams[index] {
        return -1;
      }
      way := cams[index][tag];
      assert entries[index][way].tag == tag && entries[index][way].valid;
      assert WayOk(entries[index], cams[index], index, entries.Length, way);
      KeySplit(key, entries.Length);
      KeySplit(entries[index][way].key, entries.Length);
    }

    method Erase(key: nat) returns (found: bool)
      requires Valid()
      modifies `contents, entries, cams
      ensures Valid() && contents == old(contents) - {key}
      ensures found <==> key in old(contents)
    {
      var way := Find(key);
      found := way != -1;
      var index, tag := key % entries.Length, key / entries.Length;
      var numErased := if tag in cams[index] then 1 else 0;
      assert if found then numErased == 1 else numErased == 0 by {
        assert KeyOk(entries[..], cams[..], contents, key);
      }
      if found {
        ghost var rows, maps, before := entries[..], cams[..], contents;
        assert RowOk(rows, maps, numWays, index);
        EraseOk(entries[index], cams[index], index, entries.Length, tag);
        cams[index] := cams[index] - {tag};
        entries[index] := entries[index][way := entries[index][way].(valid := false)];
        contents := contents - {key};
        assert entries[..] == rows[index := entries[index]] && cams[..] == maps[index := cams[index]];
        forall k: nat ensures KeyStep(entries[..], cams[..], before, contents, index, k) {
          assert KeyOk(rows, maps, before, k);
          KeySplit(k, entries.Length);
          KeySplit(key, entries.Length);
          if k / entries.Length in cams[index] {
            assert CamOk(rows[index], maps[index], k / entries.Length) && CamOk(rows[index], maps[index], tag);
          }
        }
        RefinesUpdate(rows, maps, numWays, before, index, entries[..], cams[..], contents);
      }
    }

    /** The first way of a set that holds nothing, or else the way the replacement policy chose. */
    method VictimWay(index: nat, choice: nat) returns (way: nat)
      requires Valid() && index < entries.Length && choice < numWays
      ensures way < numWays
      ensures entries[index][way].valid ==> way == choice && forall v :: 0 <= v < numWays ==> entries[index][v].valid
      ensures !entries[index][way].valid ==> forall v :: 0 <= v < way ==> entries[index][v].valid
    {
      assert RowOk(entries[..], cams[..], numWays, index);
      for i := 0 to numWays
        invariant forall v :: 0 <= v < i ==> entries[index][v].valid
      {
        if !entries[index][i].valid {
          return i;
        }
      }
      return choice;
    }

    /** A key already present: its way is rewritten and nothing else changes. */
    method Rewrite(key: nat, data: T, way: nat) returns (entry: Entry<T>)
      requires Valid() && key in contents && way < numWays
      requires var s, tag := key % entries.Length, key / entries.Length; tag in cams[s] && cams[s][tag] == way
      requires entries[key % entries.Length][way].key == key
      modifies `contents, entries
      ensures Valid() && contents == old(contents)[key := data] && entry == old(entries[key % entries.Length])[way]
      ensures entries[..] ==
        old(entries[..])[key % entries.Length := old(entries[key % entries.Length])[way := entry.(data := data)]]
    {
      var n, index, tag := entries.Length, key % entries.Length, key / entries.Length;
      ghost var rows, maps, before := entries[..], cams[..], contents;
      assert RowOk(rows, maps, numWays, index);
      entry := entries[index][way];
      RewriteOk(entries[index], cams[index], index, n, tag, data);
      entries[index] := entries[index][way := entry.(data := data)];
      contents := contents[key := data];
      assert entries[..] == rows[index := entries[index]] && cams[..] == maps[index := cams[index]];
      forall k: nat ensures KeyStep(entries[..], cams[..], before, contents, index, k) {
        assert KeyOk(rows, maps, before, k) && CamOk(rows[index], maps[index], k / n);
        assert WayOk(rows[index], maps[index], index, n, way);
        KeySplit(k, n);
        KeySplit(key, n);
      }
      RefinesUpdate(rows, maps, numWays, before, index, entries[..], cams[..], contents);
    }

    /** A new key: the victim way is overwritten, its old key leaves the CAM and the map. */
    method Place(key: nat, data: T, victim: nat) returns (entry: Entry<T>)
      requires Valid() && key !in contents && victim < numWays
      modifies `contents, entries, cams
      ensures Valid() && entry == old(entries[key % entries.Length])[victim]
      ensures entry.valid ==>
        entry.key in old(contents) && entry.key != key && entry.key % entries.Length == key % entries.Length
      ensures contents == (if entry.valid then old(contents) - {entry.key} else old(contents))[key := data]
      ensures var s, tag := key % entries.Length, key / entries.Length;
        var cam := old(cams[key % entries.Length]);
        && entries[..] == old(entries[..])[s := old(entries[s])[victim := Entry(key, s, tag, true, data)]]
        && cams[..] == old(cams[..])[s := (if entry.valid then cam - {entry.tag} else cam)[tag := victim]]
    {
      var n, index, tag := entries.Length, key % entries.Length, key / entries.Length;
      ghost var rows, maps, before := entries[..], cams[..], contents;
      assert RowOk(rows, maps, numWays, index) && KeyOk(rows, maps, before, key);
      KeySplit(key, n);
      entry := entries[index][victim];
      var written := Entry(key, index, tag, true, data);
      PlaceOk(entries[index], cams[index], index, n, victim, written);
      assert WayOk(entries[index], cams[index], index, n, victim);
      if entry.valid {
        KeySplit(entry.key, n);
        assert KeyOk(rows, maps, before, entry.key);
        var numErased := if entry.tag in cams[index] then 1 else 0;
        assert numErased == 1;
        cams[index] := cams[index] - {entry.tag};
        contents := contents - {entry.key};
      }
      entries[index] := entries[index][victim := written];
      cams[index] := cams[index][tag := victim];
      contents := contents[key := data];
      assert entries[..] == rows[index := entries[index]] && cams[..] == maps[index := cams[index]];
      forall k: nat ensures KeyStep(entries[..], cams[..], before, contents, index, k) {
        PlacedKey(rows, maps, numWays, before, index, victim, written, entries[..], cams[..], contents, k);
      }
      RefinesUpdate(rows, maps, numWays, before, index, entries[..], cams[..], contents);
    }

    /** `choice` is what select_victim would return. An insert writes one key; it drops at most one other key,
        of the same set, and only if that set was full. Returns the entry that was written over. */
    method Insert(key: nat, data: T, choice: nat) returns (entry: Entry<T>, ghost way: nat)
      requires Valid() && choice < numWays
      modifies `contents, entries, cams
      ensures Valid() && way < numWays
      ensures key in old(contents) ==> entry.valid && entry.key == key && entry.data == old(contents)[key]
      ensures key !in old(contents) && entry.valid ==>
        (entry.key in old(contents) && entry.key != key && entry.key % entries.Length == key % entries.Length
         && way == choice && forall v :: 0 <= v < numWays ==> old(entries[key % entries.Length])[v].valid)
      ensures contents ==
              (if key !in old(contents) && entry.valid then old(contents) - {entry.key} else old(contents))[key := data]
      ensures var s := key % entries.Length;
        && key / entries.Length in cams[s] && cams[s][key / entries.Length] == way
        && entry == old(entries[s])[way]
        && entries[..] == old(entries[..])[s := old(entries[s])[way := entries[s][way]]]
        && entries[s][way].key == key && entries[s][way].valid
        && cams[..] == old(cams[..])[s := cams[s]]
        && (key !in old(contents) && !entry.valid ==> forall v :: 0 <= v < way ==> old(entries[s])[v].valid)
        && (key in old(contents) ==> cams[s] == old(cams[s]))
      ensures key !in old(contents) ==>
        (var s, tag := key % entries.Length, key / entries.Length;
         var cam := old(cams[key % entries.Length]);
         cams[s] == (if entry.valid then cam - {entry.tag} else cam)[tag := way])
    {
      var found := Find(key);
      if found != -1 {
        way := found;
        entry := Rewrite(key, data, found);
        assert cams[..] == old(cams[..])[key % entries.Length := cams[key % entries.Length]];
      } else {
        var victim := VictimWay(key % entries.Length, choice);
        way := victim;
        entry := Place(key, data, victim);
      }
    }
  }
}
