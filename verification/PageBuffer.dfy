/** The page buffer of the off-chip predictor (lookup_address, src/offchip_pred_perc.cc): per set a deque of pages,
    least recently used first, each with the offsets accessed since it came in. */
module PageBuffer {
  import opened Recency
  import opened Sequences

  datatype Page = Page(page: nat, touched: set<nat>)
  datatype Touched = Touched(page: nat, offset: nat)

  function Pages(d: seq<Page>): seq<nat> {
    seq(|d|, i requires 0 <= i < |d| => d[i].page)
  }

  function PagesOf(trace: seq<Touched>): seq<nat> {
    seq(|trace|, i requires 0 <= i < |trace| => trace[i].page)
  }

  /** Page p is in its set after the first j accesses to the set. */
  predicate Resident(trace: seq<Touched>, assoc: nat, p: nat, j: nat)
    requires 0 < assoc && j <= |trace|
  {
    p in Contents(PagesOf(trace[..j]), assoc)
  }

  /** Access i was to offset o of page p, and the page has not left since. */
  ghost predicate SinceAccess(trace: seq<Touched>, assoc: nat, p: nat, o: nat, i: int)
    requires 0 < assoc
  {
    0 <= i < |trace| && trace[i] == Touched(p, o) && forall j: nat :: i < j <= |trace| ==> Resident(trace, assoc, p, j)
  }

  /** Offset o was accessed during the page's current residency. */
  ghost predicate TouchedInResidency(trace: seq<Touched>, assoc: nat, p: nat, o: nat)
    requires 0 < assoc
  {
    exists i :: SinceAccess(trace, assoc, p, o, i)
  }

  lemma ResidentPrefix(trace: seq<Touched>, a: Touched, assoc: nat, p: nat, j: nat)
    requires 0 < assoc && j <= |trace|
    ensures Resident(trace + [a], assoc, p, j) == Resident(trace, assoc, p, j)
  {
    assert (trace + [a])[..j] == trace[..j];
  }

  lemma PagesStep(trace: seq<Touched>, a: Touched, assoc: nat)
    requires 0 < assoc
    ensures Contents(PagesOf(trace + [a]), assoc) == Touch(Contents(PagesOf(trace), assoc), assoc, a.page)
  {
    assert PagesOf(trace + [a]) == PagesOf(trace) + [a.page];
    ContentsStep(PagesOf(trace), assoc, a.page);
  }

  /** How one access changes what was touched in residency: the accessed page gains its offset, starting afresh
      if it was not resident; a page that is pushed out forgets everything. */
  lemma TouchedStep(trace: seq<Touched>, a: Touched, assoc: nat, p: nat, o: nat)
    requires 0 < assoc
    ensures TouchedInResidency(trace + [a], assoc, p, o)
            <==> a == Touched(p, o) ||
                 (TouchedInResidency(trace, assoc, p, o) && p in Contents(PagesOf(trace + [a]), assoc))
  {
    var all, n := trace + [a], |trace|;
    assert all[..n + 1] == all;
    PagesStep(trace, a, assoc);
    assert a.page in Touch(Contents(PagesOf(trace), assoc), assoc, a.page) by {
      var t := Touch(Contents(PagesOf(trace), assoc), assoc, a.page);
      assert t[|t| - 1] == a.page;
    }
    if TouchedInResidency(all, assoc, p, o) && a != Touched(p, o) {
      var i :| SinceAccess(all, assoc, p, o, i);
      assert Resident(all, assoc, p, n + 1);
      forall j: nat | i < j <= n ensures Resident(trace, assoc, p, j) {
        assert Resident(all, assoc, p, j);
        ResidentPrefix(trace, a, assoc, p, j);
      }
      assert SinceAccess(trace, assoc, p, o, i);
    }
    if TouchedInResidency(trace, assoc, p, o) && p in Contents(PagesOf(all), assoc) {
      var i :| SinceAccess(trace, assoc, p, o, i);
      forall j: nat | i < j <= n + 1 ensures Resident(all, assoc, p, j) {
        if j <= n {
          assert Resident(trace, assoc, p, j);
          ResidentPrefix(trace, a, assoc, p, j);
        }
      }
      assert SinceAccess(all, assoc, p, o, i);
    }
    if a == Touched(p, o) {
      assert SinceAccess(all, assoc, p, o, n);
    }
  }

  /** A page that is not resident has nothing touched in residency. */
  lemma TouchedIsResident(trace: seq<Touched>, assoc: nat, p: nat, o: nat)
    requires 0 < assoc && TouchedInResidency(trace, assoc, p, o)
    ensures p in Contents(PagesOf(trace), assoc)
  {
    var i :| SinceAccess(trace, assoc, p, o, i);
    assert Resident(trace, assoc, p, |trace|) && trace[..|trace|] == trace;
  }

  // ---------- one set

  ghost predicate BitsOk(d: seq<Page>, trace: seq<Touched>, assoc: nat, i: int)
    requires 0 < assoc
  {
    0 <= i < |d| ==> forall o :: o in d[i].touched <==> TouchedInResidency(trace, assoc, d[i].page, o)
  }

  /** The deque holds the LRU contents of the set's accesses, and the bitmaps what was touched in residency. */
  ghost predicate SetOk(d: seq<Page>, trace: seq<Touched>, assoc: nat)
    requires 0 < assoc
  {
    Pages(d) == Contents(PagesOf(trace), assoc) && forall i :: BitsOk(d, trace, assoc, i)
  }

  /** The deque after an access: the page's entry moves to the back with one more bit, or a fresh entry is pushed
      after the front one, if the deque is full, was popped. */
  function Accessed(d: seq<Page>, a: Touched, assoc: nat): seq<Page>
    requires 0 < assoc
  {
    var i := IndexOf(Pages(d), a.page);
    if i < |d| then Without(d, i) + [Page(a.page, d[i].touched + {a.offset})]
    else (if |d| >= assoc then d[1..] else d) + [Page(a.page, {a.offset})]
  }

  lemma AccessedPages(d: seq<Page>, a: Touched, assoc: nat)
    requires 0 < assoc
    ensures Pages(Accessed(d, a, assoc)) == Touch(Pages(d), assoc, a.page)
  {
    var p, i := Pages(d), IndexOf(Pages(d), a.page);
    if i < |d| {
      assert Pages(Without(d, i)) == Without(p, i);
      assert Pages(Accessed(d, a, assoc)) == Without(p, i) + [a.page];
    } else if |d| >= assoc {
      assert Pages(d[1..]) == p[1..] && Pages(Accessed(d, a, assoc)) == p[1..] + [a.page];
    } else {
      assert Pages(Accessed(d, a, assoc)) == p + [a.page];
    }
  }

  /** The accessed page's entry, now at the back. */
  lemma BackOk(d: seq<Page>, trace: seq<Touched>, a: Touched, assoc: nat)
    requires 0 < assoc && SetOk(d, trace, assoc)
    ensures BitsOk(Accessed(d, a, assoc), trace + [a], assoc, |Accessed(d, a, assoc)| - 1)
  {
    var d', at := Accessed(d, a, assoc), IndexOf(Pages(d), a.page);
    PagesStep(trace, a, assoc);
    AccessedPages(d, a, assoc);
    var back := d'[|d'| - 1];
    assert Pages(d')[|d'| - 1] == a.page == back.page;
    assert BitsOk(d, trace, assoc, at);
    forall o ensures o in back.touched <==> TouchedInResidency(trace + [a], assoc, a.page, o) {
      TouchedStep(trace, a, assoc, a.page, o);
      if at == |d| && TouchedInResidency(trace, assoc, a.page, o) {
        TouchedIsResident(trace, assoc, a.page, o);
      }
    }
  }

  /** Where an entry that stays came from; it is another page's. */
  lemma StayedFrom(d: seq<Page>, a: Touched, assoc: nat, i: nat) returns (c: nat)
    requires 0 < assoc && Distinct(Pages(d)) && i < |Accessed(d, a, assoc)| - 1
    ensures c < |d| && Accessed(d, a, assoc)[i] == d[c] && d[c].page != a.page
  {
    var at := IndexOf(Pages(d), a.page);
    if at < |d| {
      c := if i < at then i else i + 1;
      assert Differ(Pages(d), c, at) && Differ(Pages(d), at, c);
    } else {
      c := if |d| >= assoc then i + 1 else i;
    }
    assert Pages(d)[c] == d[c].page;
  }

  lemma StayedOk(d: seq<Page>, trace: seq<Touched>, a: Touched, assoc: nat, i: nat)
    requires 0 < assoc && SetOk(d, trace, assoc) && i < |Accessed(d, a, assoc)| - 1
    ensures BitsOk(Accessed(d, a, assoc), trace + [a], assoc, i)
  {
    ContentsDistinct(PagesOf(trace), assoc);
    var c := StayedFrom(d, a, assoc, i);
    var p := d[c].page;
    assert BitsOk(d, trace, assoc, c);
    assert p in Contents(PagesOf(trace + [a]), assoc) by {
      PagesStep(trace, a, assoc);
      AccessedPages(d, a, assoc);
      assert Pages(Accessed(d, a, assoc))[i] == p;
    }
    forall o ensures o in d[c].touched <==> TouchedInResidency(trace + [a], assoc, p, o) {
      TouchedStep(trace, a, assoc, p, o);
    }
  }

  lemma AccessedBits(d: seq<Page>, trace: seq<Touched>, a: Touched, assoc: nat, i: int)
    requires 0 < assoc && SetOk(d, trace, assoc)
    ensures BitsOk(Accessed(d, a, assoc), trace + [a], assoc, i)
  {
    if i == |Accessed(d, a, assoc)| - 1 {
      BackOk(d, trace, a, assoc);
    } else if 0 <= i < |Accessed(d, a, assoc)| {
      StayedOk(d, trace, a, assoc, i);
    }
  }

  lemma AccessedOk(d: seq<Page>, trace: seq<Touched>, a: Touched, assoc: nat)
    requires 0 < assoc && SetOk(d, trace, assoc)
    ensures SetOk(Accessed(d, a, assoc), trace + [a], assoc)
  {
    AccessedPages(d, a, assoc);
    PagesStep(trace, a, assoc);
    forall i ensures BitsOk(Accessed(d, a, assoc), trace + [a], assoc, i) {
      AccessedBits(d, trace, a, assoc, i);
    }
  }

  // ---------- all sets

  /** The accesses that fall into set k. */
  function InSet(setOf: nat -> nat, sets: nat, k: nat, log: seq<Touched>): seq<Touched>
    requires 0 < sets
  {
    Filter(log, (a: Touched) => setOf(a.page) % sets == k)
  }

  class PageBuffer {
    const assoc: nat
    /** The page hash, uninterpreted. */
    const setOf: nat -> nat
    const buffer: array<seq<Page>>
    /** Every access so far. */
    ghost var log: seq<Touched>

    ghost predicate Valid()
      reads this, buffer
    {
      0 < assoc && 0 < buffer.Length
      && forall k :: 0 <= k < buffer.Length ==> SetOk(buffer[k], InSet(setOf, buffer.Length, k, log), assoc)
    }

    constructor (sets: nat, assoc: nat, setOf: nat -> nat)
      requires 0 < sets && 0 < assoc
      ensures Valid() && fresh(buffer) && log == []
      ensures this.assoc == assoc && this.setOf == setOf && buffer.Length == sets
    {
      this.assoc, this.setOf := assoc, setOf;
      buffer := new seq<Page>[sets](_ => []);
      log := [];
      new;
      forall k | 0 <= k < sets ensures SetOk(buffer[k], InSet(setOf, sets, k, log), assoc) {
        assert forall i :: BitsOk(buffer[k], [], assoc, i);
      }
    }

    /** The page hits iff it was accessed before and fewer than assoc distinct pages of its set were since;
        first_access is false iff the offset was accessed in the page's current residency. */
    method LookupAddress(page: nat, offset: nat) returns (hit: bool, firstAccess: bool)
      requires Valid()
      modifies this, buffer
      ensures Valid() && log == old(log) + [Touched(page, offset)]
      ensures var trace := InSet(setOf, buffer.Length, setOf(page) % buffer.Length, old(log));
        && (hit <==> page in PagesOf(trace) && |DistinctSince(PagesOf(trace), page)| < assoc)
        && (firstAccess <==> !TouchedInResidency(trace, assoc, page, offset))
    {
      var k, a := setOf(page) % buffer.Length, Touched(page, offset);
      var d := buffer[k];
      ghost var n, trace, sets := buffer.Length, InSet(setOf, buffer.Length, k, log), buffer[..];
      AccessedOk(d, trace, a, assoc);
      StackDistance(PagesOf(trace), assoc, page);
      var i := FindPage(d, page);
      hit := i < |d|;
      if hit {
        assert BitsOk(d, trace, assoc, i);
        firstAccess := offset !in d[i].touched;
        WithoutIsErase(d, i);
        d := d[..i] + d[i + 1..] + [Page(page, d[i].touched + {offset})];
      } else {
        if TouchedInResidency(trace, assoc, page, offset) {
          TouchedIsResident(trace, assoc, page, offset);
        }
        if |d| >= assoc {
          d := d[1..];
        }
        d := d + [Page(page, {offset})];
        firstAccess := true;
      }
      buffer[k] := d;
      log := log + [a];
      forall j | 0 <= j < n ensures SetOk(buffer[j], InSet(setOf, n, j, log), assoc) {
        assert log[..|log| - 1] == old(log);
        assert j != k ==> buffer[j] == sets[j] && InSet(setOf, n, j, log) == InSet(setOf, n, j, old(log));
      }
    }
  }

  /** find_if over the deque. */
  method FindPage(d: seq<Page>, page: nat) returns (i: nat)
    ensures i == IndexOf(Pages(d), page)
  {
    ghost var pages := Pages(d);
    i := 0;
    while i < |d| && d[i].page != page
      invariant i <= |d| && forall j :: 0 <= j < i ==> pages[j] != page
    {
      i := i + 1;
    }
    FirstIndex(pages, page, i);
  }

  lemma FirstIndex(s: seq<nat>, x: nat, i: nat)
    requires i <= |s| && (i < |s| ==> s[i] == x) && forall j :: 0 <= j < i ==> s[j] != x
    ensures IndexOf(s, x) == i
  {
  }
}
