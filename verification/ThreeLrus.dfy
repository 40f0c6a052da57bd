/** The repository's three LRU implementations, driven side by side on one set of K ways. */
module ThreeLrus {
  import opened Recency
  import RankLru
  import TimestampLru
  import PageBuffer

  datatype Outcome = Hit | Fill | Evict(victim: nat)

  /** What an LRU list of capacity cap does with x. */
  function Decide(list: seq<nat>, cap: nat, x: nat): Outcome {
    if x in list then Hit else if |list| < cap || list == [] then Fill else Evict(list[0])
  }

  function Policy(trace: seq<nat>, cap: nat): (out: seq<Outcome>)
    requires 0 < cap
    ensures |out| == |trace|
  {
    if trace == [] then [] else
    var before := trace[..|trace| - 1];
    Policy(before, cap) + [Decide(Contents(before, cap), cap, trace[|trace| - 1])]
  }

  lemma PolicyStep(before: seq<nat>, cap: nat, x: nat)
    requires 0 < cap
    ensures Policy(before + [x], cap) == Policy(before, cap) + [Decide(Contents(before, cap), cap, x)]
  {
    assert (before + [x])[..|before|] == before;
  }

  lemma PrefixStep(trace: seq<nat>, i: nat)
    requires i < |trace|
    ensures trace[..i + 1] == trace[..i] + [trace[i]]
  {
  }

  lemma PrefixAll(trace: seq<nat>)
    ensures trace[..|trace|] == trace
  {
  }

  lemma {:induction false} PolicyAt(trace: seq<nat>, cap: nat, i: nat)
    requires 0 < cap && i < |trace|
    ensures Policy(trace, cap)[i] == Decide(Contents(trace[..i], cap), cap, trace[i])
  {
    if i < |trace| - 1 {
      var before := trace[..|trace| - 1];
      PolicyAt(before, cap, i);
      assert before[..i] == trace[..i];
    }
  }

  /** One touch of a set that has answered `out` to the keys `before`. */
  method RankStep(s: RankLru.RankSet, x: nat, ghost before: seq<nat>, out: seq<Outcome>) returns (out': seq<Outcome>)
    requires s.Valid() && s.recent == Contents(before, s.valid.Length) && out == Policy(before, s.valid.Length)
    modifies s, s.valid, s.key, s.lru
    ensures s.Valid() && s.recent == Contents(before + [x], s.valid.Length)
    ensures out' == Policy(before + [x], s.valid.Length)
  {
    PolicyStep(before, s.valid.Length, x);
    ContentsStep(before, s.valid.Length, x);
    ContentsDistinct(before, s.valid.Length);
    var a := s.Touch(x);
    out' := out + [if a.Hit? then Hit else if a.Filled? then Fill else Evict(a.victim)];
  }

  /** Rank counters: hits, fills and evictions of the LRU list. */
  method RunRanks(trace: seq<nat>, ways: nat) returns (out: seq<Outcome>)
    requires 0 < ways
    ensures out == Policy(trace, ways)
  {
    var s := new RankLru.RankSet(ways);
    ghost var before: seq<nat> := [];
    out := [];
    for i := 0 to |trace|
      invariant fresh(s) && fresh(s.valid) && fresh(s.key) && fresh(s.lru) && s.Valid() && s.valid.Length == ways
      invariant before == trace[..i] && s.recent == Contents(before, ways) && out == Policy(before, ways)
    {
      out := RankStep(s, trace[i], before, out);
      PrefixStep(trace, i);
      before := before + [trace[i]];
    }
    PrefixAll(trace);
  }

  /** One touch of a cache of a single set. */
  method StampStep(s: TimestampLru.LruSetAssociativeCache<int>, x: nat, ghost before: seq<nat>, out: seq<Outcome>)
    returns (out': seq<Outcome>)
    requires s.Valid() && s.lru.Length == 1 && s.recent == [Contents(before, s.cache.numWays)]
    requires out == Policy(before, s.cache.numWays)
    modifies s, s.lru, s.cache, s.cache.entries, s.cache.cams
    ensures s.Valid() && s.recent == [Contents(before + [x], s.cache.numWays)]
    ensures out' == Policy(before + [x], s.cache.numWays)
  {
    PolicyStep(before, s.cache.numWays, x);
    ContentsStep(before, s.cache.numWays, x);
    ContentsDistinct(before, s.cache.numWays);
    assert x % 1 == 0;
    var found := s.cache.Find(x);
    var e := s.Touch(x, 0);
    out' := out + [if found != -1 then Hit else if !e.valid then Fill else Evict(e.key)];
  }

  /** Timestamps, stamped after each insert and hit. */
  method RunStamps(trace: seq<nat>, ways: nat) returns (out: seq<Outcome>)
    requires 0 < ways
    ensures out == Policy(trace, ways)
  {
    assert ways % ways == 0 && ways / ways == 1;
    var s := new TimestampLru.LruSetAssociativeCache(ways, ways, 0);
    ghost var before: seq<nat> := [];
    out := [];
    for i := 0 to |trace|
      invariant fresh(s) && fresh(s.cache) && fresh(s.cache.entries) && fresh(s.cache.cams) && fresh(s.lru)
      invariant s.Valid() && s.cache.numWays == ways && s.lru.Length == 1
      invariant before == trace[..i] && s.recent == [Contents(before, ways)] && out == Policy(before, ways)
    {
      out := StampStep(s, trace[i], before, out);
      PrefixStep(trace, i);
      before := before + [trace[i]];
    }
    PrefixAll(trace);
  }

  lemma OneSet(setOf: nat -> nat, log: seq<PageBuffer.Touched>, a: PageBuffer.Touched)
    ensures PageBuffer.PagesOf(PageBuffer.InSet(setOf, 1, 0, log + [a]))
         == PageBuffer.PagesOf(PageBuffer.InSet(setOf, 1, 0, log)) + [a.page]
  {
    assert (log + [a])[..|log|] == log;
    assert PageBuffer.InSet(setOf, 1, 0, log + [a]) == PageBuffer.InSet(setOf, 1, 0, log) + [a];
  }

  /** What a deque that holds the contents does with the next page. */
  lemma DequeDecides(d: seq<PageBuffer.Page>, before: seq<nat>, ways: nat, page: nat)
    requires 0 < ways && PageBuffer.Pages(d) == Contents(before, ways)
    ensures Decide(Contents(before, ways), ways, page) ==
      if page in before && |DistinctSince(before, page)| < ways then Hit
      else if |d| < ways || d == [] then Fill
      else Evict(d[0].page)
  {
    StackDistance(before, ways, page);
    assert |d| == |PageBuffer.Pages(d)|;
    assert d != [] ==> PageBuffer.Pages(d)[0] == d[0].page;
  }

  /** One access to a page buffer of a single set whose accesses so far were to the pages `before`. */
  method DequeStep(s: PageBuffer.PageBuffer, page: nat, ghost before: seq<nat>, out: seq<Outcome>)
    returns (out': seq<Outcome>)
    requires s.Valid() && s.buffer.Length == 1 && out == Policy(before, s.assoc)
    requires PageBuffer.PagesOf(PageBuffer.InSet(s.setOf, 1, 0, s.log)) == before
    modifies s, s.buffer
    ensures s.Valid() && out' == Policy(before + [page], s.assoc)
    ensures PageBuffer.PagesOf(PageBuffer.InSet(s.setOf, 1, 0, s.log)) == before + [page]
  {
    PolicyStep(before, s.assoc, page);
    OneSet(s.setOf, s.log, PageBuffer.Touched(page, 0));
    var d := s.buffer[0];
    assert PageBuffer.SetOk(d, PageBuffer.InSet(s.setOf, 1, 0, s.log), s.assoc);
    DequeDecides(d, before, s.assoc, page);
    var hit, _ := s.LookupAddress(page, 0);
    out' := out + [if hit then Hit else if |d| < s.assoc || d == [] then Fill else Evict(d[0].page)];
  }

  /** The deque. */
  method RunDeque(trace: seq<nat>, ways: nat) returns (out: seq<Outcome>)
    requires 0 < ways
    ensures out == Policy(trace, ways)
  {
    var s := new PageBuffer.PageBuffer(1, ways, _ => 0);
    ghost var before: seq<nat> := [];
    out := [];
    for i := 0 to |trace|
      invariant fresh(s) && fresh(s.buffer) && s.Valid() && s.assoc == ways && s.buffer.Length == 1
      invariant PageBuffer.PagesOf(PageBuffer.InSet(s.setOf, 1, 0, s.log)) == before
      invariant before == trace[..i] && out == Policy(before, ways)
    {
      out := DequeStep(s, trace[i], before, out);
      PrefixStep(trace, i);
      before := before + [trace[i]];
    }
    PrefixAll(trace);
  }

  /** One policy: on every touch sequence the three hit, fill and evict alike. */
  method RunAll(trace: seq<nat>, ways: nat) returns (ranks: seq<Outcome>, stamps: seq<Outcome>, deque: seq<Outcome>)
    requires 0 < ways
    ensures ranks == stamps == deque && |ranks| == |trace|
    ensures forall i :: 0 <= i < |trace| ==>
      (ranks[i] == Hit <==> trace[i] in trace[..i] && |DistinctSince(trace[..i], trace[i])| < ways)
  {
    ranks := RunRanks(trace, ways);
    stamps := RunStamps(trace, ways);
    deque := RunDeque(trace, ways);
    forall i | 0 <= i < |trace|
      ensures ranks[i] == Hit <==> trace[i] in trace[..i] && |DistinctSince(trace[..i], trace[i])| < ways
    {
      PolicyAt(trace, ways, i);
      StackDistance(trace[..i], ways, trace[i]);
    }
  }
}
