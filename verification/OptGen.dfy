/** OPTgen (inc/optgen.h): a circular vector of per-quantum occupancy that decides online whether Belady's
    optimal cache would have hit. One set access happens per quantum. */
module HawkeyeOptGen {
  import opened Division
  import opened IntervalPacking

  const UINT32 := 0x1_0000_0000

  /** What the caller does in one quantum: a reuse asks should_cache first; a demand then calls add_access,
      a prefetch add_prefetch. */
  datatype Reuse = FirstUse | Since(last: nat)
  datatype Event = Event(reuse: Reuse, demand: bool)

  datatype State = State(slots: seq<nat>, numCache: nat, numDontCache: nat, access: nat)

  /** Slot j lies on the circular walk last, last+1, ... that stops before curr. */
  predicate OnWalk(j: nat, last: nat, curr: nat) {
    if last <= curr then last <= j < curr else last <= j || j < curr
  }

  predicate WalkBelow(slots: seq<nat>, last: nat, curr: nat, cap: nat) {
    forall j: nat | j < |slots| && OnWalk(j, last, curr) :: slots[j] < cap
  }

  /** Every slot on the walk incremented as an unsigned int. */
  function Bump(slots: seq<nat>, last: nat, curr: nat): seq<nat> {
    seq(|slots|, j requires 0 <= j < |slots| => if OnWalk(j, last, curr) then (slots[j] + 1) % UINT32 else slots[j])
  }

  function ShouldCache(s: State, curr: nat, last: nat, cap: nat): State {
    if WalkBelow(s.slots, last, curr, cap)
    then s.(slots := Bump(s.slots, last, curr), numCache := s.numCache + 1)
    else s.(numDontCache := s.numDontCache + 1)
  }

  function Add(s: State, curr: nat, demand: bool): State
    requires curr < |s.slots|
  {
    s.(slots := s.slots[curr := 0], access := if demand then s.access + 1 else s.access)
  }

  /** The vector, its scans and its counters, exactly as the code updates them. */
  class OptGen {
    const liveness: array<nat>
    const cacheSize: nat
    var numCache: nat
    var numDontCache: nat
    var access: nat

    constructor (size: nat, vectorSize: nat)
      requires 0 < vectorSize <= UINT32
      ensures fresh(liveness) && liveness.Length == vectorSize && cacheSize == size
      ensures Value() == Initial(vectorSize)
    {
      liveness := new nat[vectorSize](_ => 0);
      cacheSize := size;
      numCache, numDontCache, access := 0, 0, 0;
      new;
      assert liveness[..] == Initial(vectorSize).slots;
    }

    ghost function Value(): State
      reads this, liveness
    {
      State(liveness[..], numCache, numDontCache, access)
    }

    method AddAccess(curr: nat)
      requires curr < liveness.Length
      modifies `access, liveness
      ensures Value() == Add(old(Value()), curr, true)
    {
      access := access + 1;
      liveness[curr] := 0;
    }

    method AddPrefetch(curr: nat)
      requires curr < liveness.Length
      modifies liveness
      ensures Value() == Add(old(Value()), curr, false)
    {
      liveness[curr] := 0;
    }

    /** Both scans wrap and stop at curr. */
    method Decide(curr: nat, last: nat) returns (isCache: bool)
      requires curr < liveness.Length && last < liveness.Length
      modifies `numCache, `numDontCache, liveness
      ensures isCache == WalkBelow(old(liveness[..]), last, curr, cacheSize)
      ensures Value() == ShouldCache(old(Value()), curr, last, cacheSize)
    {
      isCache := true;
      var n := liveness.Length;
      var i: nat := last;
      while i != curr
        invariant i < n && (i == curr || OnWalk(i, last, curr))
        invariant isCache && forall j: nat :: j < n && OnWalk(j, last, i) ==> liveness[j] < cacheSize
        decreases if i <= curr then curr - i else n - i + curr
      {
        if liveness[i] >= cacheSize {
          assert !WalkBelow(old(liveness[..]), last, curr, cacheSize) by {
            assert OnWalk(i, last, curr) && old(liveness[..])[i] >= cacheSize;
          }
          isCache := false;
          break;
        }
        i := if i + 1 == n then 0 else i + 1;
      }
      if isCache {
        assert WalkBelow(old(liveness[..]), last, curr, cacheSize);
        i := last;
        while i != curr
          invariant i < n && (i == curr || OnWalk(i, last, curr))
          invariant numCache == old(numCache) && numDontCache == old(numDontCache)
          invariant forall j: nat :: j < n ==>
            liveness[j] == if OnWalk(j, last, i) then (old(liveness[j]) + 1) % UINT32 else old(liveness[j])
          decreases if i <= curr then curr - i else n - i + curr
        {
          liveness[i] := (liveness[i] + 1) % UINT32;
          i := if i + 1 == n then 0 else i + 1;
        }
        assert i == curr;
        numCache := numCache + 1;
        assert liveness[..] == Bump(old(liveness[..]), last, curr);
      } else {
        numDontCache := numDontCache + 1;
        assert liveness[..] == old(liveness[..]);
      }
    }

    method GetNumOptHits() returns (hits: nat)
      ensures hits == Value().numCache
    {
      hits := numCache;
    }
  }

  function Initial(n: nat): State {
    State(seq(n, _ => 0), 0, 0, 0)
  }

  /** Reuse distances the caller lets through (hawkeye.llc_repl tests "> vector size"). */
  ghost predicate InWindow(events: seq<Event>, n: nat) {
    forall c :: 0 <= c < |events| && events[c].reuse.Since? ==> 0 < c - events[c].reuse.last <= n
  }

  function Step(s: State, e: Event, c: nat, cap: nat): (s': State)
    requires 0 < |s.slots|
    ensures |s'.slots| == |s.slots|
  {
    var n := |s.slots|;
    Add(if e.reuse.Since? then ShouldCache(s, c % n, e.reuse.last % n, cap) else s, c % n, e.demand)
  }

  /** The vector after one event per quantum 0, 1, ..., |events|-1. */
  function Run(events: seq<Event>, n: nat, cap: nat): (s: State)
    requires 0 < n
    ensures |s.slots| == n
  {
    if events == [] then Initial(n) else
    var c := |events| - 1;
    Step(Run(events[..c], n, cap), events[c], c, cap)
  }

  /** The interval event e puts to should_cache at quantum c; empty if none, or if it laps the vector. */
  function Asked(e: Event, c: nat, n: nat): Interval {
    if e.reuse.Since? && 0 < c - e.reuse.last < n then Interval(e.reuse.last, c) else Interval(c, c)
  }

  /** The intervals put to should_cache, in order of their ends. */
  function Presented(events: seq<Event>, n: nat): seq<Interval> {
    if events == [] then [] else
    var c := |events| - 1;
    var iv := Asked(events[c], c, n);
    Presented(events[..c], n) + (if iv.lo < c then [iv] else [])
  }

  /** Reuses exactly one vector length old: their walk is empty. */
  function FullLaps(events: seq<Event>, n: nat): nat {
    if events == [] then 0 else
    var c := |events| - 1;
    FullLaps(events[..c], n) + (if events[c].reuse.Since? && c - events[c].reuse.last == n then 1 else 0)
  }

  function Demands(events: seq<Event>): nat {
    if events == [] then 0 else
    Demands(events[..|events| - 1]) + (if events[|events| - 1].demand then 1 else 0)
  }

  lemma {:induction false} PresentedEnds(events: seq<Event>, n: nat)
    ensures EndsOrdered(Presented(events, n))
    ensures forall i :: 0 <= i < |Presented(events, n)| ==> Presented(events, n)[i].hi < |events|
  {
    if events != [] {
      PresentedEnds(events[..|events| - 1], n);
    }
  }

  /** At most one interval ends in each quantum, so the load on quantum t stays below its age: no slot of
      the live window can wrap as an unsigned int. */
  lemma {:induction false} LoadBelowAge(events: seq<Event>, n: nat, choice: seq<bool>, t: nat)
    requires |choice| == |Presented(events, n)|
    ensures Load(Presented(events, n), choice, t) <= if t < |events| then |events| - 1 - t else 0
  {
    if events != [] {
      var c := |events| - 1;
      var before, iv := Presented(events[..c], n), Asked(events[c], c, n);
      LoadBelowAge(events[..c], n, choice[..|before|], t);
      if iv.lo < c {
        assert Presented(events, n) == before + [iv];
        assert (before + [iv])[..|before|] == before;
      } else {
        assert Presented(events, n) == before && choice[..|before|] == choice;
      }
    }
  }

  lemma ModWindow(t: nat, c: nat, n: nat)
    requires 0 < n && t <= c < t + n
    ensures t % n == if c % n >= c - t then c % n - (c - t) else c % n - (c - t) + n
  {
    var q, r := c / n, c % n;
    assert c == q * n + r;
    var d := if r >= c - t then r - (c - t) else r - (c - t) + n;
    var p := if r >= c - t then q else q - 1;
    assert p * n == if r >= c - t then q * n else q * n - n;
    assert t == p * n + d && 0 <= d < n;
    DivUnique(t, p, d, n);
  }

  /** In a window of at most n quanta the circular walk is the interval itself. */
  lemma WalkIsInterval(t: nat, last: nat, c: nat, n: nat)
    requires 0 < n && c < t + n && c < last + n && last <= c && t < c
    ensures OnWalk(t % n, last % n, c % n) <==> last <= t < c
  {
    ModWindow(t, c, n);
    ModWindow(last, c, n);
  }

  /** Every slot on the walk belongs to a quantum of the interval. */
  lemma SlotQuantum(j: nat, last: nat, c: nat, n: nat) returns (t: nat)
    requires j < n && last <= c < last + n && OnWalk(j, last % n, c % n)
    ensures last <= t < c && t % n == j
  {
    ModWindow(last, c, n);
    t := c - (if j < c % n then c % n - j else c % n - j + n);
    ModWindow(t, c, n);
  }

  /** The circular vector in step with the unbounded one. */
  ghost predicate Refines(s: State, events: seq<Event>, n: nat, cap: nat) {
    var ivs := Presented(events, n);
    && |s.slots| == n > 0
    && (forall t: nat {:trigger Load(ivs, Greedy(ivs, cap), t)} ::
          |events| - n <= t < |events| ==> s.slots[t % n] == Load(ivs, Greedy(ivs, cap), t))
    && s.numCache == Kept(Greedy(ivs, cap)) + FullLaps(events, n)
    && s.numCache + s.numDontCache == |ivs| + FullLaps(events, n)
    && s.access == Demands(events)
  }

  /** should_cache on the vector answers what the unbounded greedy rule answers. */
  lemma {:induction false} WalkIsFits(s: State, events: seq<Event>, last: nat, n: nat, cap: nat)
    requires Refines(s, events, n, cap) && |events| - n < last < |events|
    ensures var ivs := Presented(events, n);
      WalkBelow(s.slots, last % n, |events| % n, cap)
      <==> Fits(ivs, Greedy(ivs, cap), Interval(last, |events|), cap)
  {
    var ivs, c := Presented(events, n), |events|;
    if WalkBelow(s.slots, last % n, c % n, cap) {
      forall t: nat | last <= t < c ensures Load(ivs, Greedy(ivs, cap), t) < cap {
        WalkIsInterval(t, last, c, n);
        assert s.slots[t % n] == Load(ivs, Greedy(ivs, cap), t);
      }
    }
    if Fits(ivs, Greedy(ivs, cap), Interval(last, c), cap) {
      forall j: nat | j < n && OnWalk(j, last % n, c % n) ensures s.slots[j] < cap {
        var t := SlotQuantum(j, last, c, n);
        assert s.slots[t % n] == Load(ivs, Greedy(ivs, cap), t);
      }
    }
  }

  lemma LoadGrows(ivs: seq<Interval>, cap: nat, iv: Interval, t: nat)
    ensures var keep := Fits(ivs, Greedy(ivs, cap), iv, cap);
      && Greedy(ivs + [iv], cap) == Greedy(ivs, cap) + [keep]
      && Kept(Greedy(ivs + [iv], cap)) == Kept(Greedy(ivs, cap)) + (if keep then 1 else 0)
      && Load(ivs + [iv], Greedy(ivs + [iv], cap), t)
         == Load(ivs, Greedy(ivs, cap), t) + (if keep && Covers(iv, t) then 1 else 0)
  {
    assert (ivs + [iv])[..|ivs|] == ivs;
    var keep := Fits(ivs, Greedy(ivs, cap), iv, cap);
    assert (Greedy(ivs, cap) + [keep])[..|ivs|] == Greedy(ivs, cap);
  }

  lemma DecidedSlot(s: State, e: Event, c: nat, cap: nat, j: nat)
    requires j < |s.slots| && s.slots[j] + 1 < UINT32 && j != c % |s.slots|
    ensures var n := |s.slots|;
      Step(s, e, c, cap).slots[j] == s.slots[j] + (
        if e.reuse.Since? && WalkBelow(s.slots, e.reuse.last % n, c % n, cap) && OnWalk(j, e.reuse.last % n, c % n)
        then 1 else 0)
  {
    assert (s.slots[j] + 1) % UINT32 == s.slots[j] + 1;
  }

  lemma SlotRefines(s: State, events: seq<Event>, e: Event, n: nat, cap: nat, t: nat)
    requires n <= UINT32 && Refines(s, events, n, cap) && |events| - n < t < |events|
    requires e.reuse.Since? ==> 0 < |events| - e.reuse.last <= n
    ensures var ivs, c := Presented(events, n), |events|;
      var iv := Asked(e, c, n);
      Step(s, e, c, cap).slots[t % n] == Load(ivs, Greedy(ivs, cap), t)
         + (if Fits(ivs, Greedy(ivs, cap), iv, cap) && Covers(iv, t) then 1 else 0)
  {
    var ivs, c := Presented(events, n), |events|;
    var iv := Asked(e, c, n);
    assert s.slots[t % n] == Load(ivs, Greedy(ivs, cap), t) < n - 1 by {
      LoadBelowAge(events, n, Greedy(ivs, cap), t);
    }
    assert t % n != c % n by { ModWindow(t, c, n); }
    DecidedSlot(s, e, c, cap, t % n);
    if iv.lo < c {
      WalkIsFits(s, events, iv.lo, n, cap);
      WalkIsInterval(t, iv.lo, c, n);
    } else if e.reuse.Since? {
      LapIsEmpty(e.reuse.last, c, n);
    }
  }

  lemma LapIsEmpty(last: nat, c: nat, n: nat)
    requires 0 < n && c == last + n
    ensures last % n == c % n
  {
    DivUnique(last, c / n - 1, c % n, n);
  }

  lemma PresentedGrows(events: seq<Event>, e: Event, n: nat)
    ensures var iv := Asked(e, |events|, n);
      Presented(events + [e], n) == if iv.lo < |events| then Presented(events, n) + [iv] else Presented(events, n)
  {
    assert (events + [e])[..|events|] == events;
  }

  /** The slot of the current quantum is reset, and no accepted interval covers that quantum yet. */
  lemma {:induction false} ResetSlot(s: State, events: seq<Event>, e: Event, n: nat, cap: nat)
    requires |s.slots| == n > 0
    ensures var all := Presented(events + [e], n);
      Step(s, e, |events|, cap).slots[|events| % n] == 0 == Load(all, Greedy(all, cap), |events|)
  {
    LoadBelowAge(events + [e], n, Greedy(Presented(events + [e], n), cap), |events|);
  }

  /** Every slot of the new window. */
  lemma {:induction false} StepSlot(s: State, events: seq<Event>, e: Event, n: nat, cap: nat, t: nat)
    requires n <= UINT32 && Refines(s, events, n, cap) && |events| + 1 - n <= t < |events| + 1
    requires e.reuse.Since? ==> 0 < |events| - e.reuse.last <= n
    ensures var all := Presented(events + [e], n);
      Step(s, e, |events|, cap).slots[t % n] == Load(all, Greedy(all, cap), t)
  {
    if t == |events| {
      ResetSlot(s, events, e, n, cap);
    } else {
      var ivs, iv := Presented(events, n), Asked(e, |events|, n);
      SlotRefines(s, events, e, n, cap, t);
      PresentedGrows(events, e, n);
      LoadGrows(ivs, cap, iv, t);
    }
  }

  /** A reuse of a full vector length is let in; any other as the unbounded greedy rule says. */
  lemma Verdict(s: State, events: seq<Event>, last: nat, n: nat, cap: nat)
    requires Refines(s, events, n, cap) && 0 < |events| - last <= n
    ensures var ivs := Presented(events, n);
      WalkBelow(s.slots, last % n, |events| % n, cap)
      <==> |events| - last == n || Fits(ivs, Greedy(ivs, cap), Interval(last, |events|), cap)
  {
    if |events| - last == n {
      LapIsEmpty(last, |events|, n);
    } else {
      WalkIsFits(s, events, last, n, cap);
    }
  }

  /** The counters move with the verdict; the rest of the history is as before. */
  lemma StepCounts(s: State, events: seq<Event>, e: Event, n: nat, cap: nat)
    requires Refines(s, events, n, cap)
    requires e.reuse.Since? ==> 0 < |events| - e.reuse.last <= n
    ensures var all, s', laps := Presented(events + [e], n), Step(s, e, |events|, cap), FullLaps(events + [e], n);
      && s'.numCache == Kept(Greedy(all, cap)) + laps
      && s'.numCache + s'.numDontCache == |all| + laps
      && s'.access == Demands(events + [e])
  {
    var c, ivs := |events|, Presented(events, n);
    assert (events + [e])[..c] == events;
    PresentedGrows(events, e, n);
    if e.reuse.Since? {
      Verdict(s, events, e.reuse.last, n, cap);
      LoadGrows(ivs, cap, Interval(e.reuse.last, c), 0);
    }
  }

  lemma {:induction false} StepRefines(s: State, events: seq<Event>, e: Event, n: nat, cap: nat)
    requires n <= UINT32 && Refines(s, events, n, cap)
    requires e.reuse.Since? ==> 0 < |events| - e.reuse.last <= n
    ensures Refines(Step(s, e, |events|, cap), events + [e], n, cap)
  {
    StepCounts(s, events, e, n, cap);
    var all := Presented(events + [e], n);
    forall t: nat | |events| + 1 - n <= t < |events| + 1
      ensures Step(s, e, |events|, cap).slots[t % n] == Load(all, Greedy(all, cap), t)
    {
      StepSlot(s, events, e, n, cap, t);
    }
  }

  /** Every reachable vector refines the unbounded load function. */
  lemma {:induction false} RunRefines(events: seq<Event>, n: nat, cap: nat)
    requires 0 < n <= UINT32 && InWindow(events, n)
    ensures Refines(Run(events, n, cap), events, n, cap)
  {
    if events != [] {
      var c := |events| - 1;
      assert events[..c] + [events[c]] == events;
      RunRefines(events[..c], n, cap);
      StepRefines(Run(events[..c], n, cap), events[..c], events[c], n, cap);
    }
  }

  /** No live slot ever exceeds the capacity, or comes near wrapping. */
  lemma {:induction false} LiveSlotsBounded(events: seq<Event>, n: nat, cap: nat, t: nat)
    requires 0 < n <= UINT32 && InWindow(events, n) && |events| - n <= t < |events|
    ensures Run(events, n, cap).slots[t % n] <= cap && Run(events, n, cap).slots[t % n] < n
  {
    var ivs := Presented(events, n);
    RunRefines(events, n, cap);
    GreedyFeasible(ivs, cap);
    LoadBelowAge(events, n, Greedy(ivs, cap), t);
    assert Run(events, n, cap).slots[t % n] == Load(ivs, Greedy(ivs, cap), t);
  }

  /** num_cache is the largest number of presented intervals that can be kept with no quantum covered by more
      than CACHE_SIZE of them, plus the reuses exactly one vector length old. */
  lemma {:induction false} NumCacheIsOptimal(events: seq<Event>, n: nat, cap: nat)
    requires 0 < n <= UINT32 && InWindow(events, n)
    ensures Run(events, n, cap).numCache >= FullLaps(events, n)
    ensures IsOptimum(Presented(events, n), cap, Run(events, n, cap).numCache - FullLaps(events, n))
  {
    RunRefines(events, n, cap);
    PresentedEnds(events, n);
    GreedyIsOptimal(Presented(events, n), cap);
  }

  /** Every reuse interval the caller lets through, full laps included. */
  function Reused(events: seq<Event>): seq<Interval> {
    if events == [] then [] else
    var c := |events| - 1;
    Reused(events[..c]) + (if events[c].reuse.Since? then [Interval(events[c].reuse.last, c)] else [])
  }

  lemma {:induction false} ReusedArePresented(events: seq<Event>, n: nat)
    requires InWindow(events, n)
    ensures forall i :: 0 <= i < |Reused(events)| ==> Reused(events)[i].lo < Reused(events)[i].hi
    ensures FullLaps(events, n) == 0 ==> Reused(events) == Presented(events, n)
  {
    if events != [] {
      ReusedArePresented(events[..|events| - 1], n);
    }
  }

  lemma {:induction false} NoFullLaps(events: seq<Event>, n: nat)
    requires InWindow(events, n)
    ensures InWindow(events, n + 1) && FullLaps(events, n + 1) == 0
  {
    if events != [] {
      NoFullLaps(events[..|events| - 1], n);
    }
  }

  /** On a vector one slot longer the same run counts Belady's optimum over all its reuses. */
  lemma SlotMoreIsOptimal(events: seq<Event>, n: nat, cap: nat)
    requires 0 < n < UINT32 && InWindow(events, n)
    ensures IsOptimum(Reused(events), cap, Run(events, n + 1, cap).numCache)
  {
    NoFullLaps(events, n);
    ReusedArePresented(events, n + 1);
    NumCacheIsOptimal(events, n + 1, cap);
  }

  /** The caller's window test lets a reuse of age exactly n through, whose walk is empty. At any one capacity the
      count is still Belady's optimum exactly if one slot more would not change it. */
  lemma OptimalIffSlotMoreAgrees(events: seq<Event>, n: nat, cap: nat)
    requires 0 < n < UINT32 && InWindow(events, n)
    ensures IsOptimum(Reused(events), cap, Run(events, n, cap).numCache)
            <==> Run(events, n, cap).numCache == Run(events, n + 1, cap).numCache
  {
    SlotMoreIsOptimal(events, n, cap);
    if IsOptimum(Reused(events), cap, Run(events, n, cap).numCache) {
      OptimumIsUnique(Reused(events), cap, Run(events, n, cap).numCache, Run(events, n + 1, cap).numCache);
    }
  }

  predicate Laps(e: Event, c: nat, n: nat) {
    e.reuse.Since? && c - e.reuse.last == n
  }

  /** The same event seen by the presented intervals, by all reuses and by the full laps. */
  lemma HistoryGrows(before: seq<Event>, e: Event, n: nat)
    requires e.reuse.Since? ==> 0 < |before| - e.reuse.last <= n
    ensures var c, events := |before|, before + [e];
      && Reused(events) == (if e.reuse.Since? then Reused(before) + [Interval(e.reuse.last, c)] else Reused(before))
      && Presented(events, n) == (if e.reuse.Since? && !Laps(e, c, n)
                                  then Presented(before, n) + [Interval(e.reuse.last, c)] else Presented(before, n))
      && FullLaps(events, n) == FullLaps(before, n) + (if Laps(e, c, n) then 1 else 0)
  {
    assert (before + [e])[..|before|] == before;
    PresentedGrows(before, e, n);
  }

  /** A choice among all reuses and one among the presented ones, which loads no quantum more and keeps at least as
      many, full laps apart. */
  ghost predicate Lighter(events: seq<Event>, n: nat, sub: seq<bool>, choice: seq<bool>) {
    && |sub| == |Presented(events, n)| && |choice| == |Reused(events)|
    && Kept(choice) <= Kept(sub) + FullLaps(events, n)
    && forall t: nat :: Load(Presented(events, n), sub, t) <= Load(Reused(events), choice, t)
  }

  /** The other way round, with the same load and as many kept. */
  ghost predicate Alike(events: seq<Event>, n: nat, sub: seq<bool>, choice: seq<bool>) {
    && |sub| == |Presented(events, n)| && |choice| == |Reused(events)| && Kept(choice) == Kept(sub)
    && forall t: nat :: Load(Reused(events), choice, t) == Load(Presented(events, n), sub, t)
  }

  /** What one reuse adds to both loads of quantum t and to both counts. */
  lemma LoadsStep(before: seq<Event>, e: Event, n: nat, sub: seq<bool>, choice: seq<bool>, keep: bool, t: nat)
    requires e.reuse.Since? && 0 < |before| - e.reuse.last <= n
    requires |sub| == |Presented(before, n)| && |choice| == |Reused(before)|
    ensures var laps := Laps(e, |before|, n);
      var sub' := if laps then sub else sub + [keep];
      var more := if keep && Covers(Interval(e.reuse.last, |before|), t) then 1 else 0;
      && |sub'| == |Presented(before + [e], n)| && |choice| + 1 == |Reused(before + [e])|
      && FullLaps(before + [e], n) == FullLaps(before, n) + (if laps then 1 else 0)
      && Load(Reused(before + [e]), choice + [keep], t) == Load(Reused(before), choice, t) + more
      && Load(Presented(before + [e], n), sub', t) ==
         Load(Presented(before, n), sub, t) + (if laps then 0 else more)
      && Kept(choice + [keep]) == Kept(choice) + (if keep then 1 else 0)
      && Kept(sub') == Kept(sub) + (if keep && !laps then 1 else 0)
  {
    HistoryGrows(before, e, n);
    var iv := Interval(e.reuse.last, |before|);
    LoadAppend(Reused(before), choice, iv, keep, t);
    LoadAppend(Presented(before, n), sub, iv, keep, t);
  }

  lemma LighterStep(before: seq<Event>, e: Event, n: nat, sub: seq<bool>, choice: seq<bool>, keep: bool)
    requires Lighter(before, n, sub, choice) && e.reuse.Since? && 0 < |before| - e.reuse.last <= n
    ensures Lighter(before + [e], n, if Laps(e, |before|, n) then sub else sub + [keep], choice + [keep])
  {
    var sub' := if Laps(e, |before|, n) then sub else sub + [keep];
    LoadsStep(before, e, n, sub, choice, keep, 0);
    forall t: nat ensures
        Load(Presented(before + [e], n), sub', t) <= Load(Reused(before + [e]), choice + [keep], t) {
      LoadsStep(before, e, n, sub, choice, keep, t);
      assert Load(Presented(before, n), sub, t) <= Load(Reused(before), choice, t);
    }
  }

  lemma AlikeStep(before: seq<Event>, e: Event, n: nat, sub: seq<bool>, choice: seq<bool>, keep: bool)
    requires Alike(before, n, sub, choice) && e.reuse.Since? && 0 < |before| - e.reuse.last <= n
    requires Laps(e, |before|, n) ==> !keep
    ensures Alike(before + [e], n, if Laps(e, |before|, n) then sub else sub + [keep], choice + [keep])
  {
    var sub' := if Laps(e, |before|, n) then sub else sub + [keep];
    LoadsStep(before, e, n, sub, choice, keep, 0);
    forall t: nat ensures
        Load(Reused(before + [e]), choice + [keep], t) == Load(Presented(before + [e], n), sub', t) {
      LoadsStep(before, e, n, sub, choice, keep, t);
      assert Load(Reused(before), choice, t) == Load(Presented(before, n), sub, t);
    }
  }

  /** An event that asks for nothing changes neither. */
  lemma SilentStep(before: seq<Event>, e: Event, n: nat, sub: seq<bool>, choice: seq<bool>)
    requires e.reuse.FirstUse?
    ensures Lighter(before + [e], n, sub, choice) == Lighter(before, n, sub, choice)
    ensures Alike(before + [e], n, sub, choice) == Alike(before, n, sub, choice)
    ensures |Presented(before + [e], n)| == |Presented(before, n)| && |Reused(before + [e])| == |Reused(before)|
  {
    HistoryGrows(before, e, n);
  }

  lemma Sizes(before: seq<Event>, e: Event, n: nat)
    requires e.reuse.Since? && 0 < |before| - e.reuse.last <= n
    ensures |Reused(before + [e])| == |Reused(before)| + 1
    ensures |Presented(before + [e], n)| == |Presented(before, n)| + (if Laps(e, |before|, n) then 0 else 1)
  {
    HistoryGrows(before, e, n);
  }

  /** Every choice among all reuses has a lighter one among the presented. */
  lemma {:induction false} Restrict(events: seq<Event>, n: nat, choice: seq<bool>) returns (sub: seq<bool>)
    requires InWindow(events, n) && |choice| == |Reused(events)|
    ensures Lighter(events, n, sub, choice)
  {
    if events == [] {
      return [];
    }
    var c := |events| - 1;
    var before, e := events[..c], events[c];
    assert events == before + [e];
    if e.reuse.FirstUse? {
      SilentStep(before, e, n, [], choice);
      sub := Restrict(before, n, choice);
      SilentStep(before, e, n, sub, choice);
    } else {
      Sizes(before, e, n);
      var k := |choice| - 1;
      var s := Restrict(before, n, choice[..k]);
      LighterStep(before, e, n, s, choice[..k], choice[k]);
      assert choice == choice[..k] + [choice[k]];
      sub := if Laps(e, c, n) then s else s + [choice[k]];
    }
  }

  /** Every choice among the presented reuses is one among all. */
  lemma {:induction false} Extend(events: seq<Event>, n: nat, sub: seq<bool>) returns (choice: seq<bool>)
    requires InWindow(events, n) && |sub| == |Presented(events, n)|
    ensures Alike(events, n, sub, choice)
  {
    if events == [] {
      return [];
    }
    var c := |events| - 1;
    var before, e := events[..c], events[c];
    assert events == before + [e];
    if e.reuse.FirstUse? {
      SilentStep(before, e, n, sub, []);
      choice := Extend(before, n, sub);
      SilentStep(before, e, n, sub, choice);
    } else if Laps(e, c, n) {
      Sizes(before, e, n);
      var s := Extend(before, n, sub);
      AlikeStep(before, e, n, sub, s, false);
      choice := s + [false];
    } else {
      Sizes(before, e, n);
      var k := |sub| - 1;
      var s := Extend(before, n, sub[..k]);
      AlikeStep(before, e, n, sub[..k], s, sub[k]);
      assert sub == sub[..k] + [sub[k]];
      choice := s + [sub[k]];
    }
  }

  /** The count is never below the optimum over all reuses, and above it by at most the number of full laps. */
  lemma CountNearOptimum(events: seq<Event>, n: nat, cap: nat, opt: nat)
    requires 0 < n <= UINT32 && InWindow(events, n) && IsOptimum(Reused(events), cap, opt)
    ensures opt <= Run(events, n, cap).numCache <= opt + FullLaps(events, n)
  {
    NumCacheIsOptimal(events, n, cap);
    var p := Run(events, n, cap).numCache - FullLaps(events, n);
    var best :| Feasible(Reused(events), best, cap) && Kept(best) == opt;
    var sub := Restrict(events, n, best);
    forall t: nat ensures Load(Presented(events, n), sub, t) <= cap {
      assert Load(Presented(events, n), sub, t) <= Load(Reused(events), best, t);
    }
    assert Feasible(Presented(events, n), sub, cap);
    var most :| Feasible(Presented(events, n), most, cap) && Kept(most) == p;
    var choice := Extend(events, n, most);
    forall t: nat ensures Load(Reused(events), choice, t) <= cap {
      assert Load(Reused(events), choice, t) == Load(Presented(events, n), most, t);
    }
    assert Feasible(Reused(events), choice, cap);
  }

  /** First uses, cap reuses that all need quantum cap, and one reuse of quantum 0 a full vector length later. */
  function HostileEvent(cap: nat, n: nat, c: nat): Event {
    Event(if cap < c <= 2 * cap then Since(c - cap) else if c == n then Since(0) else FirstUse, true)
  }

  function Hostile(cap: nat, n: nat, k: nat): (events: seq<Event>)
    ensures |events| == k
  {
    if k == 0 then [] else Hostile(cap, n, k - 1) + [HostileEvent(cap, n, k - 1)]
  }

  lemma WindowGrows(before: seq<Event>, e: Event, n: nat)
    requires InWindow(before, n) && (e.reuse.Since? ==> 0 < |before| - e.reuse.last <= n)
    ensures InWindow(before + [e], n)
  {
  }

  /** m intervals of length cap, all covering quantum cap as long as m is at most cap. */
  function Crowd(cap: nat, m: nat): (ivs: seq<Interval>)
    ensures |ivs| == m
  {
    if m == 0 then [] else Crowd(cap, m - 1) + [Interval(m, cap + m)]
  }

  lemma {:induction false} CrowdMeets(cap: nat, m: nat)
    requires m <= cap
    ensures forall i :: 0 <= i < m ==> Covers(Crowd(cap, m)[i], cap)
  {
    if m > 0 {
      CrowdMeets(cap, m - 1);
    }
  }

  /** How many of the crowd ask before call k. */
  function Asking(cap: nat, k: nat): nat {
    if k <= cap then 0 else if k <= 2 * cap then k - cap - 1 else cap
  }

  /** events has asked for nothing but the crowd so far. */
  ghost predicate Crowded(events: seq<Event>, cap: nat, n: nat) {
    && InWindow(events, n) && FullLaps(events, n) == 0
    && Presented(events, n) == Reused(events) == Crowd(cap, Asking(cap, |events|))
  }

  lemma {:induction false} CrowdedStep(before: seq<Event>, cap: nat, n: nat)
    requires 0 < cap && 2 * cap < n && |before| < n && Crowded(before, cap, n)
    ensures Crowded(before + [HostileEvent(cap, n, |before|)], cap, n)
  {
    var e := HostileEvent(cap, n, |before|);
    HistoryGrows(before, e, n);
    WindowGrows(before, e, n);
    if e.reuse.Since? {
      assert Asking(cap, |before| + 1) == Asking(cap, |before|) + 1 == |before| - cap;
    }
  }

  lemma {:induction false} HostilePrefix(cap: nat, n: nat, k: nat)
    requires 0 < cap && 2 * cap < n && k <= n
    ensures Crowded(Hostile(cap, n, k), cap, n)
  {
    if k > 0 {
      HostilePrefix(cap, n, k - 1);
      CrowdedStep(Hostile(cap, n, k - 1), cap, n);
    }
  }

  /** Intervals that all meet in one quantum: no optimum exceeds the capacity. */
  lemma OptimumOfCommon(ivs: seq<Interval>, cap: nat, opt: nat, t: nat)
    requires IsOptimum(ivs, cap, opt) && forall i :: 0 <= i < |ivs| ==> Covers(ivs[i], t)
    ensures opt <= cap
  {
    var best :| Feasible(ivs, best, cap) && Kept(best) == opt;
    assert Load(ivs, best, t) <= cap;
    LoadOfCommon(ivs, best, t);
  }

  /** cap presented intervals and one full lap, all needing quantum cap. */
  lemma {:induction false} LapOvercounts(events: seq<Event>, n: nat, cap: nat)
    requires 0 < n < UINT32 && InWindow(events, n) && FullLaps(events, n) == 1 && |Presented(events, n)| == cap
    requires forall i :: 0 <= i < |Reused(events)| ==> Covers(Reused(events)[i], cap)
    ensures IsOptimum(Reused(events), cap, cap) && Run(events, n, cap).numCache == cap + 1
  {
    NumCacheIsOptimal(events, n, cap);
    FewIntervals(Presented(events, n), cap);
    OptimumIsUnique(Presented(events, n), cap, cap, Run(events, n, cap).numCache - 1);
    var opt := Run(events, n + 1, cap).numCache;
    SlotMoreIsOptimal(events, n, cap);
    CountNearOptimum(events, n, cap, opt);
    OptimumOfCommon(Reused(events), cap, opt, cap);
  }

  lemma {:induction false} HostileLap(before: seq<Event>, cap: nat, n: nat)
    requires 0 < cap && 2 * cap < n == |before| && Crowded(before, cap, n)
    ensures var events := before + [HostileEvent(cap, n, n)];
      && InWindow(events, n) && FullLaps(events, n) == 1 && |Presented(events, n)| == cap
      && forall i :: 0 <= i < |Reused(events)| ==> Covers(Reused(events)[i], cap)
  {
    HistoryGrows(before, HostileEvent(cap, n, n), n);
    WindowGrows(before, HostileEvent(cap, n, n), n);
    CrowdMeets(cap, cap);
  }

  /** For every capacity and every vector more than twice as long, a run whose count is one above the optimum. */
  lemma {:induction false} FullLapOvercounts(cap: nat, n: nat)
    requires 0 < cap && 2 * cap < n < UINT32
    ensures var events := Hostile(cap, n, n + 1);
      InWindow(events, n) && IsOptimum(Reused(events), cap, cap) && Run(events, n, cap).numCache == cap + 1
  {
    HostilePrefix(cap, n, n);
    HostileLap(Hostile(cap, n, n), cap, n);
    LapOvercounts(Hostile(cap, n, n + 1), n, cap);
  }

  /** Over all cache sizes together: the count is the optimum at every one of them iff there is no full lap. */
  lemma {:induction false} OptimalEverywhereIffNoFullLap(events: seq<Event>, n: nat)
    requires 0 < n <= UINT32 && InWindow(events, n)
    ensures (forall cap: nat :: IsOptimum(Reused(events), cap, Run(events, n, cap).numCache))
            <==> FullLaps(events, n) == 0
  {
    ReusedArePresented(events, n);
    if FullLaps(events, n) == 0 {
      forall cap: nat ensures IsOptimum(Reused(events), cap, Run(events, n, cap).numCache) {
        NumCacheIsOptimal(events, n, cap);
      }
    } else {
      NumCacheIsOptimal(events, n, 0);
      var zero: nat := 0;
      if IsOptimum(Reused(events), zero, Run(events, n, zero).numCache) {
        var choice :| Feasible(Reused(events), choice, 0) && Kept(choice) == Run(events, n, 0).numCache;
        NothingFits(Reused(events), choice);
      }
      assert !IsOptimum(Reused(events), zero, Run(events, n, zero).numCache);
    }
  }

  /** The caller's loop over a set's accesses. */
  method Replay(events: seq<Event>, n: nat, cap: nat) returns (hits: nat)
    requires 0 < n <= UINT32 && InWindow(events, n)
    ensures hits >= FullLaps(events, n) && IsOptimum(Presented(events, n), cap, hits - FullLaps(events, n))
  {
    var gen := new OptGen(cap, n);
    var c := 0;
    while c < |events|
      invariant c <= |events|
      invariant fresh(gen) && fresh(gen.liveness) && gen.liveness.Length == n && gen.cacheSize == cap
      invariant gen.Value() == Run(events[..c], n, cap)
    {
      assert events[..c + 1][..c] == events[..c];
      if events[c].reuse.Since? {
        var _ := gen.Decide(c % n, events[c].reuse.last % n);
      }
      if events[c].demand {
        gen.AddAccess(c % n);
      } else {
        gen.AddPrefetch(c % n);
      }
      c := c + 1;
    }
    assert events[..c] == events;
    hits := gen.GetNumOptHits();
    NumCacheIsOptimal(events, n, cap);
  }
}
