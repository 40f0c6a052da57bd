/** What every operation of the DRAM controller keeps. */
module DramInvariant {
  import opened FirstMinimum
  import opened Sequences
  import opened DramModel

  predicate IsScheduled(p: Packet) { p.scheduled }
  predicate IsOccupied(p: Packet) { p.address != 0 }

  lemma KeysSame(entry: seq<Packet>, i: nat, x: Packet, key: Packet -> nat)
    requires i < |entry| && key(x) == key(entry[i])
    ensures Keys(entry[i := x], key) == Keys(entry, key)
  {
  }

  /** A saved cycle below NEVER belongs to an eligible entry. */
  lemma SavedAt(cycle: nat, index: nat, entry: seq<Packet>, key: Packet -> nat)
    requires Saved(cycle, index, Keys(entry, key)) && cycle < NEVER
    ensures index < |entry| && key(entry[index]) == cycle
  {
    FirstMinIsFirst(Keys(entry, key));
    assert Keys(entry, key)[index] == key(entry[index]);
  }

  /** A scheduled entry holds the bank its address maps to, open at its row. */
  ghost predicate EntryOk(s: State, w: bool, i: nat)
    requires Shaped(s) && i < SIZE
  {
    var p := Q(s, w).entry[i];
    p.scheduled ==>
      var b := s.banks[BankOf(p.address)];
      && p.address != 0 && b.working && b.requestIndex == i
      && b.isWrite == w && b.isRead == !w && b.openRow == RowOf(p.address)
  }

  /** A working bank serves a scheduled entry that maps to it; an idle bank serves none. */
  ghost predicate BankOk(s: State, b: nat)
    requires Shaped(s) && b < BANKS
  {
    var k := s.banks[b];
    if k.working then
      && k.isRead == !k.isWrite && 0 <= k.requestIndex < SIZE
      && var p := Q(s, k.isWrite).entry[k.requestIndex]; p.scheduled && BankOf(p.address) == b
    else !k.isWrite && !k.isRead && k.requestIndex == -1
  }

  /** A queued request has a finite event cycle; a queued read is an LLC miss or a DDRP prefetch. */
  ghost predicate RequestOk(q: Queue, w: bool, i: int) {
    0 <= i < |q.entry| && q.entry[i].address != 0 ==>
      && q.entry[i].eventCycle < NEVER
      && (w || q.entry[i].fillLevel <= FILL_LLC || (q.entry[i].fillLevel == FILL_DDRP && q.entry[i].kind.Prefetch?))
  }

  ghost predicate Differ(q: Queue, i: int, j: int) {
    0 <= i < j < |q.entry| && q.entry[i].address != 0 ==> q.entry[i].address != q.entry[j].address
  }

  /** Requests in a queue are sound and have distinct addresses, and the occupancy counts them. */
  ghost predicate RequestsOk(q: Queue, w: bool) {
    && (forall i :: RequestOk(q, w, i)) && (forall i, j :: Differ(q, i, j))
    && q.occupancy == Count(q.entry, IsOccupied)
  }

  /** Rewriting one entry keeps a queue sound if the entry is, and its address is its old one, none, or new. */
  lemma RequestsUpdate(q: Queue, t: Queue, w: bool, i: nat, x: Packet)
    requires RequestsOk(q, w) && i < |q.entry| && t.entry == q.entry[i := x]
    requires RequestOk(t, w, i)
    requires x.address == 0 || x.address == q.entry[i].address
             || forall j :: 0 <= j < |q.entry| ==> q.entry[j].address != x.address
    requires t.occupancy + (if q.entry[i].address != 0 then 1 else 0) == q.occupancy + (if x.address != 0 then 1 else 0)
    ensures RequestsOk(t, w)
  {
    forall j ensures RequestOk(t, w, j) {
      assert RequestOk(q, w, j);
    }
    forall j, k ensures Differ(t, j, k) {
      assert Differ(q, j, k);
    }
    CountUpdate(q.entry, i, x, IsOccupied);
  }

  lemma RequestsSame(q: Queue, t: Queue, w: bool)
    requires RequestsOk(q, w) && t.entry == q.entry && t.occupancy == q.occupancy
    ensures RequestsOk(t, w)
  {
    forall j ensures RequestOk(t, w, j) {
      assert RequestOk(q, w, j);
    }
    forall j, k ensures Differ(t, j, k) {
      assert Differ(q, j, k);
    }
  }

  /** Scheduled entries and working banks correspond one to one, and the counters count. */
  ghost predicate Matched(s: State) {
    && Shaped(s)
    && (forall w, i: nat :: i < SIZE ==> EntryOk(s, w, i))
    && (forall b: nat :: b < BANKS ==> BankOk(s, b))
    && RequestsOk(s.rq, false) && RequestsOk(s.wq, true)
    && s.scheduledReads == Count(s.rq.entry, IsScheduled)
    && s.scheduledWrites == Count(s.wq.entry, IsScheduled)
  }

  ghost predicate NoneScheduled(q: Queue) {
    forall i :: 0 <= i < |q.entry| ==> !q.entry[i].scheduled
  }

  ghost predicate MinimaOk(q: Queue) {
    && Saved(q.nextScheduleCycle, q.nextScheduleIndex, Keys(q.entry, ScheduleKey))
    && Saved(q.nextProcessCycle, q.nextProcessIndex, Keys(q.entry, ProcessKey))
  }

  ghost predicate Merges(cfg: Config, q: Queue, i: int) {
    0 <= i < |q.entry| && q.entry[i].address != 0 && !cfg.enableDdrp ==> q.entry[i].fillLevel <= FILL_LLC
  }

  /** With DDRP off the read queue holds LLC misses only, so nothing can merge in it. */
  ghost predicate MergesOk(cfg: Config, q: Queue) {
    forall i :: Merges(cfg, q, i)
  }

  lemma MergesUpdate(cfg: Config, q: Queue, t: Queue, i: nat, x: Packet)
    requires MergesOk(cfg, q) && i < |q.entry| && t.entry == q.entry[i := x]
    requires x.address == 0 || x.fillLevel <= FILL_LLC || cfg.enableDdrp ||
             (x.address == q.entry[i].address && x.fillLevel == q.entry[i].fillLevel)
    ensures MergesOk(cfg, t)
  {
    forall j ensures Merges(cfg, t, j) {
      assert Merges(cfg, q, j) && Merges(cfg, q, i);
    }
  }

  lemma MergesSame(cfg: Config, q: Queue, t: Queue)
    requires MergesOk(cfg, q) && t.entry == q.entry
    ensures MergesOk(cfg, t)
  {
    forall j ensures Merges(cfg, t, j) {
      assert Merges(cfg, q, j);
    }
  }

  /** No request finds another to merge with in the read queue unless DDRP is on. */
  lemma MergesOnlyWithDdrp(cfg: Config, s: State, p: Packet)
    requires Inv(cfg, s) && Admissible(cfg, s, p)
    ensures Find(s.rq.entry, p.address) == |s.rq.entry| || cfg.enableDdrp
  {
    assert Merges(cfg, s.rq, Find(s.rq.entry, p.address));
  }

  ghost predicate Inv(cfg: Config, s: State) {
    && Matched(s) && BufferReady(cfg, s) && MergesOk(cfg, s.rq)
    && NoneScheduled(Q(s, !s.writeMode))
    && MinimaOk(s.rq) && MinimaOk(s.wq)
  }

  /** What callers guarantee: room in the queue, a real address, an unscheduled packet that is an LLC miss or
      (with DDRP on) a DDRP prefetch for exactly one of the two LLC ports, and never a second miss for an
      address already in flight. */
  ghost predicate Admissible(cfg: Config, s: State, p: Packet) {
    && p.address != 0 && !p.scheduled && p.eventCycle < NEVER
    && p.instruction == !p.isData
    && (p.fillLevel <= FILL_LLC || (p.fillLevel == FILL_DDRP && p.kind.Prefetch? && cfg.enableDdrp))
    && s.rq.occupancy < SIZE
    && (p.fillLevel <= FILL_LLC ==>
          forall i :: 0 <= i < |s.rq.entry| && s.rq.entry[i].address == p.address ==>
                        s.rq.entry[i].fillLevel == FILL_DDRP)
  }

  ghost predicate AdmissibleWrite(s: State, p: Packet) {
    p.address != 0 && !p.scheduled && p.eventCycle < NEVER && s.wq.occupancy < SIZE
  }

  /** The clock leaves room for one DRAM access below the sentinel. */
  ghost predicate ClockOk(cfg: Config, now: nat) {
    now + cfg.tRP + cfg.tRCD + cfg.tCAS < NEVER
  }

  /** What serving or resetting entry i relies on: its bank names it and knows its direction, and the
      counters it decrements are positive. */
  ghost predicate Servable(s: State, w: bool, i: nat)
    requires Shaped(s) && i < SIZE
  {
    var p := Q(s, w).entry[i];
    p.scheduled ==>
      && s.banks[BankOf(p.address)].requestIndex == i
      && s.banks[BankOf(p.address)].isWrite == w && s.banks[BankOf(p.address)].isRead == !w
      && 0 < (if w then s.scheduledWrites else s.scheduledReads)
      && 0 < Q(s, w).occupancy
      && (w || p.fillLevel <= FILL_LLC || (p.fillLevel == FILL_DDRP && p.kind.Prefetch?))
  }

  lemma MatchedServable(s: State, w: bool, i: nat)
    requires Matched(s) && i < SIZE
    ensures Servable(s, w, i)
  {
    assert EntryOk(s, w, i) && RequestOk(Q(s, w), w, i);
    CountBounds(Q(s, w).entry, IsScheduled);
    CountBounds(Q(s, w).entry, IsOccupied);
  }

  // ---------- initial state

  lemma NoneEligible(e: seq<Packet>, key: Packet -> nat)
    requires forall i :: 0 <= i < |e| ==> key(e[i]) == NEVER
    ensures FirstMin(Keys(e, key)) == Nothing
  {
    assert IsFirst(Keys(e, key), Nothing);
    FirstIsUnique(Keys(e, key), Nothing);
  }

  /** At the start the invariant holds, and no address hits an open row. */
  lemma InitialInv(cfg: Config)
    requires 0 < cfg.bufferSets && 0 < cfg.bufferAssoc
    ensures Inv(cfg, Initial(cfg)) && forall p :: !RowHit(Initial(cfg), p)
  {
    var e := EmptyQueue().entry;
    CountBounds(e, IsScheduled);
    CountBounds(e, IsOccupied);
    assert forall i :: Merges(cfg, EmptyQueue(), i);
    NoneEligible(e, ScheduleKey);
    NoneEligible(e, ProcessKey);
  }

  // ---------- freeing a bank: by reset and by completion

  /** s with entry i of queue w replaced by the unscheduled x, and its bank idle. */
  ghost predicate Freed(s: State, t: State, w: bool, i: nat, x: Packet)
    requires Shaped(s) && i < SIZE
  {
    var p := Q(s, w).entry[i];
    var b := BankOf(p.address);
    && Shaped(t) && !x.scheduled
    && Q(t, w).entry == Q(s, w).entry[i := x] && Q(t, !w).entry == Q(s, !w).entry
    && Q(t, !w).occupancy == Q(s, !w).occupancy
    && !t.banks[b].working && !t.banks[b].isWrite && !t.banks[b].isRead && t.banks[b].requestIndex == -1
    && t.banks == s.banks[b := t.banks[b]]
    && t.scheduledWrites == (if w then Dec(s.scheduledWrites) else s.scheduledWrites)
    && t.scheduledReads == (if w then s.scheduledReads else Dec(s.scheduledReads))
  }

  lemma FreedEntries(s: State, t: State, w: bool, i: nat, x: Packet)
    requires Matched(s) && i < SIZE && Q(s, w).entry[i].scheduled && Freed(s, t, w, i, x)
    ensures forall v, j: nat :: j < SIZE ==> EntryOk(t, v, j)
    ensures forall c: nat :: c < BANKS ==> BankOk(t, c)
  {
    var b := BankOf(Q(s, w).entry[i].address);
    assert EntryOk(s, w, i);
    forall v, j: nat | j < SIZE ensures EntryOk(t, v, j) {
      assert EntryOk(s, v, j);
    }
    forall c: nat | c < BANKS ensures BankOk(t, c) {
      assert BankOk(s, c);
      assert c != b ==> t.banks[c] == s.banks[c];
    }
  }

  lemma FreedMatched(s: State, t: State, w: bool, i: nat, x: Packet)
    requires Matched(s) && i < SIZE && Q(s, w).entry[i].scheduled && Freed(s, t, w, i, x)
    requires RequestsOk(Q(t, w), w)
    ensures Matched(t)
  {
    FreedEntries(s, t, w, i, x);
    RequestsSame(Q(s, !w), Q(t, !w), !w);
    CountUpdate(Q(s, w).entry, i, x, IsScheduled);
    CountBounds(Q(s, w).entry, IsScheduled);
  }

  // ---------- reset_remain_requests

  lemma ResetOneMatched(cfg: Config, s: State, w: bool, i: nat, now: nat)
    requires Matched(s) && i < SIZE && now < NEVER
    ensures var t := ResetOne(cfg, s, w, i, now);
      && Matched(t) && Q(t, w).occupancy == Q(s, w).occupancy
      && !Q(t, w).entry[i].scheduled && forall j :: 0 <= j < SIZE && j != i ==> Q(t, w).entry[j] == Q(s, w).entry[j]
  {
    var p := Q(s, w).entry[i];
    if p.scheduled {
      assert EntryOk(s, w, i) && RequestOk(Q(s, w), w, i);
      var x, t := p.(scheduled := false, eventCycle := now), ResetOne(cfg, s, w, i, now);
      RequestsUpdate(Q(s, w), Q(t, w), w, i, x);
      FreedMatched(s, t, w, i, x);
    }
  }

  lemma {:induction false} ResetUpToMatched(cfg: Config, s: State, w: bool, k: nat, now: nat)
    requires Matched(s) && k <= SIZE && now < NEVER
    ensures var t := ResetUpTo(cfg, s, w, k, now);
      && Matched(t) && Q(t, w).occupancy == Q(s, w).occupancy
      && forall i :: 0 <= i < k ==> !Q(t, w).entry[i].scheduled
  {
    if k > 0 {
      ResetUpToMatched(cfg, s, w, k - 1, now);
      var r := ResetUpTo(cfg, s, w, k - 1, now);
      var t := ResetOne(cfg, r, w, k - 1, now);
      assert t == ResetUpTo(cfg, s, w, k, now);
      ResetOneMatched(cfg, r, w, k - 1, now);
    }
  }

  /** After a reset nothing in the queue is scheduled, so its counter is zero: the sanity check passes. */
  lemma ResetCounts(cfg: Config, s: State, w: bool, now: nat)
    requires Matched(s) && now < NEVER
    ensures var t := ResetUpTo(cfg, s, w, SIZE, now);
      (if w then t.scheduledWrites else t.scheduledReads) == 0
  {
    ResetUpToMatched(cfg, s, w, SIZE, now);
    CountBounds(Q(ResetUpTo(cfg, s, w, SIZE, now), w).entry, IsScheduled);
  }

  lemma {:induction false} ResetMerges(cfg: Config, s: State, w: bool, k: nat, now: nat)
    requires Shaped(s) && MergesOk(cfg, s.rq) && k <= SIZE
    ensures MergesOk(cfg, ResetUpTo(cfg, s, w, k, now).rq)
  {
    if k > 0 {
      ResetMerges(cfg, s, w, k - 1, now);
      var r := ResetUpTo(cfg, s, w, k - 1, now);
      var t := ResetOne(cfg, r, w, k - 1, now);
      if t != r && !w {
        MergesUpdate(cfg, r.rq, t.rq, k - 1, t.rq.entry[k - 1]);
      }
    }
  }

  lemma ResetInv(cfg: Config, s: State, w: bool, now: nat)
    requires Matched(s) && BufferReady(cfg, s) && MergesOk(cfg, s.rq) && s.writeMode == !w && now < NEVER
    ensures Inv(cfg, Reset(cfg, s, w, now))
  {
    ResetUpToMatched(cfg, s, w, SIZE, now);
    ResetMerges(cfg, s, w, SIZE, now);
    MergesSame(cfg, ResetUpTo(cfg, s, w, SIZE, now).rq, Reset(cfg, s, w, now).rq);
    ResetKeepsBuffer(cfg, s, w, SIZE, now);
    var r, t := ResetUpTo(cfg, s, w, SIZE, now), Reset(cfg, s, w, now);
    SameEntriesMatched(r, t);
  }

  lemma SameEntriesMatched(s: State, t: State)
    requires Matched(s) && s.banks == t.banks
    requires s.rq.entry == t.rq.entry && s.wq.entry == t.wq.entry
    requires s.rq.occupancy == t.rq.occupancy && s.wq.occupancy == t.wq.occupancy
    requires s.scheduledReads == t.scheduledReads && s.scheduledWrites == t.scheduledWrites
    ensures Matched(t)
  {
    forall w, i: nat | i < SIZE ensures EntryOk(t, w, i) { assert EntryOk(s, w, i); }
    forall b: nat | b < BANKS ensures BankOk(t, b) { assert BankOk(s, b); }
    RequestsSame(s.rq, t.rq, false);
    RequestsSame(s.wq, t.wq, true);
  }

  lemma SwitchModeInv(cfg: Config, s: State, now: nat)
    requires Inv(cfg, s) && now < NEVER
    ensures Inv(cfg, SwitchMode(cfg, s, now))
  {
    if EntersWriteMode(s) || LeavesWriteMode(s) {
      var flipped := s.(writeMode := !s.writeMode);
      SameEntriesMatched(s, flipped);
      ResetInv(cfg, flipped, s.writeMode, now);
      SameEntriesMatched(Reset(cfg, flipped, s.writeMode, now), SwitchMode(cfg, s, now));
    }
  }

  // ---------- schedule

  /** t is s with the waiting entry i of queue w scheduled as x on its idle bank. */
  ghost predicate Taken(s: State, t: State, w: bool, i: nat, x: Packet)
    requires Shaped(s) && i < SIZE
  {
    var p := Q(s, w).entry[i];
    var b := BankOf(p.address);
    && Shaped(t) && p.address != 0 && !p.scheduled && x == p.(scheduled := true, eventCycle := x.eventCycle)
    && Q(t, w).entry == Q(s, w).entry[i := x] && Q(t, !w) == Q(s, !w)
    && Q(t, w).occupancy == Q(s, w).occupancy
    && !s.banks[b].working && t.banks == s.banks[b := t.banks[b]]
    && t.banks[b].working && t.banks[b].isWrite == w && t.banks[b].isRead == !w
    && t.banks[b].requestIndex == i && t.banks[b].openRow == RowOf(p.address)
    && t.scheduledWrites == (if w then s.scheduledWrites + 1 else s.scheduledWrites)
    && t.scheduledReads == (if w then s.scheduledReads else s.scheduledReads + 1)
  }

  lemma TakenEntries(s: State, t: State, w: bool, i: nat, x: Packet)
    requires Matched(s) && i < SIZE && Taken(s, t, w, i, x)
    ensures forall v, j: nat :: j < SIZE ==> EntryOk(t, v, j)
    ensures forall c: nat :: c < BANKS ==> BankOk(t, c)
  {
    var b := BankOf(Q(s, w).entry[i].address);
    forall v, j: nat | j < SIZE ensures EntryOk(t, v, j) {
      assert EntryOk(s, v, j);
    }
    forall c: nat | c < BANKS ensures BankOk(t, c) {
      assert BankOk(s, c);
      assert c != b ==> t.banks[c] == s.banks[c];
    }
  }

  lemma TakenMatched(s: State, t: State, w: bool, i: nat, x: Packet)
    requires Matched(s) && i < SIZE && Taken(s, t, w, i, x) && x.eventCycle < NEVER
    ensures Matched(t)
  {
    TakenEntries(s, t, w, i, x);
    CountUpdate(Q(s, w).entry, i, x, IsScheduled);
    assert RequestOk(Q(s, w), w, i);
    RequestsUpdate(Q(s, w), Q(t, w), w, i, x);
  }

  predicate Waiting(s: State, p: Packet)
    requires Shaped(s)
  {
    p.address != 0 && !p.scheduled && !s.banks[BankOf(p.address)].working
  }

  predicate RowHit(s: State, p: Packet)
    requires Shaped(s)
  {
    s.banks[BankOf(p.address)].openRow == RowOf(p.address)
  }

  /** Row hits first, then the oldest, then the lowest slot. */
  predicate Precedes(s: State, e: seq<Packet>, i: nat, j: nat)
    requires Shaped(s) && i < |e| && j < |e|
  {
    if RowHit(s, e[i]) != RowHit(s, e[j]) then RowHit(s, e[i])
    else e[i].eventCycle < e[j].eventCycle || (e[i].eventCycle == e[j].eventCycle && i <= j)
  }

  /** The scheduler takes the waiting request that precedes all others, and takes one whenever one waits. */
  lemma PickIsFrFcfs(s: State, w: bool)
    requires Matched(s)
    ensures var e := Q(s, w).entry;
      match Pick(s, w)
      case Nothing => forall j :: 0 <= j < SIZE ==> !Waiting(s, e[j])
      case At(i, c) =>
        && i < SIZE && Waiting(s, e[i])
        && forall j: nat :: j < SIZE && Waiting(s, e[j]) ==> Precedes(s, e, i, j)
  {
    var e := Q(s, w).entry;
    var hits, any := Keys(e, p => HitKey(s, p)), Keys(e, p => AnyKey(s, p));
    FirstMinIsFirst(hits);
    FirstMinIsFirst(any);
    forall j: nat | j < SIZE
      ensures hits[j] == (if Waiting(s, e[j]) && RowHit(s, e[j]) then e[j].eventCycle else NEVER)
      ensures any[j] == if Waiting(s, e[j]) then e[j].eventCycle else NEVER
      ensures Waiting(s, e[j]) ==> e[j].eventCycle < NEVER
    {
      assert RequestOk(Q(s, w), w, j);
    }
  }

  /** The chosen request takes its bank for one column access, and for precharge and activation as well unless it
      hits the open row (a read may be charged as a miss by a knob), less the lookup time of a direct request. */
  lemma ScheduleTakes(cfg: Config, s: State, w: bool, now: nat)
    requires Matched(s) && Pick(s, w).At?
    ensures var i, t := Pick(s, w).index, Schedule(cfg, s, w, now);
      var p, x := Q(s, w).entry[i], Q(t, w).entry[i];
      && Taken(s, t, w, i, x)
      && x.eventCycle == now + (
           var full := cfg.tCAS + (if RowHit(s, p) && (w || !cfg.forceRowMiss) then 0 else cfg.tRP + cfg.tRCD);
           if !Direct(cfg, p, now) then full else if full > cfg.lookupLatency then full - cfg.lookupLatency else 0)
      && t.banks[BankOf(p.address)].cycleAvailable == x.eventCycle
  {
    PickIsFrFcfs(s, w);
    var i := Pick(s, w).index;
    assert RequestOk(Q(s, w), w, i);
  }

  lemma ScheduleInv(cfg: Config, s: State, w: bool, now: nat)
    requires Inv(cfg, s) && s.writeMode == w && ClockOk(cfg, now)
    ensures Inv(cfg, Schedule(cfg, s, w, now))
  {
    if Pick(s, w).At? {
      var i, t := Pick(s, w).index, Schedule(cfg, s, w, now);
      ScheduleTakes(cfg, s, w, now);
      TakenMatched(s, t, w, i, Q(t, w).entry[i]);
      if !w {
        MergesUpdate(cfg, s.rq, t.rq, i, t.rq.entry[i]);
      }
    }
  }

  // ---------- process

  /** Both sanity checks of process: there is a request to serve, and its bank names it. */
  lemma ProcessChecks(cfg: Config, s: State, w: bool)
    requires Inv(cfg, s) && Q(s, w).nextProcessCycle < NEVER
    ensures var i := Q(s, w).nextProcessIndex;
      i < SIZE && Q(s, w).entry[i].scheduled
      && s.banks[BankOf(Q(s, w).entry[i].address)].requestIndex == i
      && (!w && Q(s, w).entry[i].fillLevel >= FILL_DDRP ==> Q(s, w).entry[i].kind.Prefetch?)
  {
    var q := Q(s, w);
    SavedAt(q.nextProcessCycle, q.nextProcessIndex, q.entry, ProcessKey);
    assert EntryOk(s, w, q.nextProcessIndex) && RequestOk(q, w, q.nextProcessIndex);
  }

  lemma CompleteInv(cfg: Config, s: State, t: State, w: bool, i: nat)
    requires Inv(cfg, s) && s.writeMode == w && i < SIZE && Q(s, w).entry[i].scheduled
    requires Freed(s, t, w, i, EMPTY) && Q(t, !w) == Q(s, !w) && t.writeMode == w && BufferReady(cfg, t)
    requires Q(t, w) == UpdateProcess(Q(s, w).(entry := Q(s, w).entry[i := EMPTY], occupancy := Dec(Q(s, w).occupancy)))
    ensures Inv(cfg, t)
  {
    var q := Q(s, w);
    assert EntryOk(s, w, i);
    CountBounds(q.entry, IsOccupied);
    RequestsUpdate(q, Q(t, w), w, i, EMPTY);
    KeysSame(q.entry, i, EMPTY, ScheduleKey);
    FreedMatched(s, t, w, i, EMPTY);
    if !w {
      MergesUpdate(cfg, q, t.rq, i, EMPTY);
    }
  }

  lemma ProcessInv(cfg: Config, s: State, w: bool, now: nat)
    requires Inv(cfg, s) && s.writeMode == w && now < NEVER
    requires Q(s, w).nextProcessIndex < SIZE && Q(s, w).nextProcessCycle <= now
    ensures Inv(cfg, Process(cfg, s, w, now))
  {
    ProcessChecks(cfg, s, w);
    var i, t := Q(s, w).nextProcessIndex, Process(cfg, s, w, now);
    var b := BankOf(Q(s, w).entry[i].address);
    assert EntryOk(s, w, i);
    if s.banks[b].cycleAvailable <= now {
      if s.dbus > now {
        forall v, j: nat | j < SIZE ensures EntryOk(t, v, j) { assert EntryOk(s, v, j); }
        forall c: nat | c < BANKS ensures BankOk(t, c) { assert BankOk(s, c); }
      } else {
        CompleteInv(cfg, s, t, w, i);
      }
    }
  }

  lemma ServeInv(cfg: Config, s: State, w: bool, now: nat)
    requires Inv(cfg, s) && ClockOk(cfg, now)
    ensures Inv(cfg, ScheduleIfDue(cfg, s, w, now)) && Inv(cfg, Serve(cfg, s, w, now))
  {
    if s.writeMode == w {
      ScheduleInv(cfg, s, w, now);
      var t := ScheduleIfDue(cfg, s, w, now);
      if Q(t, w).nextProcessIndex < SIZE && Q(t, w).nextProcessCycle <= now {
        ProcessInv(cfg, t, w, now);
      }
    }
  }

  lemma OperateInv(cfg: Config, s: State, now: nat)
    requires Inv(cfg, s) && ClockOk(cfg, now)
    ensures Inv(cfg, SwitchMode(cfg, s, now)) && Inv(cfg, Serve(cfg, SwitchMode(cfg, s, now), true, now))
    ensures Inv(cfg, Operate(cfg, s, now))
  {
    SwitchModeInv(cfg, s, now);
    ServeInv(cfg, SwitchMode(cfg, s, now), true, now);
    ServeInv(cfg, Serve(cfg, SwitchMode(cfg, s, now), true, now), false, now);
  }

  // ---------- requests

  lemma EnqueueOk(q: Queue, w: bool, p: Packet)
    requires |q.entry| == SIZE && RequestsOk(q, w) && MinimaOk(q) && q.occupancy < SIZE
    requires Find(q.entry, p.address) == SIZE
    requires p.address != 0 && !p.scheduled && p.eventCycle < NEVER
    requires w || p.fillLevel <= FILL_LLC || (p.fillLevel == FILL_DDRP && p.kind.Prefetch?)
    ensures var i := Find(q.entry, 0); i < SIZE && Enqueue(q, p).entry == q.entry[i := p]
    ensures Enqueue(q, p).occupancy == q.occupancy + 1
    ensures RequestsOk(Enqueue(q, p), w)
  {
    var i := Find(q.entry, 0);
    CountBounds(q.entry, IsOccupied);
    RequestsUpdate(q, Enqueue(q, p), w, i, p);
  }

  /** Writing an unscheduled request over an unscheduled entry, or merging over a scheduled one that keeps
      its address and schedule, does not disturb the banks. */
  lemma OverwriteMatched(s: State, t: State, w: bool, i: nat, x: Packet)
    requires Matched(s) && i < SIZE && x.scheduled == Q(s, w).entry[i].scheduled
    requires x.scheduled ==> x.address == Q(s, w).entry[i].address
    requires Q(t, w).entry == Q(s, w).entry[i := x] && Q(t, !w) == Q(s, !w) && t.banks == s.banks
    requires t.scheduledReads == s.scheduledReads && t.scheduledWrites == s.scheduledWrites
    requires RequestsOk(Q(t, w), w)
    ensures Matched(t)
  {
    forall v, j: nat | j < SIZE ensures EntryOk(t, v, j) { assert EntryOk(s, v, j); }
    forall c: nat | c < BANKS ensures BankOk(t, c) { assert BankOk(s, c); }
    CountUpdate(Q(s, w).entry, i, x, IsScheduled);
    RequestsSame(Q(s, !w), Q(t, !w), !w);
  }

  lemma EnqueueInv(cfg: Config, s: State, w: bool, p: Packet)
    requires Inv(cfg, s) && Q(s, w).occupancy < SIZE && Find(Q(s, w).entry, p.address) == SIZE
    requires p.address != 0 && !p.scheduled && p.eventCycle < NEVER
    requires w || p.fillLevel <= FILL_LLC || (p.fillLevel == FILL_DDRP && p.kind.Prefetch? && cfg.enableDdrp)
    ensures Inv(cfg, WithQ(s, w, Enqueue(Q(s, w), p)))
  {
    var q, i := Q(s, w), Find(Q(s, w).entry, 0);
    EnqueueOk(q, w, p);
    assert EntryOk(s, w, i);
    OverwriteMatched(s, WithQ(s, w, Enqueue(q, p)), w, i, p);
    KeysSame(q.entry, i, p, ProcessKey);
    if !w {
      MergesUpdate(cfg, q, Enqueue(q, p), i, p);
    }
  }

  lemma MergeInv(cfg: Config, s: State, p: Packet)
    requires Inv(cfg, s) && Admissible(cfg, s, p) && Find(s.rq.entry, p.address) < SIZE
    ensures Inv(cfg, s.(rq := Merge(s.rq, Find(s.rq.entry, p.address), p)))
  {
    var q, i := s.rq, Find(s.rq.entry, p.address);
    var t := s.(rq := Merge(q, i, p));
    var x := t.rq.entry[i];
    assert t.rq.entry == q.entry[i := x];
    assert RequestOk(q, false, i);
    RequestsUpdate(q, t.rq, false, i, x);
    OverwriteMatched(s, t, false, i, x);
    MergesUpdate(cfg, q, t.rq, i, x);
    KeysSame(q.entry, i, x, ScheduleKey);
    KeysSame(q.entry, i, x, ProcessKey);
  }

  lemma AddRqInv(cfg: Config, s: State, p: Packet, warm: bool)
    requires Inv(cfg, s) && Admissible(cfg, s, p)
    ensures Inv(cfg, AddRq(cfg, s, p, warm))
  {
    var t := AddRq(cfg, s, p, warm);
    if t == Answer(s, p) || t == s {
      SameEntriesMatched(s, t);
    } else if Find(s.rq.entry, p.address) < SIZE {
      MergeInv(cfg, s, p);
    } else {
      EnqueueInv(cfg, s, false, p);
    }
  }

  lemma AddWqInv(cfg: Config, s: State, p: Packet, warm: bool)
    requires Inv(cfg, s) && AdmissibleWrite(s, p)
    ensures Inv(cfg, AddWq(s, p, warm))
  {
    if AddWq(s, p, warm) != s {
      EnqueueInv(cfg, s, true, p);
    }
  }
}
