/** What every operation of the DRAM controller does, said of the fields of the states before and after it: which
    request, under which conditions, and everything that changes. No scan and no saved minimum appears in a law. */
module DramLaws {
  import opened FirstMinimum
  import opened DramModel
  import opened DramInvariant
  import Recency
  import Sequences

  // ---------- the laws

  /** Writes are served from 56 queued or while no read is queued, and until fewer than 48 are left. A switch takes
      the queue being left off its banks, and the bus pays the turn-around. */
  ghost predicate ModeLaw(cfg: Config, s: State, t: State, now: nat) {
    && t.writeMode == (if s.writeMode then s.wq.occupancy > 0 && (s.rq.occupancy == 0 || s.wq.occupancy >= 48)
                       else s.wq.occupancy >= 56 || (s.rq.occupancy == 0 && s.wq.occupancy > 0))
    && if t.writeMode == s.writeMode then t == s else Abandoned(cfg, s, t, now)
  }

  ghost predicate Abandoned(cfg: Config, s: State, t: State, now: nat) {
    && t.dbus == s.dbus + cfg.turnAround && t.switches == s.switches + 1
    && t.buffer == s.buffer && t.returned == s.returned && t.buffered == s.buffered && t.transfers == s.transfers
    && t.rq.occupancy == s.rq.occupancy && t.wq.occupancy == s.wq.occupancy
    && t.scheduledReads == 0 && t.scheduledWrites == 0
    && |t.rq.entry| == |s.rq.entry| && |t.wq.entry| == |s.wq.entry| && |t.banks| == |s.banks|
    && (forall w, i: nat :: i < |Q(s, w).entry| ==> Q(t, w).entry[i] == OffBank(Q(s, w).entry[i], now))
    && (forall b: nat :: b < |s.banks| ==> Interrupted(cfg, s.banks[b], t.banks[b], now))
  }

  function OffBank(p: Packet, now: nat): Packet {
    if p.scheduled then p.(scheduled := false, eventCycle := now) else p
  }

  /** A busy bank is free from now on. Its row stays open exactly if the column access had begun. (Cycles are 64 bits
      wide.) */
  ghost predicate Interrupted(cfg: Config, k: Bank, k': Bank, now: nat) {
    if !k.working then k' == k else
    && !k'.working && !k'.isRead && !k'.isWrite && k'.requestIndex == -1 && k'.cycleAvailable == now
    && (k.cycleAvailable <= NEVER ==>
          k'.openRow == if cfg.tCAS <= k.cycleAvailable <= now + cfg.tCAS then k.openRow else NO_ROW)
  }

  /** Something is scheduled exactly if a queued request is due and one waits for an idle bank. */
  ghost predicate ScheduleLaw(cfg: Config, s: State, t: State, w: bool, now: nat)
    requires Shaped(s)
  {
    var e := Q(s, w).entry;
    if (exists j :: 0 <= j < |e| && e[j].address != 0 && !e[j].scheduled && e[j].eventCycle <= now)
       && (exists j :: 0 <= j < |e| && Waiting(s, e[j]))
    then exists i: nat :: Next(s, w, i) && Begins(cfg, s, t, w, i, now)
    else t == s
  }

  /** Entry i waits, and precedes all that wait. */
  ghost predicate Next(s: State, w: bool, i: nat)
    requires Shaped(s)
  {
    var e := Q(s, w).entry;
    i < |e| && Waiting(s, e[i]) && forall j: nat :: j < |e| && Waiting(s, e[j]) ==> Precedes(s, e, i, j)
  }

  /** Entry i takes its bank until its access is over. */
  ghost predicate Begins(cfg: Config, s: State, t: State, w: bool, i: nat, now: nat)
    requires Shaped(s) && i < |Q(s, w).entry|
  {
    var p := Q(s, w).entry[i];
    var full := cfg.tCAS + (if RowHit(s, p) && (w || !cfg.forceRowMiss) then 0 else cfg.tRP + cfg.tRCD);
    var saved := if cfg.pseudoDirect && p.isData && (p.kind.Load? || (p.kind.Prefetch? && cfg.pseudoOnPrefetch))
                    && cfg.inPartition(p.robPosition, now) then cfg.lookupLatency else 0;
    var ready := now + if full > saved then full - saved else 0;
    && t == s.(rq := t.rq, wq := t.wq, banks := t.banks,
               scheduledReads := t.scheduledReads, scheduledWrites := t.scheduledWrites)
    && Q(t, !w) == Q(s, !w) && Q(t, w).occupancy == Q(s, w).occupancy
    && Q(t, w).entry == Q(s, w).entry[i := p.(scheduled := true, eventCycle := ready)]
    && t.banks == s.banks[p.address % 8 := Bank(ready, p.address / 1024 % 65536, true, w, !w, i)]
    && t.scheduledReads == s.scheduledReads + (if w then 0 else 1)
    && t.scheduledWrites == s.scheduledWrites + (if w then 1 else 0)
  }

  /** A scheduled request is served exactly if one's access time is over: the earliest, the first on a tie. */
  ghost predicate ProcessLaw(cfg: Config, s: State, t: State, w: bool, now: nat)
    requires Shaped(s)
  {
    var e := Q(s, w).entry;
    if exists j :: 0 <= j < |e| && e[j].scheduled && e[j].eventCycle <= now
    then exists i: nat :: Earliest(e, i) && e[i].eventCycle <= now && Served(cfg, s, t, w, i, now)
    else t == s
  }

  ghost predicate Earliest(e: seq<Packet>, i: nat) {
    && i < |e| && e[i].scheduled
    && (forall j :: 0 <= j < |e| && e[j].scheduled ==> e[i].eventCycle <= e[j].eventCycle)
    && (forall j :: 0 <= j < i && e[j].scheduled ==> e[i].eventCycle < e[j].eventCycle)
  }

  /** Entry i waits for its bank, or else for the bus, and is completed if both are free. */
  ghost predicate Served(cfg: Config, s: State, t: State, w: bool, i: nat, now: nat)
    requires Shaped(s) && i < |Q(s, w).entry|
  {
    var b := Q(s, w).entry[i].address % 8;
    if s.banks[b].cycleAvailable > now then t == s
    else if s.dbus > now then t == s.(banks := s.banks[b := s.banks[b].(cycleAvailable := s.dbus)])
    else Completed(cfg, s, t, w, i, now)
  }

  /** The data crosses the bus; slot and bank are freed, the row stays open. */
  ghost predicate Completed(cfg: Config, s: State, t: State, w: bool, i: nat, now: nat)
    requires Shaped(s) && i < |Q(s, w).entry|
  {
    var p := Q(s, w).entry[i];
    var k := s.banks[p.address % 8];
    && t.transfers == s.transfers + [Transfer(now, w, s.switches)] && t.dbus == now + cfg.returnTime
    && t.writeMode == s.writeMode && t.switches == s.switches
    && Q(t, !w) == Q(s, !w) && Q(t, w).occupancy + 1 == Q(s, w).occupancy
    && Q(t, w).entry == Q(s, w).entry[i := EMPTY]
    && t.banks == s.banks[p.address % 8 := Bank(k.cycleAvailable, k.openRow, false, false, false, -1)]
    && t.scheduledReads + (if w then 0 else 1) == s.scheduledReads
    && t.scheduledWrites + (if w then 1 else 0) == s.scheduledWrites
    && Handed(cfg, s, t, w, p)
  }

  /** An LLC miss is answered; a DDRP prefetch goes into its buffer set, if there is a buffer. */
  ghost predicate Handed(cfg: Config, s: State, t: State, w: bool, p: Packet) {
    && t.returned == s.returned + (if !w && p.fillLevel <= FILL_LLC then [p.address] else [])
    && if !w && p.fillLevel > FILL_LLC && cfg.bufferOn then
         0 < cfg.bufferSets && 0 < cfg.bufferAssoc && var k := cfg.setIndex(p.address) % cfg.bufferSets;
         && k < |s.buffer| && t.buffered == s.buffered + [p.address]
         && t.buffer == s.buffer[k := Recency.Touch(s.buffer[k], cfg.bufferAssoc, p.address)]
       else t.buffer == s.buffer && t.buffered == s.buffered
  }

  /** One cycle: the mode is decided, then the queue of the mode schedules, then it processes. */
  ghost predicate CycleLaw(cfg: Config, s: State, t: State, now: nat) {
    exists a, b :: Stages(cfg, s, a, b, t, now)
  }

  ghost predicate Stages(cfg: Config, s: State, a: State, b: State, t: State, now: nat) {
    && Shaped(a) && Shaped(b) && ModeLaw(cfg, s, a, now)
    && ScheduleLaw(cfg, a, b, a.writeMode, now) && ProcessLaw(cfg, b, t, a.writeMode, now)
  }

  /** A read that needs no DRAM is answered and leaves the queues alone; a read already queued as a DDRP prefetch is
      taken over by an LLC miss; any other takes the first empty slot. */
  ghost predicate ReadLaw(cfg: Config, s: State, t: State, p: Packet, warm: bool)
    requires BufferReady(cfg, s)
  {
    if (!warm && p.fillLevel <= FILL_LLC) || (exists j :: 0 <= j < |s.wq.entry| && s.wq.entry[j].address == p.address)
       || (cfg.bufferOn && p.address in s.buffer[cfg.setIndex(p.address) % cfg.bufferSets])
    then t == s.(returned := if p.fillLevel <= FILL_LLC then s.returned + [p.address] else s.returned)
    else t == s.(rq := t.rq) &&
         if exists j :: 0 <= j < |s.rq.entry| && s.rq.entry[j].address == p.address
         then exists i: nat :: i < |s.rq.entry| && s.rq.entry[i].address == p.address && Joined(s.rq, t.rq, i, p)
         else Queued(s.rq, t.rq, p)
  }

  ghost predicate Joined(q: Queue, q': Queue, i: nat, p: Packet)
    requires i < |q.entry|
  {
    var e := q.entry[i];
    q' == if e.fillLevel == FILL_DDRP && p.fillLevel <= FILL_LLC
          then q.(entry := q.entry[i := p.(scheduled := e.scheduled, eventCycle := e.eventCycle)]) else q
  }

  ghost predicate Queued(q: Queue, q': Queue, p: Packet) {
    exists i: nat ::
      && i < |q.entry| && q.entry[i].address == 0 && (forall j :: 0 <= j < i ==> q.entry[j].address != 0)
      && q'.entry == q.entry[i := p] && q'.occupancy == q.occupancy + 1
      && q'.nextProcessCycle == q.nextProcessCycle && q'.nextProcessIndex == q.nextProcessIndex
  }

  /** Writes are dropped before warmup; one for a queued address merges into it. */
  ghost predicate WriteLaw(s: State, t: State, p: Packet, warm: bool) {
    if !warm || exists j :: 0 <= j < |s.wq.entry| && s.wq.entry[j].address == p.address then t == s
    else t == s.(wq := t.wq) && Queued(s.wq, t.wq, p)
  }

  // ---------- what follows from them

  /** The mode served has nothing queued only if nothing is queued at all. */
  lemma ActiveHasWork(cfg: Config, s: State, t: State, now: nat)
    requires ModeLaw(cfg, s, t, now)
    ensures Q(t, t.writeMode).occupancy == 0 ==> t.rq.occupancy == t.wq.occupancy == 0
  {
  }

  /** A processing step makes one transfer exactly if the earliest scheduled request is due and finds its bank and the
      bus free, and none otherwise. */
  lemma OneTransferIff(cfg: Config, s: State, t: State, w: bool, now: nat)
    requires Shaped(s) && ProcessLaw(cfg, s, t, w, now)
    ensures var e := Q(s, w).entry;
      |t.transfers| == |s.transfers| +
        (if exists i: nat :: Earliest(e, i) && e[i].eventCycle <= now
                             && s.banks[e[i].address % 8].cycleAvailable <= now && s.dbus <= now then 1 else 0)
  {
    var e := Q(s, w).entry;
    forall i: nat, j: nat | Earliest(e, i) && Earliest(e, j) ensures i == j {
    }
  }

  lemma EarliestIsServed(cfg: Config, s: State, t: State, w: bool, i: nat, now: nat)
    requires Shaped(s) && ProcessLaw(cfg, s, t, w, now)
    requires Earliest(Q(s, w).entry, i) && Q(s, w).entry[i].eventCycle <= now
    ensures Served(cfg, s, t, w, i, now)
  {
    forall j: nat | Earliest(Q(s, w).entry, j) ensures j == i {
    }
  }

  lemma StaysEarliest(cfg: Config, s: State, t: State, w: bool, i: nat, now: nat)
    requires Shaped(s) && Shaped(t) && ScheduleLaw(cfg, s, t, w, now)
    requires Earliest(Q(s, w).entry, i) && Q(s, w).entry[i].eventCycle < now
    requires s.banks[Q(s, w).entry[i].address % 8].working
    ensures Earliest(Q(t, w).entry, i) && Q(t, w).entry[i] == Q(s, w).entry[i]
    ensures var b := Q(s, w).entry[i].address % 8; t.banks[b] == s.banks[b]
    ensures t.transfers == s.transfers && t.returned == s.returned && t.dbus == s.dbus && t.switches == s.switches
  {
  }

  // ---------- the operations obey them

  /** The wrapped comparison of the reset, as long as clocks are sane. */
  lemma BegunIs(available: nat, tCAS: nat, now: nat)
    requires available <= NEVER && now + tCAS < NEVER
    ensures (available - tCAS) % 0x1_0000_0000_0000_0000 <= now <==> tCAS <= available <= now + tCAS
  {
  }

  ghost predicate BankReset(cfg: Config, s: State, t: State, w: bool, upTo: nat, now: nat, b: nat)
    requires Shaped(s) && Shaped(t)
  {
    b < BANKS ==>
      var k := s.banks[b];
      if k.working && k.isWrite == w && k.requestIndex < upTo then Interrupted(cfg, k, t.banks[b], now)
      else t.banks[b] == k
  }

  ghost predicate EntryReset(s: State, t: State, w: bool, upTo: nat, now: nat, i: nat)
    requires Shaped(s) && Shaped(t)
  {
    i < SIZE ==> Q(t, w).entry[i] == if i < upTo then OffBank(Q(s, w).entry[i], now) else Q(s, w).entry[i]
  }

  lemma ResetOneBanks(cfg: Config, s: State, r: State, w: bool, i: nat, upTo: nat, now: nat)
    requires upTo == i + 1 && Matched(s) && Matched(r) && i < SIZE && ClockOk(cfg, now)
    requires EntryReset(s, r, w, i, now, i)
    requires forall b: nat :: BankReset(cfg, s, r, w, i, now, b)
    ensures forall b: nat :: BankReset(cfg, s, ResetOne(cfg, r, w, i, now), w, upTo, now, b)
  {
    var t, p := ResetOne(cfg, r, w, i, now), Q(s, w).entry[i];
    assert EntryOk(s, w, i) && EntryOk(r, w, i);
    forall b: nat ensures BankReset(cfg, s, t, w, upTo, now, b) {
      assert BankReset(cfg, s, r, w, i, now, b);
      if b < BANKS {
        assert BankOk(s, b);
        if p.scheduled && b == BankOf(p.address) && s.banks[b].cycleAvailable <= NEVER {
          BegunIs(s.banks[b].cycleAvailable, cfg.tCAS, now);
        }
      }
    }
  }

  lemma {:induction false} ResetEntries(cfg: Config, s: State, w: bool, k: nat, now: nat)
    requires Shaped(s) && k <= SIZE
    ensures forall i: nat :: EntryReset(s, ResetUpTo(cfg, s, w, k, now), w, k, now, i)
  {
    if k > 0 {
      ResetEntries(cfg, s, w, k - 1, now);
      var r := ResetUpTo(cfg, s, w, k - 1, now);
      var t := ResetOne(cfg, r, w, k - 1, now);
      forall i: nat ensures EntryReset(s, t, w, k, now, i) {
        assert EntryReset(s, r, w, k - 1, now, i) && EntryReset(s, r, w, k - 1, now, k - 1);
      }
    }
  }

  lemma {:induction false} ResetBanks(cfg: Config, s: State, w: bool, k: nat, now: nat)
    requires Matched(s) && k <= SIZE && ClockOk(cfg, now)
    ensures forall b: nat :: BankReset(cfg, s, ResetUpTo(cfg, s, w, k, now), w, k, now, b)
  {
    if k == 0 {
      forall b: nat ensures BankReset(cfg, s, s, w, 0, now, b) {
        assert b < BANKS ==> BankOk(s, b);
      }
    } else {
      ResetBanks(cfg, s, w, k - 1, now);
      ResetUpToMatched(cfg, s, w, k - 1, now);
      ResetEntries(cfg, s, w, k - 1, now);
      ResetOneBanks(cfg, s, ResetUpTo(cfg, s, w, k - 1, now), w, k - 1, k, now);
    }
  }

  lemma NoneCounted(q: Queue)
    requires NoneScheduled(q)
    ensures Sequences.Count(q.entry, IsScheduled) == 0
  {
    Sequences.CountBounds(q.entry, IsScheduled);
  }

  /** What a switch leaves behind, entry by entry and bank by bank. */
  lemma SwitchedEntries(cfg: Config, s: State, now: nat)
    requires Inv(cfg, s) && ClockOk(cfg, now)
    ensures var t := Switched(cfg, s, now);
      && |t.rq.entry| == |t.wq.entry| == SIZE && |t.banks| == BANKS
      && (forall w, i: nat :: i < SIZE ==> Q(t, w).entry[i] == OffBank(Q(s, w).entry[i], now))
      && (forall b: nat :: b < BANKS ==> Interrupted(cfg, s.banks[b], t.banks[b], now))
  {
    var t, w := Switched(cfg, s, now), s.writeMode;
    var flipped := s.(writeMode := !w);
    SameEntriesMatched(s, flipped);
    ResetBanks(cfg, flipped, w, SIZE, now);
    ResetEntries(cfg, flipped, w, SIZE, now);
    ResetKeepsBuffer(cfg, flipped, w, SIZE, now);
    var r := ResetUpTo(cfg, flipped, w, SIZE, now);
    assert t.banks == r.banks && t.rq.entry == r.rq.entry && t.wq.entry == r.wq.entry;
    forall b: nat | b < BANKS ensures Interrupted(cfg, s.banks[b], t.banks[b], now) {
      assert BankOk(s, b) && BankReset(cfg, flipped, r, w, SIZE, now, b);
    }
    forall v, i: nat | i < SIZE ensures Q(t, v).entry[i] == OffBank(Q(s, v).entry[i], now) {
      assert EntryReset(flipped, r, w, SIZE, now, i);
      assert !Q(s, !w).entry[i].scheduled;
    }
  }

  lemma SwitchedCounts(cfg: Config, s: State, now: nat)
    requires Inv(cfg, s) && ClockOk(cfg, now) && (EntersWriteMode(s) || LeavesWriteMode(s))
    ensures var t := Switched(cfg, s, now);
      && t.scheduledReads == 0 && t.scheduledWrites == 0
      && t.rq.occupancy == s.rq.occupancy && t.wq.occupancy == s.wq.occupancy
  {
    var t, w := Switched(cfg, s, now), s.writeMode;
    var flipped := s.(writeMode := !w);
    SameEntriesMatched(s, flipped);
    ResetUpToMatched(cfg, flipped, w, SIZE, now);
    ResetKeepsBuffer(cfg, flipped, w, SIZE, now);
    SwitchModeInv(cfg, s, now);
    SwitchedEntries(cfg, s, now);
    NoneCounted(t.rq);
    NoneCounted(t.wq);
  }

  lemma SwitchObeys(cfg: Config, s: State, now: nat)
    requires Inv(cfg, s) && ClockOk(cfg, now)
    ensures ModeLaw(cfg, s, SwitchMode(cfg, s, now), now)
  {
    if EntersWriteMode(s) || LeavesWriteMode(s) {
      SwitchedEntries(cfg, s, now);
      SwitchedCounts(cfg, s, now);
      ResetKeepsBuffer(cfg, s.(writeMode := !s.writeMode), s.writeMode, SIZE, now);
    }
  }

  /** A saved event is due exactly if some entry is. */
  lemma SavedIsDue(cycle: nat, index: nat, e: seq<Packet>, key: Packet -> nat, now: nat)
    requires Saved(cycle, index, Keys(e, key)) && now < NEVER
    ensures cycle <= now <==> exists j :: 0 <= j < |e| && key(e[j]) <= now
    ensures cycle <= now ==> index < |e| && IsFirst(Keys(e, key), At(index, cycle))
  {
    var keys := Keys(e, key);
    FirstMinIsFirst(keys);
    assert forall j :: 0 <= j < |e| ==> keys[j] == key(e[j]);
    if cycle <= now {
      assert key(e[index]) <= now;
    }
  }

  lemma ScheduleBegins(cfg: Config, s: State, w: bool, now: nat)
    requires Inv(cfg, s) && Pick(s, w).At?
    ensures var i := Pick(s, w).index; Next(s, w, i) && Begins(cfg, s, Schedule(cfg, s, w, now), w, i, now)
  {
    PickIsFrFcfs(s, w);
    ScheduleTakes(cfg, s, w, now);
  }

  lemma ScheduleObeys(cfg: Config, s: State, w: bool, now: nat)
    requires Inv(cfg, s) && s.writeMode == w && ClockOk(cfg, now)
    ensures ScheduleLaw(cfg, s, ScheduleIfDue(cfg, s, w, now), w, now)
  {
    var q := Q(s, w);
    SavedIsDue(q.nextScheduleCycle, q.nextScheduleIndex, q.entry, ScheduleKey, now);
    if Pick(s, w).At? {
      ScheduleBegins(cfg, s, w, now);
    } else {
      PickIsFrFcfs(s, w);
    }
  }

  lemma ProcessObeys(cfg: Config, s: State, w: bool, now: nat)
    requires Inv(cfg, s) && s.writeMode == w && now < NEVER
    ensures ProcessLaw(cfg, s, ProcessIfDue(cfg, s, w, now), w, now)
  {
    var q, t := Q(s, w), ProcessIfDue(cfg, s, w, now);
    var i := q.nextProcessIndex;
    SavedIsDue(q.nextProcessCycle, i, q.entry, ProcessKey, now);
    if q.nextProcessCycle <= now {
      EarliestIs(q.entry, i, q.nextProcessCycle);
      MatchedServable(s, w, i);
      ProcessIsServed(cfg, s, w, i, now);
    }
  }

  lemma EarliestIs(e: seq<Packet>, i: nat, c: nat)
    requires IsFirst(Keys(e, ProcessKey), At(i, c))
    ensures Earliest(e, i) && e[i].eventCycle == c
  {
    assert forall j :: 0 <= j < |e| ==> Keys(e, ProcessKey)[j] == ProcessKey(e[j]);
  }

  lemma ProcessIsServed(cfg: Config, s: State, w: bool, i: nat, now: nat)
    requires Shaped(s) && BufferReady(cfg, s) && Q(s, w).nextProcessIndex == i < SIZE
    requires Q(s, w).entry[i].scheduled && Servable(s, w, i)
    ensures Served(cfg, s, Process(cfg, s, w, now), w, i, now)
  {
  }

  lemma ScheduleKeepsMode(cfg: Config, s: State, w: bool, now: nat)
    requires Shaped(s)
    ensures ScheduleIfDue(cfg, s, w, now).writeMode == s.writeMode
    ensures ScheduleIfDue(cfg, s, w, now).buffer == s.buffer
  {
  }

  lemma ProcessKeepsMode(cfg: Config, s: State, w: bool, now: nat)
    requires Shaped(s) && BufferReady(cfg, s)
    ensures ProcessIfDue(cfg, s, w, now).writeMode == s.writeMode
  {
  }

  /** Only the queue of the mode is served. */
  lemma OperateIs(cfg: Config, s: State, now: nat)
    requires Shaped(s) && BufferReady(cfg, s)
    ensures var a := SwitchMode(cfg, s, now);
      BufferReady(cfg, a) &&
      Operate(cfg, s, now) == ProcessIfDue(cfg, ScheduleIfDue(cfg, a, a.writeMode, now), a.writeMode, now)
  {
    ResetKeepsBuffer(cfg, s.(writeMode := !s.writeMode), s.writeMode, SIZE, now);
    var a := SwitchMode(cfg, s, now);
    ScheduleKeepsMode(cfg, a, true, now);
    ProcessKeepsMode(cfg, ScheduleIfDue(cfg, a, true, now), true, now);
    var t := Serve(cfg, a, true, now);
    if a.writeMode {
      assert Serve(cfg, t, false, now) == t;
    } else {
      assert t == a;
    }
  }

  lemma ServiceObeys(cfg: Config, a: State, w: bool, now: nat)
    requires Inv(cfg, a) && a.writeMode == w && ClockOk(cfg, now)
    ensures var b := ScheduleIfDue(cfg, a, w, now);
      ScheduleLaw(cfg, a, b, w, now) && ProcessLaw(cfg, b, ProcessIfDue(cfg, b, w, now), w, now)
  {
    ServeInv(cfg, a, w, now);
    ScheduleObeys(cfg, a, w, now);
    ScheduleKeepsMode(cfg, a, w, now);
    ProcessObeys(cfg, ScheduleIfDue(cfg, a, w, now), w, now);
  }

  lemma ServiceKeepsMode(cfg: Config, s: State, now: nat)
    requires Shaped(s) && BufferReady(cfg, s)
    ensures Operate(cfg, s, now).writeMode == SwitchMode(cfg, s, now).writeMode
  {
    var a := SwitchMode(cfg, s, now);
    OperateIs(cfg, s, now);
    ScheduleKeepsMode(cfg, a, a.writeMode, now);
    ProcessKeepsMode(cfg, ScheduleIfDue(cfg, a, a.writeMode, now), a.writeMode, now);
  }

  lemma CycleStages(cfg: Config, s: State, now: nat) returns (a: State, b: State)
    requires Inv(cfg, s) && ClockOk(cfg, now)
    ensures a == SwitchMode(cfg, s, now) && Stages(cfg, s, a, b, Operate(cfg, s, now), now)
  {
    a := SwitchMode(cfg, s, now);
    b := ScheduleIfDue(cfg, a, a.writeMode, now);
    SwitchModeInv(cfg, s, now);
    SwitchObeys(cfg, s, now);
    ServiceObeys(cfg, a, a.writeMode, now);
    OperateIs(cfg, s, now);
  }

  /** A whole cycle. */
  lemma CycleObeys(cfg: Config, s: State, now: nat)
    requires Inv(cfg, s) && ClockOk(cfg, now)
    ensures CycleLaw(cfg, s, Operate(cfg, s, now), now)
  {
    var a, b := CycleStages(cfg, s, now);
  }

  /** What a cycle owes the request in slot i of the queue it serves, whose access ended before now. */
  ghost predicate Honoured(cfg: Config, s: State, t: State, i: nat, now: nat)
    requires Shaped(s) && Shaped(t) && i < SIZE
  {
    var w := s.writeMode;
    var p := Q(s, w).entry[i];
    var k, k' := s.banks[p.address % 8], t.banks[p.address % 8];
    if k.cycleAvailable > now || s.dbus > now then
      && t.transfers == s.transfers && t.returned == s.returned && Q(t, w).entry[i] == p
      && k' == if k.cycleAvailable > now then k else k.(cycleAvailable := s.dbus)
    else
      && t.transfers == s.transfers + [Transfer(now, w, s.switches)] && t.dbus == now + cfg.returnTime
      && Q(t, w).entry[i] == EMPTY && !k'.working && k'.openRow == k.openRow
      && t.returned == s.returned + (if !w && p.fillLevel <= FILL_LLC then [p.address] else [])
  }

  /** Scheduling something else first makes no difference. */
  lemma ServedHonours(cfg: Config, s: State, b: State, t: State, i: nat, now: nat)
    requires Shaped(s) && Shaped(b) && Shaped(t) && i < SIZE && Served(cfg, b, t, s.writeMode, i, now)
    requires var e := Q(s, s.writeMode).entry[i];
      Q(b, s.writeMode).entry[i] == e && b.banks[e.address % 8] == s.banks[e.address % 8]
    requires b.transfers == s.transfers && b.returned == s.returned && b.dbus == s.dbus && b.switches == s.switches
    ensures Honoured(cfg, s, t, i, now)
  {
  }

  lemma StageIsServed(cfg: Config, s: State, b: State, t: State, i: nat, now: nat)
    requires Shaped(s) && Shaped(b) && Shaped(t)
    requires ScheduleLaw(cfg, s, b, s.writeMode, now) && ProcessLaw(cfg, b, t, s.writeMode, now)
    requires var e := Q(s, s.writeMode).entry;
      Earliest(e, i) && e[i].eventCycle < now && s.banks[e[i].address % 8].working
    ensures Honoured(cfg, s, t, i, now)
  {
    StaysEarliest(cfg, s, b, s.writeMode, i, now);
    EarliestIsServed(cfg, b, t, s.writeMode, i, now);
    ServedHonours(cfg, s, b, t, i, now);
  }

  /** A cycle that stays in its mode serves the earliest scheduled request of that mode, if its access ended before
      now: once bank and bus are free its data moves, a read is answered, slot and bank are free again and the row is
      still open; while only the bus is busy, the bank waits for the bus. */
  lemma DueIsServed(cfg: Config, s: State, i: nat, now: nat)
    requires Inv(cfg, s) && ClockOk(cfg, now) && Operate(cfg, s, now).writeMode == s.writeMode
    requires var e := Q(s, s.writeMode).entry; Earliest(e, i) && e[i].eventCycle < now
    ensures Honoured(cfg, s, Operate(cfg, s, now), i, now)
  {
    assert s.banks[Q(s, s.writeMode).entry[i].address % 8].working by {
      assert EntryOk(s, s.writeMode, i);
    }
    ServiceKeepsMode(cfg, s, now);
    var a, b := CycleStages(cfg, s, now);
    assert a == s by {
      assert ModeLaw(cfg, s, a, now);
    }
    StageIsServed(cfg, s, b, Operate(cfg, s, now), i, now);
  }

  lemma FindIs(e: seq<Packet>, address: nat)
    ensures Find(e, address) < |e| <==> exists j :: 0 <= j < |e| && e[j].address == address
  {
  }

  lemma QueuedIs(q: Queue, w: bool, p: Packet)
    requires |q.entry| == SIZE && RequestsOk(q, w) && q.occupancy < SIZE
    ensures Queued(q, Enqueue(q, p), p)
  {
    Sequences.CountBounds(q.entry, IsOccupied);
    assert Find(q.entry, 0) < SIZE;
  }

  lemma ReadObeys(cfg: Config, s: State, p: Packet, warm: bool)
    requires Inv(cfg, s) && Admissible(cfg, s, p)
    ensures ReadLaw(cfg, s, AddRq(cfg, s, p, warm), p, warm)
  {
    FindIs(s.wq.entry, p.address);
    FindIs(s.rq.entry, p.address);
    if Forwarded(cfg, s, p, warm) {
      assert Answer(s, p).returned == s.returned + [p.address];
    } else if Find(s.rq.entry, p.address) < SIZE {
      assert Joined(s.rq, AddRq(cfg, s, p, warm).rq, Find(s.rq.entry, p.address), p);
    } else {
      QueuedIs(s.rq, false, p);
    }
  }

  /** A warm read of a line that neither queue holds. */
  lemma AnsweredIffBuffered(cfg: Config, s: State, p: Packet)
    requires Inv(cfg, s) && Admissible(cfg, s, p) && cfg.bufferOn
    requires forall j :: 0 <= j < SIZE ==> s.wq.entry[j].address != p.address && s.rq.entry[j].address != p.address
    ensures var t := AddRq(cfg, s, p, true);
      if p.address in s.buffer[cfg.setIndex(p.address) % cfg.bufferSets]
      then t == s.(returned := s.returned + (if p.fillLevel <= FILL_LLC then [p.address] else []))
      else t.returned == s.returned && Queued(s.rq, t.rq, p)
  {
    ReadObeys(cfg, s, p, true);
    assert s.returned + [] == s.returned;
  }

  lemma WriteObeys(cfg: Config, s: State, p: Packet, warm: bool)
    requires Inv(cfg, s) && AdmissibleWrite(s, p)
    ensures WriteLaw(s, AddWq(s, p, warm), p, warm)
  {
    FindIs(s.wq.entry, p.address);
    QueuedIs(s.wq, true, p);
  }
}
