/** The DRAM controller's objects, updated in place as src/dram_controller.cc does, each method tied to the
    value function of DramModel it computes. */
module DramController {
  import opened FirstMinimum
  import opened Sequences
  import opened DramModel
  import opened DramInvariant
  import opened DramLaws
  import Recency

  class PacketQueue {
    const isWq: bool
    const entry: array<Packet>
    var occupancy: nat
    var nextScheduleCycle: nat
    var nextScheduleIndex: nat
    var nextProcessCycle: nat
    var nextProcessIndex: nat

    ghost function Value(): Queue
      reads this, entry
    {
      Queue(entry[..], occupancy, nextScheduleCycle, nextScheduleIndex, nextProcessCycle, nextProcessIndex)
    }

    constructor (isWq: bool)
      ensures fresh(entry) && this.isWq == isWq && entry.Length == SIZE && Value() == EmptyQueue()
    {
      this.isWq := isWq;
      entry := new Packet[SIZE](_ => EMPTY);
      occupancy, nextScheduleCycle, nextScheduleIndex, nextProcessCycle, nextProcessIndex := 0, NEVER, 0, NEVER, 0;
      new;
      assert entry[..] == EmptyQueue().entry;
    }

    method UpdateScheduleCycle()
      modifies `nextScheduleCycle, `nextScheduleIndex
      ensures Value() == UpdateSchedule(old(Value()))
    {
      ghost var keys := Keys(entry[..], ScheduleKey);
      var minCycle: nat, minIndex: nat := NEVER, entry.Length;
      for i := 0 to entry.Length
        invariant Tracks(FirstMin(keys[..i]), minCycle, minIndex, entry.Length)
      {
        FirstMinStep(keys, i);
        assert keys[i] == ScheduleKey(entry[i]);
        if entry[i].address != 0 && !entry[i].scheduled && entry[i].eventCycle < minCycle {
          minCycle, minIndex := entry[i].eventCycle, i;
        }
      }
      assert keys[..entry.Length] == keys;
      nextScheduleCycle, nextScheduleIndex := minCycle, minIndex;
    }

    method UpdateProcessCycle()
      modifies `nextProcessCycle, `nextProcessIndex
      ensures Value() == UpdateProcess(old(Value()))
    {
      ghost var keys := Keys(entry[..], ProcessKey);
      var minCycle: nat, minIndex: nat := NEVER, entry.Length;
      for i := 0 to entry.Length
        invariant Tracks(FirstMin(keys[..i]), minCycle, minIndex, entry.Length)
      {
        FirstMinStep(keys, i);
        assert keys[i] == ProcessKey(entry[i]);
        if entry[i].scheduled && entry[i].eventCycle < minCycle {
          minCycle, minIndex := entry[i].eventCycle, i;
        }
      }
      assert keys[..entry.Length] == keys;
      nextProcessCycle, nextProcessIndex := minCycle, minIndex;
    }

    /** check_dram_queue; with address 0, the search for an empty slot. */
    method Check(address: nat) returns (index: int)
      ensures index == var i := Find(entry[..], address); if i < entry.Length then i else -1
    {
      for i := 0 to entry.Length
        invariant forall j :: 0 <= j < i ==> entry[j].address != address
      {
        if entry[i].address == address {
          return i;
        }
      }
      return -1;
    }

    method Add(p: Packet)
      modifies this, entry
      ensures Value() == Enqueue(old(Value()), p)
    {
      var i := Check(0);
      if i != -1 {
        entry[i] := p;
        occupancy := occupancy + 1;
      }
      UpdateScheduleCycle();
    }

    method Remove(i: nat)
      requires i < entry.Length && occupancy > 0
      modifies `occupancy, entry
      ensures Value() == old(Value()).(entry := old(entry[..])[i := EMPTY], occupancy := Dec(old(occupancy)))
    {
      entry[i] := EMPTY;
      occupancy := occupancy - 1;
    }

    method Retire(i: nat)
      requires i < entry.Length && occupancy > 0
      modifies `occupancy, `nextProcessCycle, `nextProcessIndex, entry
      ensures Value() == var q := old(Value());
        UpdateProcess(q.(entry := q.entry[i := EMPTY], occupancy := Dec(q.occupancy)))
    {
      Remove(i);
      UpdateProcessCycle();
    }
  }

  /** The running minimum of a scan over `size` entries. */
  ghost predicate Tracks(f: Found, cycle: nat, index: nat, size: nat) {
    match f
    case At(i, c) => cycle == c && index == i
    case Nothing => cycle == NEVER && index == size
  }

  lemma ScheduleIs(cfg: Config, s: State, w: bool, now: nat, i: nat, latency: nat)
    requires Shaped(s) && Pick(s, w).At? && Pick(s, w).index == i
    requires var p := Q(s, w).entry[i]; latency == Latency(cfg, ChargedAsHit(cfg, s, w, p), p, now)
    ensures Schedule(cfg, s, w, now) == Occupy(s, w, i, now + latency)
  {
  }

  class MemoryController {
    const cfg: Config
    const rq: PacketQueue
    const wq: PacketQueue
    const bank: array<Bank>
    var writeMode: bool
    var scheduledReads: nat
    var scheduledWrites: nat
    var dbus: nat
    var buffer: seq<seq<nat>>
    ghost var switches: nat
    ghost var returned: seq<nat>
    ghost var buffered: seq<nat>
    ghost var transfers: seq<Transfer>

    ghost const Repr: set<object> := {this, rq, rq.entry, wq, wq.entry, bank}

    ghost function Value(): State
      reads this, rq, rq.entry, wq, wq.entry, bank
    {
      State(rq.Value(), wq.Value(), bank[..], writeMode, scheduledReads, scheduledWrites, dbus, switches,
            buffer, returned, buffered, transfers)
    }

    /** The parts are separate objects of the right sizes. */
    ghost predicate Wired()
      reads this, rq, wq
    {
      && rq != wq && rq.entry != wq.entry && !rq.isWq && wq.isWq
      && rq.entry.Length == SIZE && wq.entry.Length == SIZE && bank.Length == BANKS
    }

    ghost predicate Valid()
      reads this, rq, rq.entry, wq, wq.entry, bank
    {
      Wired() && Inv(cfg, Value())
    }

    constructor (cfg: Config)
      requires 0 < cfg.bufferSets && 0 < cfg.bufferAssoc
      ensures Valid() && fresh(Repr) && this.cfg == cfg && Value() == Initial(cfg)
    {
      this.cfg := cfg;
      rq := new PacketQueue(false);
      wq := new PacketQueue(true);
      bank := new Bank[BANKS](_ => Bank(0, NO_ROW, false, false, false, -1));
      writeMode, scheduledReads, scheduledWrites, dbus := false, 0, 0, 0;
      buffer := seq(cfg.bufferSets, _ => []);
      switches, returned, buffered, transfers := 0, [], [], [];
      new;
      assert bank[..] == Initial(cfg).banks;
      InitialInv(cfg);
    }

    ghost predicate Mine(q: PacketQueue) {
      q == rq || q == wq
    }

    // ---------- reset_remain_requests

    method ResetEntry(q: PacketQueue, i: nat, now: nat)
      requires Wired() && Mine(q) && i < SIZE && Servable(Value(), q.isWq, i)
      modifies bank, q.entry, `scheduledReads, `scheduledWrites
      ensures Value() == ResetOne(cfg, old(Value()), q.isWq, i, now)
    {
      if q.entry[i].scheduled {
        var b := BankOf(q.entry[i].address);
        var k := bank[b];
        var open := (k.cycleAvailable - cfg.tCAS) % 0x1_0000_0000_0000_0000 <= now;
        k := k.(openRow := if open then RowOf(q.entry[i].address) else NO_ROW);
        k := k.(requestIndex := -1, working := false, cycleAvailable := now);
        if k.isWrite {
          scheduledWrites := scheduledWrites - 1;
          k := k.(isWrite := false);
        } else if k.isRead {
          scheduledReads := scheduledReads - 1;
          k := k.(isRead := false);
        }
        bank[b] := k;
        q.entry[i] := q.entry[i].(scheduled := false, eventCycle := now);
      }
    }

    method ResetEntries(q: PacketQueue, now: nat)
      requires Wired() && Matched(Value()) && Mine(q) && now < NEVER
      modifies bank, q.entry, `scheduledReads, `scheduledWrites
      ensures Value() == ResetUpTo(cfg, old(Value()), q.isWq, SIZE, now)
    {
      ghost var s := Value();
      for i := 0 to SIZE
        invariant Value() == ResetUpTo(cfg, s, q.isWq, i, now)
      {
        ResetUpToMatched(cfg, s, q.isWq, i, now);
        MatchedServable(Value(), q.isWq, i);
        ResetEntry(q, i, now);
      }
    }

    method UpdateCycles()
      requires Wired()
      modifies rq, wq
      ensures Value() == var s := old(Value());
        s.(rq := UpdateProcess(UpdateSchedule(s.rq)), wq := UpdateProcess(UpdateSchedule(s.wq)))
    {
      rq.UpdateScheduleCycle();
      wq.UpdateScheduleCycle();
      rq.UpdateProcessCycle();
      wq.UpdateProcessCycle();
    }

    method ResetRemainRequests(q: PacketQueue, now: nat)
      requires Wired() && Matched(Value()) && Mine(q) && now < NEVER
      modifies Repr
      ensures Value() == Reset(cfg, old(Value()), q.isWq, now)
    {
      ghost var s := Value();
      ResetEntries(q, now);
      ResetCounts(cfg, s, q.isWq, now);
      // the sanity check at the end of the reset
      assert if q.isWq then scheduledWrites == 0 else scheduledReads == 0;
      UpdateCycles();
    }

    // ---------- schedule

    /** One pass of the scheduler: the oldest waiting request on an idle bank, or among row hits only. */
    method Oldest(q: PacketQueue, hitsOnly: bool) returns (index: int)
      requires Wired() && Mine(q)
      ensures var s := Value();
        var f := FirstMin(Keys(q.entry[..], if hitsOnly then p => HitKey(s, p) else p => AnyKey(s, p)));
        index == if f.At? then f.index else -1
    {
      ghost var s := Value();
      ghost var keys := Keys(q.entry[..], if hitsOnly then p => HitKey(s, p) else p => AnyKey(s, p));
      var oldestCycle := NEVER;
      index := -1;
      for i := 0 to SIZE
        invariant match FirstMin(keys[..i])
          case At(j, c) => index == j && oldestCycle == c
          case Nothing => index == -1 && oldestCycle == NEVER
      {
        var p := q.entry[i];
        FirstMinStep(keys, i);
        assert keys[i] == if hitsOnly then HitKey(s, p) else AnyKey(s, p);
        if p.scheduled || p.address == 0 || bank[BankOf(p.address)].working {
          continue;
        }
        if hitsOnly && bank[BankOf(p.address)].openRow != RowOf(p.address) {
          continue;
        }
        if p.eventCycle < oldestCycle {
          index, oldestCycle := i, p.eventCycle;
        }
      }
      assert keys[..SIZE] == keys;
    }

    /** Both passes, and whether the choice is charged as a row hit. */
    method Choose(q: PacketQueue) returns (oldest: int, rowBufferHit: bool)
      requires Wired() && Mine(q)
      ensures oldest == var f := Pick(Value(), q.isWq); if f.At? then f.index else -1
      ensures oldest != -1 ==> rowBufferHit == ChargedAsHit(cfg, Value(), q.isWq, q.entry[oldest])
    {
      ghost var s := Value();
      ghost var hits := Keys(q.entry[..], p => HitKey(s, p));
      FirstMinIsFirst(hits);
      oldest := Oldest(q, true);
      rowBufferHit := oldest != -1;
      if oldest == -1 {
        oldest := Oldest(q, false);
      }
      assert oldest != -1 ==> hits[oldest] == HitKey(s, q.entry[oldest]);
      if !q.isWq && cfg.forceRowMiss {
        rowBufferHit := false;
      }
    }

    method Take(q: PacketQueue, i: nat, ready: nat)
      requires Wired() && Mine(q) && i < SIZE
      modifies q, q.entry, bank, `scheduledReads, `scheduledWrites
      ensures Value() == Occupy(old(Value()), q.isWq, i, ready)
    {
      var p := q.entry[i];
      bank[BankOf(p.address)] := Bank(ready, RowOf(p.address), true, q.isWq, !q.isWq, i);
      if q.isWq {
        scheduledWrites := scheduledWrites + 1;
      } else {
        scheduledReads := scheduledReads + 1;
      }
      q.entry[i] := p.(scheduled := true, eventCycle := ready);
      q.UpdateScheduleCycle();
      q.UpdateProcessCycle();
    }

    method ScheduleNext(q: PacketQueue, now: nat)
      requires Wired() && Mine(q)
      modifies q, q.entry, bank, `scheduledReads, `scheduledWrites
      ensures Value() == Schedule(cfg, old(Value()), q.isWq, now)
    {
      ghost var s := Value();
      var oldest, rowBufferHit := Choose(q);
      if oldest != -1 {
        assert q.entry[oldest] == Q(s, q.isWq).entry[oldest];
        var latency := AccessLatency(q.entry[oldest], rowBufferHit, now);
        ScheduleIs(cfg, s, q.isWq, now, oldest, latency);
        Take(q, oldest, now + latency);
      }
    }

    method AccessLatency(p: Packet, rowBufferHit: bool, now: nat) returns (latency: nat)
      ensures latency == Latency(cfg, rowBufferHit, p, now)
    {
      if rowBufferHit {
        latency := cfg.tCAS;
      } else {
        latency := cfg.tRP + cfg.tRCD + cfg.tCAS;
      }
      if cfg.pseudoDirect && p.isData {
        if p.kind == Load || (p.kind == Prefetch && cfg.pseudoOnPrefetch) {
          if cfg.inPartition(p.robPosition, now) {
            if latency > cfg.lookupLatency {
              latency := latency - cfg.lookupLatency;
            } else {
              latency := 0;
            }
          }
        }
      }
    }

    // ---------- DDRP buffer

    method InsertDdrpBuffer(address: nat)
      requires BufferReady(cfg, Value())
      modifies `buffer, `buffered
      ensures Value() == InsertBuffer(cfg, old(Value()), address)
    {
      var k := BufferSet(cfg, address);
      var d := buffer[k];
      if address in d {
        var i := Recency.IndexOf(d, address);
        Recency.WithoutIsErase(d, i);
        d := d[..i] + d[i + 1..] + [address];
      } else {
        if |d| >= cfg.bufferAssoc {
          d := d[1..];
        }
        d := d + [address];
      }
      buffer := buffer[k := d];
      buffered := buffered + [address];
    }

    // ---------- process

    method DeliverData(q: PacketQueue, p: Packet)
      requires Wired() && BufferReady(cfg, Value()) && Mine(q)
      requires !q.isWq && p.fillLevel >= FILL_DDRP ==> p.kind.Prefetch?
      modifies `returned, `buffer, `buffered
      ensures Value() == Deliver(cfg, old(Value()), q.isWq, p)
    {
      if !q.isWq {
        if p.fillLevel < FILL_DDRP {
          returned := returned + [p.address];
        } else {
          // this has to be a DDRP prefetch
          assert p.kind == Prefetch;
          if cfg.bufferOn {
            InsertDdrpBuffer(p.address);
          }
        }
      }
    }

    /** The data crosses the bus to whoever asked for it. */
    method MoveData(q: PacketQueue, p: Packet, now: nat)
      requires Wired() && BufferReady(cfg, Value()) && Mine(q)
      requires !q.isWq && p.fillLevel >= FILL_DDRP ==> p.kind.Prefetch?
      modifies `returned, `buffer, `buffered, `dbus, `transfers
      ensures Value() == var s := old(Value()); Deliver(cfg, s, q.isWq, p).(
        dbus := now + cfg.returnTime, transfers := s.transfers + [Transfer(now, q.isWq, s.switches)])
    {
      DeliverData(q, p);
      dbus := now + cfg.returnTime;
      transfers := transfers + [Transfer(now, q.isWq, switches)];
    }

    method CompleteRequest(q: PacketQueue, i: nat, now: nat)
      requires Wired() && BufferReady(cfg, Value()) && Mine(q) && i < SIZE
      requires q.entry[i].scheduled && Servable(Value(), q.isWq, i)
      modifies Repr
      ensures Value() == Complete(cfg, old(Value()), q.isWq, i, now)
    {
      var p := q.entry[i];
      MoveData(q, p, now);
      FreeBank(q.isWq, BankOf(p.address));
      q.Retire(i);
    }

    method FreeBank(write: bool, b: nat)
      requires Wired() && b < BANKS && 0 < if write then scheduledWrites else scheduledReads
      modifies bank, `scheduledReads, `scheduledWrites
      ensures bank[..] == old(bank[..])[b := Idle(old(bank[b]))]
      ensures scheduledWrites == if write then Dec(old(scheduledWrites)) else old(scheduledWrites)
      ensures scheduledReads == if write then old(scheduledReads) else Dec(old(scheduledReads))
    {
      bank[b] := bank[b].(requestIndex := -1, working := false, isWrite := false, isRead := false);
      if write {
        scheduledWrites := scheduledWrites - 1;
      } else {
        scheduledReads := scheduledReads - 1;
      }
    }

    method ProcessNext(q: PacketQueue, now: nat)
      requires Wired() && BufferReady(cfg, Value()) && Mine(q) && q.nextProcessIndex < SIZE
      requires q.entry[q.nextProcessIndex].scheduled && Servable(Value(), q.isWq, q.nextProcessIndex)
      modifies Repr
      ensures Value() == Process(cfg, old(Value()), q.isWq, now)
      ensures Served(cfg, old(Value()), Value(), q.isWq, old(q.nextProcessIndex), now)
    {
      ghost var s := Value();
      var i := q.nextProcessIndex;
      var b := BankOf(q.entry[i].address);
      // the sanity check on the bank
      assert bank[b].requestIndex == i;
      if bank[b].cycleAvailable <= now {
        if dbus <= now {
          CompleteRequest(q, i, now);
        } else {
          bank[b] := bank[b].(cycleAvailable := dbus);
        }
      }
      ProcessIsServed(cfg, s, q.isWq, i, now);
    }

    // ---------- operate

    /** write_mode is already the new one; q is the queue being left. */
    method LeaveQueue(q: PacketQueue, now: nat)
      requires Wired() && Mine(q) && writeMode == !q.isWq && now < NEVER
      requires Matched(Value().(writeMode := q.isWq))
      modifies Repr
      ensures Value() == Switched(cfg, old(Value()).(writeMode := q.isWq), now)
    {
      SameEntriesMatched(Value().(writeMode := q.isWq), Value());
      ResetRemainRequests(q, now);
      dbus := dbus + cfg.turnAround;
      switches := switches + 1;
    }

    method SwitchModes(now: nat)
      requires Valid() && ClockOk(cfg, now)
      modifies Repr
      ensures Value() == SwitchMode(cfg, old(Value()), now)
      ensures ModeLaw(cfg, old(Value()), Value(), now)
    {
      SwitchObeys(cfg, Value(), now);
      if !writeMode && (wq.occupancy >= HIGH_WM || (rq.occupancy == 0 && wq.occupancy > 0)) {
        writeMode := true;
        LeaveQueue(rq, now);
      } else if writeMode {
        if wq.occupancy == 0 {
          writeMode := false;
        } else if rq.occupancy > 0 && wq.occupancy < LOW_WM {
          writeMode := false;
        }
        if !writeMode {
          LeaveQueue(wq, now);
        }
      }
    }

    method ScheduleDue(q: PacketQueue, now: nat)
      requires Wired() && Mine(q)
      modifies q, q.entry, bank, `scheduledReads, `scheduledWrites
      ensures Value() == ScheduleIfDue(cfg, old(Value()), q.isWq, now)
    {
      if writeMode == q.isWq && q.nextScheduleIndex < SIZE {
        if q.nextScheduleCycle <= now {
          ScheduleNext(q, now);
        }
      }
    }

    method ProcessDue(q: PacketQueue, now: nat)
      requires Valid() && Mine(q) && now < NEVER
      modifies Repr
      ensures Value() == ProcessIfDue(cfg, old(Value()), q.isWq, now)
    {
      if writeMode == q.isWq && q.nextProcessIndex < SIZE {
        if q.nextProcessCycle <= now {
          ProcessChecks(cfg, Value(), q.isWq);
          MatchedServable(Value(), q.isWq, q.nextProcessIndex);
          ProcessNext(q, now);
        }
      }
    }

    method ServeQueue(q: PacketQueue, now: nat)
      requires Valid() && Mine(q) && ClockOk(cfg, now)
      modifies Repr
      ensures Valid() && Value() == Serve(cfg, old(Value()), q.isWq, now)
    {
      ServeInv(cfg, Value(), q.isWq, now);
      ScheduleDue(q, now);
      ProcessDue(q, now);
    }

    method Operate(now: nat)
      requires Valid() && ClockOk(cfg, now)
      modifies Repr
      ensures Valid() && Value() == DramModel.Operate(cfg, old(Value()), now)
      ensures CycleLaw(cfg, old(Value()), Value(), now)
    {
      CycleObeys(cfg, Value(), now);
      OperateInv(cfg, Value(), now);
      SwitchModes(now);
      ServeQueue(wq, now);
      ServeQueue(rq, now);
    }

    // ---------- requests

    method ReturnData(p: Packet)
      modifies `returned
      ensures Value() == Answer(old(Value()), p)
    {
      if p.instruction {
        returned := returned + [p.address];
      }
      if p.isData {
        returned := returned + [p.address];
      }
    }

    /** The three answers that do not need DRAM. */
    method Forward(p: Packet, warm: bool) returns (done: bool)
      requires Wired() && BufferReady(cfg, Value())
      modifies `returned
      ensures done == Forwarded(cfg, old(Value()), p, warm)
      ensures Value() == if done && ToCore(cfg, p) then Answer(old(Value()), p) else old(Value())
    {
      var toCore := !(cfg.enableDdrp && p.fillLevel >= FILL_DDRP);
      if !warm && toCore {
        ReturnData(p);
        return true;
      }
      var wqIndex := wq.Check(p.address);
      if wqIndex != -1 {
        if toCore {
          ReturnData(p);
        }
        return true;
      }
      if cfg.bufferOn && p.address in buffer[BufferSet(cfg, p.address)] {
        if toCore {
          ReturnData(p);
        }
        return true;
      }
      return false;
    }

    method AddRq(p: Packet, warm: bool) returns (merged: int)
      requires Valid() && Admissible(cfg, Value(), p)
      modifies Repr
      ensures Valid() && Value() == DramModel.AddRq(cfg, old(Value()), p, warm)
      ensures ReadLaw(cfg, old(Value()), Value(), p, warm)
      ensures merged != -1 ==> 0 <= merged < SIZE && rq.entry[merged].address == p.address
    {
      AddRqInv(cfg, Value(), p, warm);
      ReadObeys(cfg, Value(), p, warm);
      var done := Forward(p, warm);
      if done {
        return -1;
      }
      merged := MergeOrAdd(p);
    }

    method MergeOrAdd(p: Packet) returns (merged: int)
      requires Valid() && Admissible(cfg, Value(), p)
      modifies rq, rq.entry
      ensures rq.Value() == var q, i := old(rq.Value()), Find(old(rq.entry[..]), p.address);
        if i < SIZE then Merge(q, i, p) else Enqueue(q, p)
      ensures merged != -1 ==> 0 <= merged < SIZE && rq.entry[merged].address == p.address
    {
      merged := rq.Check(p.address);
      MergesOnlyWithDdrp(cfg, Value(), p);
      // request should not merge in the read queue, unless DDRP is turned on
      assert merged == -1 || cfg.enableDdrp;
      if merged != -1 {
        var e := rq.entry[merged];
        assert RequestOk(rq.Value(), false, merged);
        if e.fillLevel == FILL_DDRP {
          if p.fillLevel <= FILL_LLC {
            rq.entry[merged] := p.(scheduled := e.scheduled, eventCycle := e.eventCycle);
          } else {
            assert p.fillLevel == FILL_DDRP;
          }
        } else {
          assert e.fillLevel <= FILL_LLC;
          // the incoming packet and the queued one are never both LLC misses
          assert p.fillLevel > FILL_LLC;
          assert p.fillLevel == FILL_DDRP;
        }
      } else {
        rq.Add(p);
      }
    }

    method AddWq(p: Packet, warm: bool) returns (merged: int)
      requires Valid() && AdmissibleWrite(Value(), p)
      modifies Repr
      ensures Valid() && Value() == DramModel.AddWq(old(Value()), p, warm)
      ensures WriteLaw(old(Value()), Value(), p, warm)
      ensures merged != -1 ==> 0 <= merged < SIZE && wq.entry[merged].address == p.address
    {
      AddWqInv(cfg, Value(), p, warm);
      WriteObeys(cfg, Value(), p, warm);
      if !warm {
        return -1;
      }
      var index := wq.Check(p.address);
      if index != -1 {
        return index;
      }
      wq.Add(p);
      return -1;
    }
  }
}
