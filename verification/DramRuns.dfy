/** Properties of whole runs of the DRAM controller. */
module DramRuns {
  import opened FirstMinimum
  import opened Sequences
  import opened DramModel
  import opened DramInvariant
  import opened DramLaws
  import Recency

  datatype Op = Read(p: Packet, warm: bool) | Write(p: Packet, warm: bool) | Tick(now: nat)

  ghost predicate Allowed(cfg: Config, s: State, op: Op) {
    match op
    case Read(p, _) => Admissible(cfg, s, p)
    case Write(p, _) => AdmissibleWrite(s, p)
    case Tick(now) => ClockOk(cfg, now)
  }

  function Apply(cfg: Config, s: State, op: Op): (s': State)
    requires Shaped(s) && BufferReady(cfg, s)
    ensures Shaped(s') && BufferReady(cfg, s')
  {
    match op
    case Read(p, warm) => AddRq(cfg, s, p, warm)
    case Write(p, warm) => AddWq(s, p, warm)
    case Tick(now) => Operate(cfg, s, now)
  }

  function Run(cfg: Config, s: State, ops: seq<Op>): (s': State)
    requires Shaped(s) && BufferReady(cfg, s)
    ensures Shaped(s') && BufferReady(cfg, s')
  {
    if ops == [] then s else Apply(cfg, Run(cfg, s, ops[..|ops| - 1]), ops[|ops| - 1])
  }

  ghost predicate Legal(cfg: Config, s: State, ops: seq<Op>)
    requires Shaped(s) && BufferReady(cfg, s)
  {
    ops == [] || (Legal(cfg, s, ops[..|ops| - 1]) && Allowed(cfg, Run(cfg, s, ops[..|ops| - 1]), ops[|ops| - 1]))
  }

  lemma {:induction false} RunInv(cfg: Config, s: State, ops: seq<Op>)
    requires Inv(cfg, s) && Legal(cfg, s, ops)
    ensures Inv(cfg, Run(cfg, s, ops))
  {
    if ops != [] {
      var before, op := ops[..|ops| - 1], ops[|ops| - 1];
      RunInv(cfg, s, before);
      var r := Run(cfg, s, before);
      match op
      case Read(p, warm) => AddRqInv(cfg, r, p, warm);
      case Write(p, warm) => AddWqInv(cfg, r, p, warm);
      case Tick(now) => OperateInv(cfg, r, now);
    }
  }

  // ---------- what one cycle does to the logs

  /** A cycle switches modes at most once, then completes at most one transfer per direction it serves. */
  lemma SwitchLogs(cfg: Config, s: State, now: nat)
    requires Shaped(s)
    ensures var t := SwitchMode(cfg, s, now);
      && t.returned == s.returned && t.buffer == s.buffer && t.buffered == s.buffered && t.transfers == s.transfers
      && t.switches == s.switches + (if t.writeMode != s.writeMode then 1 else 0)
      && t.dbus == s.dbus + (if t.writeMode != s.writeMode then cfg.turnAround else 0)
  {
    ResetKeepsBuffer(cfg, s.(writeMode := !s.writeMode), s.writeMode, SIZE, now);
  }

  lemma ScheduleLogs(cfg: Config, s: State, w: bool, now: nat)
    requires Shaped(s)
    ensures var t := ScheduleIfDue(cfg, s, w, now);
      && t.returned == s.returned && t.buffer == s.buffer && t.buffered == s.buffered && t.transfers == s.transfers
      && t.switches == s.switches && t.dbus == s.dbus && t.writeMode == s.writeMode
      && t.rq.occupancy == s.rq.occupancy && t.wq.occupancy == s.wq.occupancy
  {
  }

  /** Scheduling rewrites one entry, keeping its address and fill level. */
  lemma ScheduleEntry(cfg: Config, s: State, now: nat) returns (i: nat, x: Packet)
    requires Shaped(s)
    ensures i < SIZE && ScheduleIfDue(cfg, s, false, now).rq.entry == s.rq.entry[i := x]
    ensures x.address == s.rq.entry[i].address && x.fillLevel == s.rq.entry[i].fillLevel
  {
    i := if Pick(s, false).At? then Pick(s, false).index else 0;
    x := ScheduleIfDue(cfg, s, false, now).rq.entry[i];
  }

  lemma EarliestScheduled(s: State, w: bool)
    requires Shaped(s) && MinimaOk(Q(s, w)) && Q(s, w).nextProcessCycle < NEVER
    ensures var q := Q(s, w);
      && q.nextProcessIndex < SIZE && q.entry[q.nextProcessIndex].eventCycle == q.nextProcessCycle
      && forall j :: 0 <= j < SIZE && q.entry[j].scheduled ==> q.nextProcessCycle <= q.entry[j].eventCycle
  {
    var q := Q(s, w);
    var keys := Keys(q.entry, ProcessKey);
    FirstMinIsFirst(keys);
    assert forall j :: 0 <= j < SIZE ==> keys[j] == ProcessKey(q.entry[j]);
  }

  /** A processing step either only pushes a bank back, or completes the queue's next request. */
  lemma ProcessCases(cfg: Config, s: State, w: bool, now: nat)
    requires Inv(cfg, s) && now < NEVER
    ensures var t, i := ProcessIfDue(cfg, s, w, now), Q(s, w).nextProcessIndex;
      if t.transfers == s.transfers then
        t == s.(banks := t.banks)
      else
        && i < SIZE && Q(s, w).entry[i].scheduled && Q(s, w).entry[i].address != 0
        && Q(s, w).entry[i].eventCycle <= now
        && (forall j :: 0 <= j < SIZE && Q(s, w).entry[j].scheduled ==>
              Q(s, w).entry[i].eventCycle <= Q(s, w).entry[j].eventCycle)
        && Q(t, w).entry == Q(s, w).entry[i := EMPTY] && Q(t, !w) == Q(s, !w)
        && 0 < Q(s, w).occupancy && Q(t, w).occupancy == Q(s, w).occupancy - 1
        && t.transfers == s.transfers + [Transfer(now, w, s.switches)]
        && t.returned == (if !w && Q(s, w).entry[i].fillLevel < FILL_DDRP
                          then s.returned + [Q(s, w).entry[i].address] else s.returned)
  {
    var t, i := ProcessIfDue(cfg, s, w, now), Q(s, w).nextProcessIndex;
    if t.transfers != s.transfers {
      ProcessChecks(cfg, s, w);
      assert EntryOk(s, w, i);
      CountBounds(Q(s, w).entry, IsOccupied);
      EarliestScheduled(s, w);
    }
  }

  // ---------- data bus

  /** Odd numbers of switches mean write mode, and the bus stays reserved for its return times and
      turn-arounds since every transfer. */
  ghost predicate ReservedSince(cfg: Config, s: State, i: int) {
    0 <= i < |s.transfers| ==>
      && s.transfers[i].write == (s.transfers[i].switches % 2 == 1)
      && s.transfers[i].switches <= s.switches
      && Apart(cfg, s.transfers[i], |s.transfers| - i, Transfer(s.dbus, s.writeMode, s.switches))
  }

  ghost predicate PairOk(cfg: Config, transfers: seq<Transfer>, i: int, j: int) {
    0 <= i < j < |transfers| ==> Apart(cfg, transfers[i], j - i, transfers[j])
  }

  ghost predicate BusOk(cfg: Config, s: State) {
    && s.writeMode == (s.switches % 2 == 1)
    && (forall i :: ReservedSince(cfg, s, i))
    && (forall i, j :: PairOk(cfg, s.transfers, i, j))
  }

  /** b comes at least n return times and one turn-around per mode switch between them after a. */
  ghost predicate Apart(cfg: Config, a: Transfer, n: nat, b: Transfer) {
    a.switches <= b.switches && b.time >= a.time + n * cfg.returnTime + (b.switches - a.switches) * cfg.turnAround
  }

  /** A mode switch adds a turn-around, a transfer a return time. */
  lemma ApartLater(cfg: Config, a: Transfer, n: nat, b: Transfer, turns: nat, uses: nat, c: Transfer)
    requires Apart(cfg, a, n, b) && turns <= 1 && uses <= 1
    requires c.switches == b.switches + turns && c.time >= b.time + turns * cfg.turnAround + uses * cfg.returnTime
    ensures Apart(cfg, a, n + uses, c)
  {
    var d := b.switches - a.switches;
    assert (d + turns) * cfg.turnAround == d * cfg.turnAround + turns * cfg.turnAround;
    assert (n + uses) * cfg.returnTime == n * cfg.returnTime + uses * cfg.returnTime;
  }

  lemma SwitchBus(cfg: Config, s: State, now: nat)
    requires Shaped(s) && BusOk(cfg, s)
    ensures BusOk(cfg, SwitchMode(cfg, s, now))
  {
    SwitchLogs(cfg, s, now);
    var t := SwitchMode(cfg, s, now);
    if t.writeMode == s.writeMode {
      SameBus(cfg, s, t);
    } else {
      TurnBus(cfg, s, t);
    }
  }

  /** One more turn-around. */
  lemma TurnBus(cfg: Config, s: State, t: State)
    requires BusOk(cfg, s) && t.transfers == s.transfers && t.dbus == s.dbus + cfg.turnAround
    requires t.writeMode == !s.writeMode && t.switches == s.switches + 1
    ensures BusOk(cfg, t)
  {
    var reserved, next := Transfer(s.dbus, s.writeMode, s.switches), Transfer(t.dbus, t.writeMode, t.switches);
    forall i ensures ReservedSince(cfg, t, i) {
      assert ReservedSince(cfg, s, i);
      if 0 <= i < |s.transfers| {
        ApartLater(cfg, s.transfers[i], |s.transfers| - i, reserved, 1, 0, next);
      }
    }
  }

  /** One more use of the bus, not before its reservation ended. */
  lemma TransferBus(cfg: Config, s: State, t: State, use: Transfer)
    requires BusOk(cfg, s) && t.transfers == s.transfers + [use] && s.dbus <= use.time
    requires use.write == s.writeMode && use.switches == s.switches
    requires t.dbus == use.time + cfg.returnTime && t.writeMode == s.writeMode && t.switches == s.switches
    ensures BusOk(cfg, t)
  {
    var n, reserved := |s.transfers|, Transfer(s.dbus, s.writeMode, s.switches);
    var next := Transfer(t.dbus, t.writeMode, t.switches);
    forall i ensures ReservedSince(cfg, t, i) && PairOk(cfg, t.transfers, i, n) {
      assert ReservedSince(cfg, s, i);
      if 0 <= i < n {
        ApartLater(cfg, s.transfers[i], n - i, reserved, 0, 0, use);
        ApartLater(cfg, s.transfers[i], n - i, use, 0, 1, next);
      }
    }
    forall i, j ensures PairOk(cfg, t.transfers, i, j) {
      assert PairOk(cfg, s.transfers, i, j) && PairOk(cfg, t.transfers, i, n);
    }
  }

  lemma SameBus(cfg: Config, s: State, t: State)
    requires BusOk(cfg, s) && t.transfers == s.transfers && t.dbus == s.dbus
    requires t.writeMode == s.writeMode && t.switches == s.switches
    ensures BusOk(cfg, t)
  {
    forall i ensures ReservedSince(cfg, t, i) { assert ReservedSince(cfg, s, i); }
  }

  lemma ProcessBus(cfg: Config, s: State, w: bool, now: nat)
    requires Shaped(s) && BufferReady(cfg, s) && BusOk(cfg, s)
    ensures BusOk(cfg, ProcessIfDue(cfg, s, w, now)) && ProcessIfDue(cfg, s, w, now).dbus >= s.dbus
  {
    var t := ProcessIfDue(cfg, s, w, now);
    if t.transfers != s.transfers {
      TransferBus(cfg, s, t, Transfer(now, w, s.switches));
    } else {
      SameBus(cfg, s, t);
    }
  }

  lemma ServeBus(cfg: Config, s: State, w: bool, now: nat)
    requires Shaped(s) && BufferReady(cfg, s) && BusOk(cfg, s)
    ensures BusOk(cfg, Serve(cfg, s, w, now)) && Serve(cfg, s, w, now).dbus >= s.dbus
  {
    ScheduleLogs(cfg, s, w, now);
    SameBus(cfg, s, ScheduleIfDue(cfg, s, w, now));
    ProcessBus(cfg, ScheduleIfDue(cfg, s, w, now), w, now);
  }

  lemma {:induction false} OperateBus(cfg: Config, s: State, now: nat)
    requires Shaped(s) && BufferReady(cfg, s) && BusOk(cfg, s)
    ensures BusOk(cfg, Operate(cfg, s, now)) && Operate(cfg, s, now).dbus >= s.dbus
  {
    SwitchLogs(cfg, s, now);
    SwitchBus(cfg, s, now);
    ServeBus(cfg, SwitchMode(cfg, s, now), true, now);
    ServeBus(cfg, Serve(cfg, SwitchMode(cfg, s, now), true, now), false, now);
  }

  lemma RequestBus(cfg: Config, s: State, op: Op)
    requires Shaped(s) && BufferReady(cfg, s) && BusOk(cfg, s) && !op.Tick?
    ensures BusOk(cfg, Apply(cfg, s, op)) && Apply(cfg, s, op).dbus == s.dbus
  {
    SameBus(cfg, s, Apply(cfg, s, op));
  }

  lemma {:induction false} RunBus(cfg: Config, s: State, ops: seq<Op>)
    requires Shaped(s) && BufferReady(cfg, s) && BusOk(cfg, s)
    ensures BusOk(cfg, Run(cfg, s, ops)) && Run(cfg, s, ops).dbus >= s.dbus
  {
    if ops != [] {
      var before, op := ops[..|ops| - 1], ops[|ops| - 1];
      RunBus(cfg, s, before);
      var r := Run(cfg, s, before);
      if op.Tick? {
        OperateBus(cfg, r, op.now);
      } else {
        RequestBus(cfg, r, op);
      }
    }
  }

  lemma BusGap(cfg: Config, s: State, i: nat, j: nat)
    requires BusOk(cfg, s) && i < j < |s.transfers|
    ensures var a, b := s.transfers[i], s.transfers[j];
      && b.time >= a.time + cfg.returnTime
      && (a.switches != b.switches || a.write != b.write ==> b.time >= a.time + cfg.returnTime + cfg.turnAround)
  {
    var a, b := s.transfers[i], s.transfers[j];
    assert PairOk(cfg, s.transfers, i, j) && ReservedSince(cfg, s, i) && ReservedSince(cfg, s, j);
    MulAtLeast(j - i, cfg.returnTime);
    if a.switches != b.switches {
      MulAtLeast(b.switches - a.switches, cfg.turnAround);
    }
  }

  /** Data-bus safety over whole runs: two transfers never overlap, and a read and a write, or any two with a
      mode switch between them, never come closer than the return time plus the turn-around time. */
  lemma {:induction false} BusSafety(cfg: Config, ops: seq<Op>, i: nat, j: nat)
    requires 0 < cfg.bufferSets && 0 < cfg.bufferAssoc
    requires i < j < |Run(cfg, Initial(cfg), ops).transfers|
    ensures var a, b := Run(cfg, Initial(cfg), ops).transfers[i], Run(cfg, Initial(cfg), ops).transfers[j];
      && b.time >= a.time + cfg.returnTime
      && (a.switches != b.switches || a.write != b.write ==> b.time >= a.time + cfg.returnTime + cfg.turnAround)
  {
    RunBus(cfg, Initial(cfg), ops);
    BusGap(cfg, Run(cfg, Initial(cfg), ops), i, j);
  }

  lemma MulAtLeast(n: nat, x: nat)
    requires 0 < n
    ensures n * x >= x
  {
    assert n * x == (n - 1) * x + x;
  }

  // ---------- exactly-once return

  predicate Wanted(p: Packet) {
    p.address != 0 && p.fillLevel <= FILL_LLC
  }

  /** LLC misses for address a among the queued requests. */
  function Pending(entry: seq<Packet>, a: nat): nat {
    if entry == [] then 0 else Pending(entry[..|entry| - 1], a) + One(entry[|entry| - 1], a)
  }

  function One(p: Packet, a: nat): nat {
    if Wanted(p) && p.address == a then 1 else 0
  }

  function Times(trace: seq<nat>, a: nat): nat {
    if trace == [] then 0 else Times(trace[..|trace| - 1], a) + (if trace[|trace| - 1] == a then 1 else 0)
  }

  lemma {:induction false} PendingUpdate(entry: seq<Packet>, i: nat, x: Packet, a: nat)
    requires i < |entry|
    ensures Pending(entry[i := x], a) + One(entry[i], a) == Pending(entry, a) + One(x, a)
  {
    var n := |entry| - 1;
    if i == n {
      assert entry[i := x][..n] == entry[..n];
    } else {
      PendingUpdate(entry[..n], i, x, a);
      assert entry[i := x][..n] == entry[..n][i := x];
    }
  }

  /** What the controller owes or has paid at address a. */
  function Account(s: State, a: nat): nat {
    Times(s.returned, a) + Pending(s.rq.entry, a)
  }

  /** Accepted LLC misses for address a. */
  function Accepted(ops: seq<Op>, a: nat): nat {
    if ops == [] then 0 else Accepted(ops[..|ops| - 1], a) + Misses(ops[|ops| - 1], a)
  }

  function Misses(op: Op, a: nat): nat {
    if op.Read? && op.p.fillLevel <= FILL_LLC && op.p.address == a then 1 else 0
  }

  lemma {:induction false} ResetPending(cfg: Config, s: State, w: bool, k: nat, now: nat, a: nat)
    requires Shaped(s) && k <= SIZE
    ensures Pending(ResetUpTo(cfg, s, w, k, now).rq.entry, a) == Pending(s.rq.entry, a)
  {
    if k > 0 {
      ResetPending(cfg, s, w, k - 1, now, a);
      var r := ResetUpTo(cfg, s, w, k - 1, now);
      var t := ResetOne(cfg, r, w, k - 1, now);
      if !w && t != r {
        PendingUpdate(r.rq.entry, k - 1, t.rq.entry[k - 1], a);
        assert t.rq.entry == r.rq.entry[k - 1 := t.rq.entry[k - 1]];
      }
    }
  }

  lemma SwitchAccount(cfg: Config, s: State, now: nat, a: nat)
    requires Shaped(s)
    ensures Account(SwitchMode(cfg, s, now), a) == Account(s, a)
  {
    SwitchLogs(cfg, s, now);
    ResetPending(cfg, s.(writeMode := !s.writeMode), s.writeMode, SIZE, now, a);
  }

  lemma ScheduleAccount(cfg: Config, s: State, w: bool, now: nat, a: nat)
    requires Shaped(s)
    ensures Account(ScheduleIfDue(cfg, s, w, now), a) == Account(s, a)
  {
    ScheduleLogs(cfg, s, w, now);
    if !w {
      var i, x := ScheduleEntry(cfg, s, now);
      PendingUpdate(s.rq.entry, i, x, a);
    }
  }

  lemma ServeAccount(cfg: Config, s: State, w: bool, now: nat, a: nat)
    requires Inv(cfg, s) && ClockOk(cfg, now)
    ensures Account(Serve(cfg, s, w, now), a) == Account(s, a)
  {
    ServeInv(cfg, s, w, now);
    ScheduleAccount(cfg, s, w, now, a);
    ProcessAccount(cfg, ScheduleIfDue(cfg, s, w, now), w, now, a);
  }

  lemma ProcessAccount(cfg: Config, s: State, w: bool, now: nat, a: nat)
    requires Inv(cfg, s) && now < NEVER
    ensures Account(ProcessIfDue(cfg, s, w, now), a) == Account(s, a)
  {
    ProcessCases(cfg, s, w, now);
    var t, i := ProcessIfDue(cfg, s, w, now), Q(s, w).nextProcessIndex;
    if t.transfers != s.transfers && !w {
      assert RequestOk(s.rq, false, i);
      PendingUpdate(s.rq.entry, i, EMPTY, a);
      if s.rq.entry[i].fillLevel < FILL_DDRP {
        assert t.returned[..|s.returned|] == s.returned;
      }
    }
  }

  lemma OperateAccount(cfg: Config, s: State, now: nat, a: nat)
    requires Inv(cfg, s) && ClockOk(cfg, now)
    ensures Account(Operate(cfg, s, now), a) == Account(s, a)
  {
    OperateInv(cfg, s, now);
    SwitchAccount(cfg, s, now, a);
    ServeAccount(cfg, SwitchMode(cfg, s, now), true, now, a);
    ServeAccount(cfg, Serve(cfg, SwitchMode(cfg, s, now), true, now), false, now, a);
  }

  lemma AnswerAccount(s: State, p: Packet, a: nat)
    requires p.instruction == !p.isData
    ensures Account(Answer(s, p), a) == Account(s, a) + (if p.address == a then 1 else 0)
  {
    assert Answer(s, p).returned == s.returned + [p.address];
    assert (s.returned + [p.address])[..|s.returned|] == s.returned;
  }

  lemma EnqueueAccount(cfg: Config, s: State, p: Packet, a: nat)
    requires Inv(cfg, s) && Admissible(cfg, s, p) && Find(s.rq.entry, p.address) == SIZE
    ensures Pending(Enqueue(s.rq, p).entry, a) == Pending(s.rq.entry, a) + One(p, a)
  {
    EnqueueOk(s.rq, false, p);
    PendingUpdate(s.rq.entry, Find(s.rq.entry, 0), p, a);
  }

  lemma MergeAccount(cfg: Config, s: State, p: Packet, a: nat)
    requires Admissible(cfg, s, p) && Find(s.rq.entry, p.address) < |s.rq.entry|
    ensures Pending(Merge(s.rq, Find(s.rq.entry, p.address), p).entry, a) == Pending(s.rq.entry, a) + One(p, a)
  {
    var i := Find(s.rq.entry, p.address);
    var x := p.(scheduled := s.rq.entry[i].scheduled, eventCycle := s.rq.entry[i].eventCycle);
    PendingUpdate(s.rq.entry, i, x, a);
  }

  lemma AddRqAccount(cfg: Config, s: State, p: Packet, warm: bool, a: nat)
    requires Inv(cfg, s) && Admissible(cfg, s, p)
    ensures Account(AddRq(cfg, s, p, warm), a) == Account(s, a) + Misses(Read(p, warm), a)
  {
    if Forwarded(cfg, s, p, warm) {
      AnswerAccount(s, p, a);
    } else if Find(s.rq.entry, p.address) < SIZE {
      MergeAccount(cfg, s, p, a);
    } else {
      EnqueueAccount(cfg, s, p, a);
    }
  }

  lemma {:induction false} RunAccount(cfg: Config, s: State, ops: seq<Op>, a: nat)
    requires Inv(cfg, s) && Legal(cfg, s, ops)
    ensures Account(Run(cfg, s, ops), a) == Account(s, a) + Accepted(ops, a)
  {
    if ops != [] {
      var before, op := ops[..|ops| - 1], ops[|ops| - 1];
      RunAccount(cfg, s, before, a);
      RunInv(cfg, s, before);
      var r := Run(cfg, s, before);
      match op
      case Read(p, warm) => AddRqAccount(cfg, r, p, warm, a);
      case Write(p, warm) =>
      case Tick(now) => OperateAccount(cfg, r, now, a);
    }
  }

  lemma {:induction false} EmptyPending(entry: seq<Packet>, a: nat)
    requires forall i :: 0 <= i < |entry| ==> !Wanted(entry[i])
    ensures Pending(entry, a) == 0
  {
    if entry != [] {
      EmptyPending(entry[..|entry| - 1], a);
    }
  }

  /** Exactly-once read return: over any run and for every address, the accepted LLC misses are the answers
      handed back plus the misses still queued. */
  lemma {:induction false} ExactlyOnce(cfg: Config, ops: seq<Op>, a: nat)
    requires 0 < cfg.bufferSets && 0 < cfg.bufferAssoc && Legal(cfg, Initial(cfg), ops)
    ensures var t := Run(cfg, Initial(cfg), ops);
      Accepted(ops, a) == Times(t.returned, a) + Pending(t.rq.entry, a)
  {
    InitialInv(cfg);
    RunAccount(cfg, Initial(cfg), ops, a);
    EmptyPending(EmptyQueue().entry, a);
  }

  // ---------- write bursts

  function WritesDone(transfers: seq<Transfer>): nat {
    if transfers == [] then 0 else
    WritesDone(transfers[..|transfers| - 1]) + (if transfers[|transfers| - 1].write then 1 else 0)
  }

  /** Only a completed write shrinks the write queue, and only by one. */
  lemma {:induction false} ServeDrain(cfg: Config, s: State, w: bool, now: nat)
    requires Inv(cfg, s) && ClockOk(cfg, now)
    ensures var t := Serve(cfg, s, w, now);
      t.wq.occupancy + WritesDone(t.transfers) == s.wq.occupancy + WritesDone(s.transfers)
  {
    ServeInv(cfg, s, w, now);
    ScheduleLogs(cfg, s, w, now);
    ProcessCases(cfg, ScheduleIfDue(cfg, s, w, now), w, now);
    var t := Serve(cfg, s, w, now);
    if t.transfers != s.transfers {
      assert t.transfers[..|s.transfers|] == s.transfers;
    }
  }

  lemma OperateDrain(cfg: Config, s: State, now: nat)
    requires Inv(cfg, s) && ClockOk(cfg, now)
    ensures var t := Operate(cfg, s, now);
      t.wq.occupancy + WritesDone(t.transfers) == s.wq.occupancy + WritesDone(s.transfers)
  {
    OperateInv(cfg, s, now);
    SwitchLogs(cfg, s, now);
    SwitchOccupancy(cfg, s, now);
    ServeDrain(cfg, SwitchMode(cfg, s, now), true, now);
    ServeDrain(cfg, Serve(cfg, SwitchMode(cfg, s, now), true, now), false, now);
  }

  lemma SwitchOccupancy(cfg: Config, s: State, now: nat)
    requires Inv(cfg, s) && now < NEVER
    ensures SwitchMode(cfg, s, now).wq.occupancy == s.wq.occupancy
  {
    if EntersWriteMode(s) || LeavesWriteMode(s) {
      var flipped := s.(writeMode := !s.writeMode);
      SameEntriesMatched(s, flipped);
      ResetUpToMatched(cfg, flipped, s.writeMode, SIZE, now);
      ResetKeepsBuffer(cfg, flipped, s.writeMode, SIZE, now);
    }
  }

  /** 1 if op puts a write into the queue: before warmup it is dropped, and a duplicate address merges. */
  function Queues(s: State, op: Op): nat {
    if op.Write? && op.warm && Find(s.wq.entry, op.p.address) == |s.wq.entry| then 1 else 0
  }

  function WritesQueued(cfg: Config, s: State, ops: seq<Op>): nat
    requires Shaped(s) && BufferReady(cfg, s)
  {
    if ops == [] then 0 else
    WritesQueued(cfg, s, ops[..|ops| - 1]) + Queues(Run(cfg, s, ops[..|ops| - 1]), ops[|ops| - 1])
  }

  lemma RequestDrain(cfg: Config, s: State, op: Op)
    requires Inv(cfg, s) && Allowed(cfg, s, op) && !op.Tick?
    ensures var t := Apply(cfg, s, op);
      t.wq.occupancy == s.wq.occupancy + Queues(s, op) && t.transfers == s.transfers
  {
    if Queues(s, op) == 1 {
      CountBounds(s.wq.entry, IsOccupied);
    }
  }

  /** Over any run the writes queued are the writes completed plus those still in the queue. */
  lemma {:induction false} RunDrain(cfg: Config, s: State, ops: seq<Op>)
    requires Inv(cfg, s) && Legal(cfg, s, ops)
    ensures var t := Run(cfg, s, ops);
      t.wq.occupancy + WritesDone(t.transfers) ==
      s.wq.occupancy + WritesDone(s.transfers) + WritesQueued(cfg, s, ops)
  {
    if ops != [] {
      var before, op := ops[..|ops| - 1], ops[|ops| - 1];
      RunDrain(cfg, s, before);
      RunInv(cfg, s, before);
      var r := Run(cfg, s, before);
      if op.Tick? {
        OperateDrain(cfg, r, op.now);
      } else {
        RequestDrain(cfg, r, op);
      }
    }
  }

  /** Write-drain hysteresis: a burst that begins in a cycle with 56 writes queued and is given up in a cycle with
      writes still queued has retired at least nine of them, whatever arrived meanwhile. */
  lemma {:induction false} BurstRetiresWrites(cfg: Config, s: State, first: nat, ops: seq<Op>, last: nat)
    requires Inv(cfg, s) && ClockOk(cfg, first) && Legal(cfg, Operate(cfg, s, first), ops) && ClockOk(cfg, last)
    ensures var u := Operate(cfg, s, first); var t := Run(cfg, u, ops);
      && !s.writeMode && u.writeMode && s.wq.occupancy >= 56
      && t.writeMode && !Operate(cfg, t, last).writeMode && t.wq.occupancy > 0 ==>
        WritesDone(t.transfers) - WritesDone(s.transfers) >= 9
  {
    DrainedSince(cfg, s, first, ops);
    var t := Run(cfg, Operate(cfg, s, first), ops);
    if t.writeMode && !Operate(cfg, t, last).writeMode && t.wq.occupancy > 0 {
      LeavesBelow48(cfg, t, last);
    }
  }

  lemma DrainedSince(cfg: Config, s: State, first: nat, ops: seq<Op>)
    requires Inv(cfg, s) && ClockOk(cfg, first) && Legal(cfg, Operate(cfg, s, first), ops)
    ensures var t := Run(cfg, Operate(cfg, s, first), ops);
      Inv(cfg, t) && t.wq.occupancy + WritesDone(t.transfers) >= s.wq.occupancy + WritesDone(s.transfers)
  {
    var u := Operate(cfg, s, first);
    OperateInv(cfg, s, first);
    OperateDrain(cfg, s, first);
    RunDrain(cfg, u, ops);
    RunInv(cfg, u, ops);
  }

  lemma LeavesBelow48(cfg: Config, t: State, now: nat)
    requires Inv(cfg, t) && ClockOk(cfg, now) && t.writeMode && !Operate(cfg, t, now).writeMode && t.wq.occupancy > 0
    ensures t.wq.occupancy < 48
  {
    SwitchObeys(cfg, t, now);
    ServiceKeepsMode(cfg, t, now);
  }

  // ---------- DDRP buffer

  /** The buffered addresses that fall into set k. */
  function InSet(cfg: Config, k: nat, trace: seq<nat>): seq<nat>
    requires 0 < cfg.bufferSets
  {
    Filter(trace, a => BufferSet(cfg, a) == k)
  }

  ghost predicate BufferOk(cfg: Config, s: State)
    requires BufferReady(cfg, s)
  {
    forall k :: 0 <= k < cfg.bufferSets ==>
      s.buffer[k] == Recency.Contents(InSet(cfg, k, s.buffered), cfg.bufferAssoc)
  }

  lemma InsertBufferOk(cfg: Config, s: State, a: nat)
    requires BufferReady(cfg, s) && BufferOk(cfg, s)
    ensures BufferOk(cfg, InsertBuffer(cfg, s, a))
  {
    var t := InsertBuffer(cfg, s, a);
    assert t.buffered[..|s.buffered|] == s.buffered;
    forall k | 0 <= k < cfg.bufferSets
      ensures t.buffer[k] == Recency.Contents(InSet(cfg, k, t.buffered), cfg.bufferAssoc)
    {
      var trace := InSet(cfg, k, s.buffered);
      assert s.buffer[k] == Recency.Contents(trace, cfg.bufferAssoc);
      if BufferSet(cfg, a) == k {
        assert InSet(cfg, k, t.buffered) == trace + [a];
        assert (trace + [a])[..|trace|] == trace;
      } else {
        assert InSet(cfg, k, t.buffered) == trace;
      }
    }
  }

  lemma {:induction false} ServeBuffer(cfg: Config, s: State, w: bool, now: nat)
    requires Shaped(s) && BufferReady(cfg, s) && BufferOk(cfg, s)
    ensures BufferOk(cfg, Serve(cfg, s, w, now))
  {
    ScheduleLogs(cfg, s, w, now);
    var r, t := ScheduleIfDue(cfg, s, w, now), Serve(cfg, s, w, now);
    if t.buffered != r.buffered {
      var a := Q(r, w).entry[Q(r, w).nextProcessIndex].address;
      assert t.buffered == InsertBuffer(cfg, r, a).buffered && t.buffer == InsertBuffer(cfg, r, a).buffer;
      InsertBufferOk(cfg, r, a);
    }
  }

  lemma OperateBuffer(cfg: Config, s: State, now: nat)
    requires Shaped(s) && BufferReady(cfg, s) && BufferOk(cfg, s)
    ensures BufferOk(cfg, Operate(cfg, s, now))
  {
    SwitchLogs(cfg, s, now);
    ServeBuffer(cfg, SwitchMode(cfg, s, now), true, now);
    ServeBuffer(cfg, Serve(cfg, SwitchMode(cfg, s, now), true, now), false, now);
  }

  lemma {:induction false} RunBuffer(cfg: Config, s: State, ops: seq<Op>)
    requires Shaped(s) && BufferReady(cfg, s) && BufferOk(cfg, s)
    ensures BufferOk(cfg, Run(cfg, s, ops))
  {
    if ops != [] {
      var before, op := ops[..|ops| - 1], ops[|ops| - 1];
      RunBuffer(cfg, s, before);
      var r := Run(cfg, s, before);
      if op.Tick? {
        OperateBuffer(cfg, r, op.now);
      } else {
        assert Apply(cfg, r, op).buffer == r.buffer && Apply(cfg, r, op).buffered == r.buffered;
      }
    }
  }

  /** A read finds its line in the DDRP buffer iff it was buffered before, and fewer than assoc distinct lines
      of its set were buffered since. */
  lemma {:induction false} BufferHitLaw(cfg: Config, ops: seq<Op>, address: nat)
    requires 0 < cfg.bufferSets && 0 < cfg.bufferAssoc
    ensures var t := Run(cfg, Initial(cfg), ops);
      var trace := InSet(cfg, BufferSet(cfg, address), t.buffered);
      LookupBuffer(cfg, t, address)
      <==> address in trace && |Recency.DistinctSince(trace, address)| < cfg.bufferAssoc
  {
    RunBuffer(cfg, Initial(cfg), ops);
    var t := Run(cfg, Initial(cfg), ops);
    Recency.StackDistance(InSet(cfg, BufferSet(cfg, address), t.buffered), cfg.bufferAssoc, address);
  }

  /** What a read makes of the buffer: of all warm reads whose address is in neither queue, exactly those are answered
      without DRAM whose line was buffered with fewer than assoc distinct lines of its set since; the others are
      queued. A DDRP request is answered by nothing: its line is already here. */
  lemma {:induction false} BufferAnswers(cfg: Config, ops: seq<Op>, p: Packet)
    requires 0 < cfg.bufferSets && 0 < cfg.bufferAssoc && cfg.bufferOn && Legal(cfg, Initial(cfg), ops)
    requires var t := Run(cfg, Initial(cfg), ops);
      && Admissible(cfg, t, p)
      && (forall j :: 0 <= j < SIZE ==> t.wq.entry[j].address != p.address && t.rq.entry[j].address != p.address)
    ensures var t := Run(cfg, Initial(cfg), ops); var u := AddRq(cfg, t, p, true);
      var trace := InSet(cfg, cfg.setIndex(p.address) % cfg.bufferSets, t.buffered);
      if p.address in trace && |Recency.DistinctSince(trace, p.address)| < cfg.bufferAssoc
      then u == t.(returned := t.returned + (if p.fillLevel <= FILL_LLC then [p.address] else []))
      else u.returned == t.returned && Queued(t.rq, u.rq, p)
  {
    InitialInv(cfg);
    RunInv(cfg, Initial(cfg), ops);
    BufferHitLaw(cfg, ops, p.address);
    AnsweredIffBuffered(cfg, Run(cfg, Initial(cfg), ops), p);
  }
}
