/** The controller finishes its work: cycles that are far enough apart for an access each empty both queues, and then
    every accepted miss has been answered. Everything here is concluded from the laws of one cycle. */
module DramProgress {
  import opened FirstMinimum
  import opened Sequences
  import opened DramModel
  import opened DramInvariant
  import opened DramLaws
  import opened DramRuns

  /** Time for one access, one transfer and one turn-around. */
  function Slack(cfg: Config): nat {
    cfg.tRP + cfg.tRCD + cfg.tCAS + cfg.returnTime + cfg.turnAround
  }

  ghost predicate EntrySettled(s: State, w: bool, i: nat, now: nat) {
    i < |Q(s, w).entry| && Q(s, w).entry[i].address != 0 ==> Q(s, w).entry[i].eventCycle < now
  }

  ghost predicate BankSettled(s: State, b: nat, now: nat) {
    b < |s.banks| ==> s.banks[b].cycleAvailable <= now
  }

  /** Nothing is still going on at `now`: requests have arrived, accesses are over, the bus is free. */
  ghost predicate Settled(s: State, now: nat) {
    && s.dbus <= now
    && (forall w, i: nat :: EntrySettled(s, w, i, now)) && (forall b: nat :: BankSettled(s, b, now))
  }

  /** Requests not yet completed. */
  function Work(s: State): nat {
    s.rq.occupancy + s.wq.occupancy
  }

  /** The mode of the next cycle. */
  predicate Decides(s: State) {
    if s.writeMode then s.wq.occupancy > 0 && (s.rq.occupancy == 0 || s.wq.occupancy >= 48)
    else s.wq.occupancy >= 56 || (s.rq.occupancy == 0 && s.wq.occupancy > 0)
  }

  /** The mode will not change by itself, and a request of it is on its way. */
  ghost predicate Primed(s: State) {
    && Decides(s) == s.writeMode
    && exists i :: 0 <= i < |Q(s, s.writeMode).entry| && Q(s, s.writeMode).entry[i].scheduled
  }

  /** Cycles needed at most: two per request, one if the first is on its way. */
  ghost function Pressure(s: State): nat {
    if Work(s) == 0 then 0 else 2 * Work(s) - (if Primed(s) then 1 else 0)
  }

  // ---------- one cycle

  /** Requests arrived before `next`, accesses are over by `done`, the bus is free by `bus`. */
  ghost predicate Bounded(s: State, next: nat, done: nat, bus: nat) {
    && s.dbus <= bus
    && (forall w, i: nat :: EntrySettled(s, w, i, next)) && (forall b: nat :: BankSettled(s, b, done))
  }

  lemma ModeBounds(cfg: Config, s: State, a: State, now: nat, next: nat)
    requires ModeLaw(cfg, s, a, now) && Settled(s, now) && next == now + 1
    ensures Bounded(a, next, now, now + cfg.turnAround)
  {
    forall w, i: nat ensures EntrySettled(a, w, i, next) {
      assert EntrySettled(s, w, i, now);
    }
    forall b: nat ensures BankSettled(a, b, now) {
      assert BankSettled(s, b, now);
    }
  }

  lemma ScheduleBounds(cfg: Config, a: State, b: State, w: bool, now: nat, next: nat, later: nat)
    requires Shaped(a) && ScheduleLaw(cfg, a, b, w, now) && Bounded(a, next, now, now + cfg.turnAround)
    requires next == now + 1 && later > now + Slack(cfg)
    ensures Bounded(b, later, later, now + cfg.turnAround)
  {
    forall v, i: nat ensures EntrySettled(b, v, i, later) {
      assert EntrySettled(a, v, i, next);
    }
    forall k: nat ensures BankSettled(b, k, later) {
      assert BankSettled(a, k, now);
    }
  }

  lemma ProcessBounds(cfg: Config, b: State, t: State, w: bool, now: nat, later: nat)
    requires Shaped(b) && ProcessLaw(cfg, b, t, w, now) && Bounded(b, later, later, now + cfg.turnAround)
    requires later > now + Slack(cfg)
    ensures Settled(t, later)
  {
    forall v, i: nat ensures EntrySettled(t, v, i, later) {
      assert EntrySettled(b, v, i, later);
    }
    forall k: nat ensures BankSettled(t, k, later) {
      assert BankSettled(b, k, later);
    }
  }

  /** Once settled, settled again a slack later. */
  lemma CycleSettles(cfg: Config, s: State, now: nat, later: nat)
    requires Inv(cfg, s) && ClockOk(cfg, now) && Settled(s, now) && later > now + Slack(cfg)
    ensures Settled(Operate(cfg, s, now), later)
  {
    var a, b := CycleStages(cfg, s, now);
    ModeBounds(cfg, s, a, now, now + 1);
    ScheduleBounds(cfg, a, b, a.writeMode, now, now + 1, later);
    ProcessBounds(cfg, b, Operate(cfg, s, now), a.writeMode, now, later);
  }

  lemma SomeOccupied(q: Queue, w: bool) returns (i: nat)
    requires RequestsOk(q, w) && q.occupancy > 0
    ensures i < |q.entry| && q.entry[i].address != 0
  {
    CountBounds(q.entry, IsOccupied);
    i :| i < |q.entry| && q.entry[i].address != 0;
  }

  /** While nothing of the mode's queue is scheduled, every bank is idle. */
  lemma AllIdle(cfg: Config, a: State, b: nat)
    requires Inv(cfg, a) && NoneScheduled(Q(a, a.writeMode)) && b < BANKS
    ensures !a.banks[b].working
  {
    assert BankOk(a, b);
  }

  /** If the mode's queue has work, some of it is scheduled after the scheduling step. */
  lemma SchedulesSome(cfg: Config, a: State, b: State, w: bool, now: nat, next: nat) returns (i: nat)
    requires Inv(cfg, a) && a.writeMode == w && Q(a, w).occupancy > 0 && next == now + 1
    requires Bounded(a, next, now, now + cfg.turnAround) && Shaped(b) && ScheduleLaw(cfg, a, b, w, now)
    ensures i < SIZE && Q(b, w).entry[i].scheduled
  {
    var e := Q(a, w).entry;
    if j: nat :| j < SIZE && e[j].scheduled {
      i := j;
    } else {
      var j := SomeOccupied(Q(a, w), w);
      AllIdle(cfg, a, BankOf(e[j].address));
      assert EntrySettled(a, w, j, next) && Waiting(a, e[j]);
      i :| Next(a, w, i) && Begins(cfg, a, b, w, i, now);
    }
  }

  ghost predicate OneDone(s: State, t: State) {
    |t.transfers| == |s.transfers| + 1 && Work(t) + 1 == Work(s)
  }

  /** The processing step completes one request, or leaves the queues as they are. */
  lemma CompletesOrKeeps(cfg: Config, b: State, t: State, w: bool, now: nat)
    requires Shaped(b) && ProcessLaw(cfg, b, t, w, now)
    ensures OneDone(b, t) || (t.transfers == b.transfers && t.rq == b.rq && t.wq == b.wq)
  {
  }

  lemma StageCounts(cfg: Config, s: State, a: State, b: State, t: State, now: nat)
    requires Shaped(s) && Stages(cfg, s, a, b, t, now)
    ensures b.transfers == s.transfers && b.rq.occupancy == s.rq.occupancy && b.wq.occupancy == s.wq.occupancy
    ensures b.writeMode == a.writeMode == Decides(s) && t.writeMode == b.writeMode
  {
  }

  /** A decision once made is not changed by asking again. */
  lemma DecisionStands(s: State, t: State)
    requires t.writeMode == Decides(s) && t.rq.occupancy == s.rq.occupancy && t.wq.occupancy == s.wq.occupancy
    ensures Decides(t) == t.writeMode
  {
  }

  lemma StagePrimes(cfg: Config, s: State, b: State, t: State, w: bool, i: nat, now: nat)
    requires Shaped(b) && ProcessLaw(cfg, b, t, w, now) && i < SIZE && Q(b, w).entry[i].scheduled
    requires b.transfers == s.transfers && b.rq.occupancy == s.rq.occupancy && b.wq.occupancy == s.wq.occupancy
    requires w == t.writeMode == Decides(s)
    ensures OneDone(s, t) || (t.transfers == s.transfers && Work(t) == Work(s) && Primed(t))
  {
    CompletesOrKeeps(cfg, b, t, w, now);
    if t.transfers == b.transfers {
      DecisionStands(s, t);
      assert Q(t, w).entry[i].scheduled;
    }
  }

  /** A settled cycle with work to do completes a request, or leaves the next one primed. */
  lemma CyclePrimes(cfg: Config, s: State, now: nat)
    requires Inv(cfg, s) && ClockOk(cfg, now) && Settled(s, now) && Work(s) > 0
    ensures var t := Operate(cfg, s, now);
      OneDone(s, t) || (t.transfers == s.transfers && Work(t) == Work(s) && Primed(t))
  {
    var a, b := CycleStages(cfg, s, now);
    SwitchModeInv(cfg, s, now);
    var i := StageSchedules(cfg, s, a, b, Operate(cfg, s, now), now);
    StageCounts(cfg, s, a, b, Operate(cfg, s, now), now);
    StagePrimes(cfg, s, b, Operate(cfg, s, now), a.writeMode, i, now);
  }

  lemma StageSchedules(cfg: Config, s: State, a: State, b: State, t: State, now: nat) returns (i: nat)
    requires Shaped(s) && Stages(cfg, s, a, b, t, now) && Inv(cfg, a) && Settled(s, now) && Work(s) > 0
    ensures i < SIZE && Q(b, a.writeMode).entry[i].scheduled
  {
    ModeBounds(cfg, s, a, now, now + 1);
    ActiveHasWork(cfg, s, a, now);
    assert Work(a) == Work(s);
    i := SchedulesSome(cfg, a, b, a.writeMode, now, now + 1);
  }

  /** A primed cycle completes a request. */
  lemma PrimedCompletes(cfg: Config, s: State, now: nat)
    requires Inv(cfg, s) && ClockOk(cfg, now) && Settled(s, now) && Primed(s)
    ensures OneDone(s, Operate(cfg, s, now))
  {
    var t, w := Operate(cfg, s, now), s.writeMode;
    var a, b := CycleStages(cfg, s, now);
    StageCounts(cfg, s, a, b, t, now);
    CompletesOrKeeps(cfg, b, t, a.writeMode, now);
    PrimedTransfers(cfg, s, now);
  }

  lemma PrimedTransfers(cfg: Config, s: State, now: nat)
    requires Inv(cfg, s) && ClockOk(cfg, now) && Settled(s, now) && Primed(s)
    requires Operate(cfg, s, now).writeMode == s.writeMode
    ensures |Operate(cfg, s, now).transfers| == |s.transfers| + 1
  {
    var w := s.writeMode;
    var j: nat :| j < |Q(s, w).entry| && Q(s, w).entry[j].scheduled;
    assert EntryOk(s, w, j) && EntrySettled(s, w, j, now);
    var i := EarliestExists(Q(s, w).entry, j);
    assert EntryOk(s, w, i) && EntrySettled(s, w, i, now) && BankSettled(s, BankOf(Q(s, w).entry[i].address), now);
    DueIsServed(cfg, s, i, now);
  }

  lemma EarliestExists(e: seq<Packet>, j: nat) returns (i: nat)
    requires j < |e| && e[j].scheduled && e[j].eventCycle < NEVER
    ensures Earliest(e, i)
  {
    var keys := Keys(e, ProcessKey);
    FirstMinIsFirst(keys);
    assert keys[j] == ProcessKey(e[j]);
    i := FirstMin(keys).index;
    EarliestIs(e, i, FirstMin(keys).cycle);
  }

  lemma CycleRelieves(cfg: Config, s: State, now: nat)
    requires Inv(cfg, s) && ClockOk(cfg, now) && Settled(s, now)
    ensures var t := Operate(cfg, s, now); Pressure(t) < Pressure(s) || Pressure(t) == 0
  {
    if Work(s) > 0 {
      CyclePrimes(cfg, s, now);
      if Primed(s) {
        PrimedCompletes(cfg, s, now);
      }
    } else {
      var a, b := CycleStages(cfg, s, now);
      StageCounts(cfg, s, a, b, Operate(cfg, s, now), now);
      CompletesOrKeeps(cfg, b, Operate(cfg, s, now), a.writeMode, now);
    }
  }

  // ---------- runs of cycles

  function Ticks(clocks: seq<nat>): (ops: seq<Op>)
    ensures |ops| == |clocks|
  {
    seq(|clocks|, i requires 0 <= i < |clocks| => Tick(clocks[i]))
  }

  /** Clocks that leave a slack between cycles. */
  ghost predicate Patient(cfg: Config, clocks: seq<nat>) {
    && (forall i :: 0 <= i < |clocks| ==> ClockOk(cfg, clocks[i]))
    && (forall i, j :: 0 <= i < j < |clocks| ==> clocks[j] > clocks[i] + Slack(cfg))
  }

  lemma RunStep(cfg: Config, s: State, ops: seq<Op>, op: Op)
    requires Shaped(s) && BufferReady(cfg, s)
    ensures Run(cfg, s, ops + [op]) == Apply(cfg, Run(cfg, s, ops), op)
  {
    assert (ops + [op])[..|ops|] == ops;
  }

  lemma LegalStep(cfg: Config, s: State, ops: seq<Op>, op: Op)
    requires Shaped(s) && BufferReady(cfg, s)
    ensures Legal(cfg, s, ops + [op]) <==> Legal(cfg, s, ops) && Allowed(cfg, Run(cfg, s, ops), op)
  {
    assert (ops + [op])[..|ops|] == ops;
  }

  /** What n patient cycles leave of s, seen at a later clock. */
  ghost predicate Relieved(cfg: Config, s: State, t: State, n: nat, later: nat) {
    Inv(cfg, t) && Settled(t, later) && (Pressure(t) + n <= Pressure(s) || Pressure(t) == 0)
  }

  lemma TickRelieves(cfg: Config, s: State, r: State, n: nat, now: nat, later: nat)
    requires Relieved(cfg, s, r, n, now) && ClockOk(cfg, now) && later > now + Slack(cfg)
    ensures Allowed(cfg, r, Tick(now)) && Relieved(cfg, s, Apply(cfg, r, Tick(now)), n + 1, later)
  {
    CycleSettles(cfg, r, now, later);
    CycleRelieves(cfg, r, now);
    OperateInv(cfg, r, now);
  }

  lemma PatientPrefix(cfg: Config, clocks: seq<nat>)
    requires Patient(cfg, clocks) && clocks != []
    ensures var n := |clocks| - 1;
      && Patient(cfg, clocks[..n]) && ClockOk(cfg, clocks[n])
      && (clocks[..n] != [] ==> clocks[n] > clocks[..n][|clocks[..n]| - 1] + Slack(cfg) && clocks[..n][0] == clocks[0])
      && Ticks(clocks) == Ticks(clocks[..n]) + [Tick(clocks[n])]
  {
  }

  lemma {:induction false} TicksRelieve(cfg: Config, s: State, clocks: seq<nat>, later: nat)
    requires Inv(cfg, s) && Patient(cfg, clocks) && Settled(s, if clocks == [] then later else clocks[0])
    requires clocks != [] ==> later > clocks[|clocks| - 1] + Slack(cfg)
    ensures Legal(cfg, s, Ticks(clocks)) && Relieved(cfg, s, Run(cfg, s, Ticks(clocks)), |clocks|, later)
  {
    if clocks == [] {
      assert Ticks(clocks) == [];
    } else {
      var before, now := clocks[..|clocks| - 1], clocks[|clocks| - 1];
      PatientPrefix(cfg, clocks);
      TicksRelieve(cfg, s, before, now);
      TickRelieves(cfg, s, Run(cfg, s, Ticks(before)), |before|, now, later);
      RunStep(cfg, s, Ticks(before), Tick(now));
      LegalStep(cfg, s, Ticks(before), Tick(now));
    }
  }

  /** From any reachable state, once the clock has caught up, two cycles per queued request empty both queues. */
  lemma Drains(cfg: Config, s: State, clocks: seq<nat>)
    requires Inv(cfg, s) && Patient(cfg, clocks) && |clocks| >= 2 * Work(s)
    requires clocks != [] ==> Settled(s, clocks[0])
    ensures Legal(cfg, s, Ticks(clocks)) && Work(Run(cfg, s, Ticks(clocks))) == 0
  {
    if clocks != [] {
      TicksRelieve(cfg, s, clocks, clocks[|clocks| - 1] + Slack(cfg) + 1);
    }
  }

  lemma {:induction false} RunAppend(cfg: Config, s: State, ops: seq<Op>, more: seq<Op>)
    requires Shaped(s) && BufferReady(cfg, s)
    ensures Run(cfg, s, ops + more) == Run(cfg, Run(cfg, s, ops), more)
  {
    if more == [] {
      assert ops + more == ops;
    } else {
      var rest, op := more[..|more| - 1], more[|more| - 1];
      assert more == rest + [op] && ops + more == (ops + rest) + [op];
      RunAppend(cfg, s, ops, rest);
      RunStep(cfg, Run(cfg, s, ops), rest, op);
      RunStep(cfg, s, ops + rest, op);
    }
  }

  lemma {:induction false} TicksAccept(clocks: seq<nat>, a: nat)
    ensures Accepted(Ticks(clocks), a) == 0
  {
    if clocks != [] {
      TicksAccept(clocks[..|clocks| - 1], a);
      assert Ticks(clocks)[..|clocks| - 1] == Ticks(clocks[..|clocks| - 1]);
    }
  }

  lemma NothingPending(s: State, a: nat)
    requires RequestsOk(s.rq, false) && s.rq.occupancy == 0
    ensures Pending(s.rq.entry, a) == 0
  {
    CountBounds(s.rq.entry, IsOccupied);
    EmptyPending(s.rq.entry, a);
  }

  /** Every accepted LLC miss is answered: let any run be followed by cycles that wait for what is going on, two for
      each request still queued; then every address was handed back exactly as often as it missed. */
  lemma {:induction false} AllAnswered(cfg: Config, ops: seq<Op>, clocks: seq<nat>, a: nat)
    requires 0 < cfg.bufferSets && 0 < cfg.bufferAssoc && Legal(cfg, Initial(cfg), ops) && Patient(cfg, clocks)
    requires var s := Run(cfg, Initial(cfg), ops);
      |clocks| >= 2 * (s.rq.occupancy + s.wq.occupancy) && (clocks != [] ==> Settled(s, clocks[0]))
    ensures Times(Run(cfg, Initial(cfg), ops + Ticks(clocks)).returned, a) == Accepted(ops, a)
  {
    var start := Initial(cfg);
    InitialInv(cfg);
    RunInv(cfg, start, ops);
    Drains(cfg, Run(cfg, start, ops), clocks);
    RunAppend(cfg, start, ops, Ticks(clocks));
    ExactlyOnce(cfg, ops, a);
    IdleHasAnswered(cfg, Run(cfg, start, ops), clocks, a);
  }

  lemma IdleHasAnswered(cfg: Config, s: State, clocks: seq<nat>, a: nat)
    requires Inv(cfg, s) && Legal(cfg, s, Ticks(clocks)) && Work(Run(cfg, s, Ticks(clocks))) == 0
    ensures Times(Run(cfg, s, Ticks(clocks)).returned, a) == Times(s.returned, a) + Pending(s.rq.entry, a)
  {
    RunInv(cfg, s, Ticks(clocks));
    RunAccount(cfg, s, Ticks(clocks), a);
    TicksAccept(clocks, a);
    NothingPending(Run(cfg, s, Ticks(clocks)), a);
  }
}
