/** One channel of the DRAM controller (src/dram_controller.cc): the values its queues, banks and counters
    hold, and what each of its functions does to them. */
module DramModel {
  import opened FirstMinimum
  import opened Sequences
  import Recency

  const BANKS: nat := 8
  const SIZE: nat := 64
  const HIGH_WM: nat := SIZE * 7 / 8
  const LOW_WM: nat := SIZE * 3 / 4
  const FILL_LLC := 4
  const FILL_DDRP := 9
  const NO_ROW := 0xFFFF_FFFF

  function BankOf(address: nat): (b: nat)
    ensures b < BANKS
  {
    address % BANKS
  }

  function RowOf(address: nat): nat {
    address / 1024 % 65536
  }

  /** Knobs and timing parameters; setIndex stands for the hash that picks a DDRP buffer set, and inPartition for
      the core's answer, in a given cycle, whether a ROB position lies in the partition the knob selects. */
  datatype Config = Config(tRP: nat, tRCD: nat, tCAS: nat, returnTime: nat, turnAround: nat,
                           forceRowMiss: bool, enableDdrp: bool,
                           pseudoDirect: bool, pseudoOnPrefetch: bool, lookupLatency: nat,
                           inPartition: (nat, nat) -> bool,
                           bufferOn: bool, bufferSets: nat, bufferAssoc: nat, setIndex: nat -> nat)

  datatype Kind = Load | Prefetch | OtherKind

  datatype Packet = Packet(address: nat, scheduled: bool, eventCycle: nat, fillLevel: int,
                           kind: Kind, robPosition: nat, instruction: bool, isData: bool)

  const EMPTY := Packet(0, false, NEVER, -1, Load, 0, false, true)

  datatype Queue = Queue(entry: seq<Packet>, occupancy: nat,
                         nextScheduleCycle: nat, nextScheduleIndex: nat,
                         nextProcessCycle: nat, nextProcessIndex: nat)

  datatype Bank = Bank(cycleAvailable: nat, openRow: nat, working: bool,
                       isWrite: bool, isRead: bool, requestIndex: int)

  /** One use of the data bus, and how many mode switches came before it. */
  datatype Transfer = Transfer(time: nat, write: bool, switches: nat)

  /** The last three fields log what the controller does to the world: addresses handed to return_data,
      addresses put into the DDRP buffer, and bus transfers. */
  datatype State = State(rq: Queue, wq: Queue, banks: seq<Bank>, writeMode: bool,
                         scheduledReads: nat, scheduledWrites: nat, dbus: nat, switches: nat,
                         buffer: seq<seq<nat>>,
                         returned: seq<nat>, buffered: seq<nat>, transfers: seq<Transfer>)

  predicate Shaped(s: State) {
    |s.rq.entry| == SIZE && |s.wq.entry| == SIZE && |s.banks| == BANKS
  }

  function EmptyQueue(): Queue {
    Queue(seq(SIZE, _ => EMPTY), 0, NEVER, 0, NEVER, 0)
  }

  function Initial(cfg: Config): State {
    State(EmptyQueue(), EmptyQueue(), seq(BANKS, _ => Bank(0, NO_ROW, false, false, false, -1)), false,
          0, 0, 0, 0, seq(cfg.bufferSets, _ => []), [], [], [])
  }

  /** The queue a function was handed: the write queue if w, else the read queue. */
  function Q(s: State, w: bool): Queue {
    if w then s.wq else s.rq
  }

  function WithQ(s: State, w: bool, q: Queue): State {
    if w then s.(wq := q) else s.(rq := q)
  }

  /** Decrementing an unsigned counter. */
  function Dec(n: nat): nat {
    if n == 0 then 0xFFFF_FFFF else n - 1
  }

  // ---------- saved minima

  function ScheduleKey(p: Packet): nat {
    if p.address != 0 && !p.scheduled then p.eventCycle else NEVER
  }

  function ProcessKey(p: Packet): nat {
    if p.scheduled then p.eventCycle else NEVER
  }

  function Keys(entry: seq<Packet>, key: Packet -> nat): seq<nat> {
    seq(|entry|, i requires 0 <= i < |entry| => key(entry[i]))
  }

  function UpdateSchedule(q: Queue): Queue {
    match FirstMin(Keys(q.entry, ScheduleKey))
    case At(i, c) => q.(nextScheduleCycle := c, nextScheduleIndex := i)
    case Nothing => q.(nextScheduleCycle := NEVER, nextScheduleIndex := |q.entry|)
  }

  function UpdateProcess(q: Queue): Queue {
    match FirstMin(Keys(q.entry, ProcessKey))
    case At(i, c) => q.(nextProcessCycle := c, nextProcessIndex := i)
    case Nothing => q.(nextProcessCycle := NEVER, nextProcessIndex := |q.entry|)
  }

  // ---------- mode switches

  /** This bank is ready for another DRAM request. */
  function Idle(b: Bank): Bank {
    b.(working := false, isWrite := false, isRead := false, requestIndex := -1)
  }

  /** Takes entry i of a queue off its bank. A row whose column access has not begun is closed. */
  function ResetOne(cfg: Config, s: State, w: bool, i: nat, now: nat): (s': State)
    requires Shaped(s) && i < SIZE
    ensures Shaped(s')
  {
    var q := Q(s, w);
    var p := q.entry[i];
    if !p.scheduled then s else
    var b := BankOf(p.address);
    var bank := s.banks[b];
    var open := (bank.cycleAvailable - cfg.tCAS) % 0x1_0000_0000_0000_0000 <= now;
    WithQ(s, w, q.(entry := q.entry[i := p.(scheduled := false, eventCycle := now)])).(
      banks := s.banks[b := Idle(bank).(openRow := if open then RowOf(p.address) else NO_ROW,
                                        cycleAvailable := now)],
      scheduledWrites := if bank.isWrite then Dec(s.scheduledWrites) else s.scheduledWrites,
      scheduledReads := if !bank.isWrite && bank.isRead then Dec(s.scheduledReads) else s.scheduledReads)
  }

  function ResetUpTo(cfg: Config, s: State, w: bool, k: nat, now: nat): (s': State)
    requires Shaped(s) && k <= SIZE
    ensures Shaped(s')
  {
    if k == 0 then s else ResetOne(cfg, ResetUpTo(cfg, s, w, k - 1, now), w, k - 1, now)
  }

  function Reset(cfg: Config, s: State, w: bool, now: nat): (s': State)
    requires Shaped(s)
    ensures Shaped(s')
  {
    var r := ResetUpTo(cfg, s, w, SIZE, now);
    r.(rq := UpdateProcess(UpdateSchedule(r.rq)), wq := UpdateProcess(UpdateSchedule(r.wq)))
  }

  predicate EntersWriteMode(s: State) {
    !s.writeMode && (s.wq.occupancy >= HIGH_WM || (s.rq.occupancy == 0 && s.wq.occupancy > 0))
  }

  predicate LeavesWriteMode(s: State) {
    s.writeMode && (s.wq.occupancy == 0 || (s.rq.occupancy > 0 && s.wq.occupancy < LOW_WM))
  }

  /** The other mode: the queue being left is unscheduled and the bus pays its turn-around. */
  function Switched(cfg: Config, s: State, now: nat): (s': State)
    requires Shaped(s)
    ensures Shaped(s')
  {
    var r := Reset(cfg, s.(writeMode := !s.writeMode), s.writeMode, now);
    r.(dbus := r.dbus + cfg.turnAround, switches := r.switches + 1)
  }

  function SwitchMode(cfg: Config, s: State, now: nat): (s': State)
    requires Shaped(s)
    ensures Shaped(s')
  {
    if EntersWriteMode(s) || LeavesWriteMode(s) then Switched(cfg, s, now) else s
  }

  // ---------- scheduling

  /** Waiting requests whose bank is idle. */
  function AnyKey(s: State, p: Packet): nat
    requires Shaped(s)
  {
    if !p.scheduled && p.address != 0 && !s.banks[BankOf(p.address)].working then p.eventCycle else NEVER
  }

  /** Those among them that hit the open row. */
  function HitKey(s: State, p: Packet): nat
    requires Shaped(s)
  {
    if s.banks[BankOf(p.address)].openRow == RowOf(p.address) then AnyKey(s, p) else NEVER
  }

  function Pick(s: State, w: bool): (f: Found)
    requires Shaped(s)
    ensures f.At? ==> f.index < SIZE
  {
    var hit := FirstMin(Keys(Q(s, w).entry, p => HitKey(s, p)));
    if hit.At? then hit else FirstMin(Keys(Q(s, w).entry, p => AnyKey(s, p)))
  }

  /** Reads can be charged as row misses by a knob. */
  predicate ChargedAsHit(cfg: Config, s: State, w: bool, p: Packet)
    requires Shaped(s)
  {
    HitKey(s, p) < NEVER && (w || !cfg.forceRowMiss)
  }

  /** Pseudo-direct prefetch: a data request that skips the cache lookups on its way. */
  predicate Direct(cfg: Config, p: Packet, now: nat) {
    && cfg.pseudoDirect && p.isData && (p.kind.Load? || (p.kind.Prefetch? && cfg.pseudoOnPrefetch))
    && cfg.inPartition(p.robPosition, now)
  }

  function Latency(cfg: Config, rowHit: bool, p: Packet, now: nat): nat {
    var full := if rowHit then cfg.tCAS else cfg.tRP + cfg.tRCD + cfg.tCAS;
    if !Direct(cfg, p, now) then full
    else if full > cfg.lookupLatency then full - cfg.lookupLatency
    else 0
  }

  /** Entry i of a queue takes its bank until `ready`. */
  function Occupy(s: State, w: bool, i: nat, ready: nat): (s': State)
    requires Shaped(s) && i < SIZE
    ensures Shaped(s')
  {
    var q := Q(s, w);
    var p := q.entry[i];
    var q' := q.(entry := q.entry[i := p.(scheduled := true, eventCycle := ready)]);
    WithQ(s, w, UpdateProcess(UpdateSchedule(q'))).(
      banks := s.banks[BankOf(p.address) := Bank(ready, RowOf(p.address), true, w, !w, i)],
      scheduledWrites := if w then s.scheduledWrites + 1 else s.scheduledWrites,
      scheduledReads := if w then s.scheduledReads else s.scheduledReads + 1)
  }

  function Schedule(cfg: Config, s: State, w: bool, now: nat): (s': State)
    requires Shaped(s)
    ensures Shaped(s')
  {
    match Pick(s, w)
    case Nothing => s
    case At(i, _) =>
      var p := Q(s, w).entry[i];
      Occupy(s, w, i, now + Latency(cfg, ChargedAsHit(cfg, s, w, p), p, now))
  }

  // ---------- DDRP buffer

  function BufferSet(cfg: Config, address: nat): nat
    requires 0 < cfg.bufferSets
  {
    cfg.setIndex(address) % cfg.bufferSets
  }

  predicate BufferReady(cfg: Config, s: State) {
    |s.buffer| == cfg.bufferSets && 0 < cfg.bufferSets && 0 < cfg.bufferAssoc
  }

  function InsertBuffer(cfg: Config, s: State, address: nat): State
    requires BufferReady(cfg, s)
  {
    var b := BufferSet(cfg, address);
    s.(buffer := s.buffer[b := Recency.Touch(s.buffer[b], cfg.bufferAssoc, address)],
       buffered := s.buffered + [address])
  }

  predicate LookupBuffer(cfg: Config, s: State, address: nat)
    requires BufferReady(cfg, s)
  {
    address in s.buffer[BufferSet(cfg, address)]
  }

  // ---------- processing

  /** What a finished request leaves behind: a read goes to the LLC, or as a DDRP prefetch to the buffer. */
  function Deliver(cfg: Config, s: State, w: bool, p: Packet): State
    requires BufferReady(cfg, s)
  {
    if w then s
    else if p.fillLevel < FILL_DDRP then s.(returned := s.returned + [p.address])
    else if cfg.bufferOn then InsertBuffer(cfg, s, p.address)
    else s
  }

  /** Entry i moves its data over the bus and leaves its queue and its bank. */
  function Complete(cfg: Config, s: State, w: bool, i: nat, now: nat): (s': State)
    requires Shaped(s) && BufferReady(cfg, s) && i < SIZE
    ensures Shaped(s') && BufferReady(cfg, s')
  {
    var q := Q(s, w);
    var p := q.entry[i];
    var b := BankOf(p.address);
    var q' := q.(entry := q.entry[i := EMPTY], occupancy := Dec(q.occupancy));
    WithQ(Deliver(cfg, s, w, p), w, UpdateProcess(q')).(
      dbus := now + cfg.returnTime,
      transfers := s.transfers + [Transfer(now, w, s.switches)],
      banks := s.banks[b := Idle(s.banks[b])],
      scheduledWrites := if w then Dec(s.scheduledWrites) else s.scheduledWrites,
      scheduledReads := if w then s.scheduledReads else Dec(s.scheduledReads))
  }

  /** Serves the queue's next scheduled request if its bank and the data bus are ready. */
  function Process(cfg: Config, s: State, w: bool, now: nat): (s': State)
    requires Shaped(s) && BufferReady(cfg, s) && Q(s, w).nextProcessIndex < SIZE
    ensures Shaped(s') && BufferReady(cfg, s')
  {
    var i := Q(s, w).nextProcessIndex;
    var b := BankOf(Q(s, w).entry[i].address);
    if s.banks[b].cycleAvailable > now then s
    else if s.dbus > now then s.(banks := s.banks[b := s.banks[b].(cycleAvailable := s.dbus)])
    else Complete(cfg, s, w, i, now)
  }

  // ---------- one cycle

  function ScheduleIfDue(cfg: Config, s: State, w: bool, now: nat): (s': State)
    requires Shaped(s)
    ensures Shaped(s')
  {
    if s.writeMode == w && Q(s, w).nextScheduleIndex < SIZE && Q(s, w).nextScheduleCycle <= now
    then Schedule(cfg, s, w, now) else s
  }

  function ProcessIfDue(cfg: Config, s: State, w: bool, now: nat): (s': State)
    requires Shaped(s) && BufferReady(cfg, s)
    ensures Shaped(s') && BufferReady(cfg, s')
  {
    if s.writeMode == w && Q(s, w).nextProcessIndex < SIZE && Q(s, w).nextProcessCycle <= now
    then Process(cfg, s, w, now) else s
  }

  /** The active mode's queue gets one scheduling and one processing step. */
  function Serve(cfg: Config, s: State, w: bool, now: nat): (s': State)
    requires Shaped(s) && BufferReady(cfg, s)
    ensures Shaped(s') && BufferReady(cfg, s')
  {
    ProcessIfDue(cfg, ScheduleIfDue(cfg, s, w, now), w, now)
  }

  lemma {:induction false} ResetKeepsBuffer(cfg: Config, s: State, w: bool, k: nat, now: nat)
    requires Shaped(s) && k <= SIZE
    ensures var s' := ResetUpTo(cfg, s, w, k, now);
      s'.(rq := s.rq, wq := s.wq, banks := s.banks, scheduledReads := s.scheduledReads,
          scheduledWrites := s.scheduledWrites) == s && Q(s', !w) == Q(s, !w)
  {
    if k > 0 {
      ResetKeepsBuffer(cfg, s, w, k - 1, now);
    }
  }

  function Operate(cfg: Config, s: State, now: nat): (s': State)
    requires Shaped(s) && BufferReady(cfg, s)
    ensures Shaped(s') && BufferReady(cfg, s')
  {
    ResetKeepsBuffer(cfg, s.(writeMode := !s.writeMode), s.writeMode, SIZE, now);
    Serve(cfg, Serve(cfg, SwitchMode(cfg, s, now), true, now), false, now)
  }

  // ---------- requests

  function Find(entry: seq<Packet>, address: nat): (i: nat)
    ensures i <= |entry|
    ensures forall j :: 0 <= j < i ==> entry[j].address != address
    ensures i < |entry| ==> entry[i].address == address
  {
    First(entry, (p: Packet) => p.address == address)
  }

  /** Both upper levels of the controller are the last-level cache. */
  function Answer(s: State, p: Packet): State {
    s.(returned := s.returned + (if p.instruction then [p.address] else [])
                              + (if p.isData then [p.address] else []))
  }

  predicate ToCore(cfg: Config, p: Packet) {
    !(cfg.enableDdrp && p.fillLevel >= FILL_DDRP)
  }

  /** An incoming LLC miss takes over the DDRP request already queued for its address. */
  function Merge(q: Queue, i: nat, p: Packet): Queue
    requires i < |q.entry|
  {
    if q.entry[i].fillLevel == FILL_DDRP && p.fillLevel <= FILL_LLC
    then q.(entry := q.entry[i := p.(scheduled := q.entry[i].scheduled, eventCycle := q.entry[i].eventCycle)])
    else q
  }

  /** Into the first empty slot; a full queue loses the request, which is why callers check first. */
  function Enqueue(q: Queue, p: Packet): Queue {
    var i := Find(q.entry, 0);
    UpdateSchedule(if i < |q.entry| then q.(entry := q.entry[i := p], occupancy := q.occupancy + 1) else q)
  }

  /** Answered without DRAM: before warmup, from the write queue, or from the DDRP buffer. */
  predicate Forwarded(cfg: Config, s: State, p: Packet, warm: bool)
    requires BufferReady(cfg, s)
  {
    (!warm && ToCore(cfg, p)) || Find(s.wq.entry, p.address) < |s.wq.entry|
    || (cfg.bufferOn && LookupBuffer(cfg, s, p.address))
  }

  function AddRq(cfg: Config, s: State, p: Packet, warm: bool): (s': State)
    requires Shaped(s) && BufferReady(cfg, s)
    ensures Shaped(s') && BufferReady(cfg, s')
  {
    if Forwarded(cfg, s, p, warm) then (if ToCore(cfg, p) then Answer(s, p) else s)
    else if Find(s.rq.entry, p.address) < SIZE then s.(rq := Merge(s.rq, Find(s.rq.entry, p.address), p))
    else s.(rq := Enqueue(s.rq, p))
  }

  function AddWq(s: State, p: Packet, warm: bool): (s': State)
    requires Shaped(s)
    ensures Shaped(s') && s'.buffer == s.buffer
  {
    if !warm || Find(s.wq.entry, p.address) < SIZE then s else s.(wq := Enqueue(s.wq, p))
  }
}
