/** The miss status holding registers of a cache (src/cache.cc): misses are added, completed by the data coming
    back, and filled in the order of their event cycles through a saved next fill. */
module Mshr {
  import opened FirstMinimum
  import opened Sequences

  const WORD := 0x1_0000_0000_0000_0000

  datatype Status = Unsent | InFlight | Completed
  datatype Kind = Prefetch | PrefetchTranslation | TranslationFromL1d | OtherKind
  datatype Request = Request(id: nat, kind: Kind)
  datatype Slot = Slot(address: nat, status: Status, event: nat, request: Request)

  const EMPTY := Slot(0, Unsent, 0, Request(0, OtherKind))

  datatype File = File(slots: seq<Slot>, occupancy: nat, nextCycle: nat, nextIndex: nat, filled: seq<nat>)

  /** A slot's turn in the fill order; an uncompleted one has none. */
  function Turn(s: Slot): nat {
    if s.status.Completed? then s.event else NEVER
  }

  function Turns(slots: seq<Slot>): (t: seq<nat>)
    ensures |t| == |slots| && forall i :: 0 <= i < |slots| ==> t[i] == Turn(slots[i])
  {
    seq(|slots|, i requires 0 <= i < |slots| => Turn(slots[i]))
  }

  function WayOf(slots: seq<Slot>, address: nat): (i: nat)
    ensures i <= |slots|
    ensures i < |slots| ==> slots[i].address == address
    ensures forall j :: 0 <= j < i ==> slots[j].address != address
  {
    First(slots, (s: Slot) => s.address == address)
  }

  function UpdateFill(m: File): File {
    match FirstMin(Turns(m.slots))
    case At(i, c) => m.(nextCycle := c, nextIndex := i)
    case Nothing => m.(nextCycle := NEVER, nextIndex := |m.slots|)
  }

  function Add(m: File, address: nat, event: nat, r: Request): File {
    var i := WayOf(m.slots, 0);
    if i == |m.slots| then m
    else m.(slots := m.slots[i := Slot(address, InFlight, event, r)], occupancy := m.occupancy + 1)
  }

  /** A later request takes over a held miss of a weaker kind: for a write a prefetch, for a read a prefetch or
      translation of another kind than its own. */
  predicate TakesOver(held: Kind, r: Request, write: bool) {
    if write then held.Prefetch? else !held.OtherKind? && r.kind != held
  }

  /** The whole entry is overwritten, and its address, status and event cycle are put back. */
  function Merge(m: File, address: nat, r: Request, write: bool): File {
    var i := WayOf(m.slots, address);
    if i == |m.slots| || !TakesOver(m.slots[i].request.kind, r, write) then m
    else m.(slots := m.slots[i := m.slots[i].(request := r)])
  }

  /** The fill is due one latency after the data, or after the time the entry was already waiting for. */
  function Due(event: nat, clock: nat, latency: nat): nat {
    ((if event < clock then clock else event) + latency) % WORD
  }

  function Return(m: File, address: nat, clock: nat, latency: nat): File {
    var i := WayOf(m.slots, address);
    if i == |m.slots| then m else
    var s := m.slots[i];
    UpdateFill(m.(slots := m.slots[i := s.(status := Completed, event := Due(s.event, clock, latency))]))
  }

  predicate Fills(m: File, clock: nat) {
    m.nextIndex < |m.slots| && m.nextCycle <= clock
  }

  /** What the victim and the lower level make of a due fill: it waits for room below, it is sent down again
      because its translation is still missing, or it is done. */
  datatype Outcome = Stalled | Again | Done

  function Fill(m: File, clock: nat, outcome: Outcome): File {
    if !Fills(m, clock) || outcome.Stalled? then m else
    var s := m.slots[m.nextIndex];
    if outcome.Again? then UpdateFill(m.(slots := m.slots[m.nextIndex := s.(status := InFlight)]))
    else UpdateFill(m.(slots := m.slots[m.nextIndex := EMPTY], filled := m.filled + [s.address],
                       occupancy := if m.occupancy > 0 then m.occupancy - 1 else 0))
  }

  predicate Occupied(s: Slot) {
    s.address != 0
  }

  ghost predicate SlotOk(slots: seq<Slot>, i: int) {
    0 <= i < |slots| && slots[i].address == 0 ==> !slots[i].status.Completed?
  }

  ghost predicate Differ(slots: seq<Slot>, i: int, j: int) {
    0 <= i < j < |slots| && slots[i].address != 0 ==> slots[i].address != slots[j].address
  }

  /** No line is held twice, the occupancy counts the lines, and the saved next fill is the first minimum of the
      completed entries. */
  ghost predicate Inv(m: File) {
    && (forall i :: SlotOk(m.slots, i)) && (forall i, j :: Differ(m.slots, i, j))
    && m.occupancy == Count(m.slots, Occupied) && Saved(m.nextCycle, m.nextIndex, Turns(m.slots))
  }

  class MissFile {
    const latency: nat
    const entry: array<Slot>
    var occupancy: nat
    var nextCycle: nat
    var nextIndex: nat
    ghost var filled: seq<nat>

    ghost function Value(): File
      reads this, entry
    {
      File(entry[..], occupancy, nextCycle, nextIndex, filled)
    }

    constructor (size: nat, l: nat)
      ensures fresh(entry) && entry.Length == size && latency == l && Value() == Initial(size)
    {
      latency := l;
      entry := new Slot[size](_ => EMPTY);
      occupancy, nextCycle, nextIndex := 0, NEVER, 0;
      filled := [];
      new;
      assert entry[..] == Initial(size).slots;
    }

    /** The first entry with this address; the size if there is none. */
    method Check(address: nat) returns (i: nat)
      ensures i == WayOf(entry[..], address)
    {
      i := 0;
      while i < entry.Length
        invariant i <= entry.Length && forall j :: 0 <= j < i ==> entry[j].address != address
      {
        if entry[i].address == address {
          return;
        }
        i := i + 1;
      }
    }

    method UpdateFillCycle()
      modifies `nextCycle, `nextIndex
      ensures Value() == UpdateFill(old(Value()))
    {
      var minCycle, minIndex := NEVER, entry.Length;
      ghost var keys := Turns(entry[..]);
      for i := 0 to entry.Length
        invariant match FirstMin(keys[..i])
                  case At(j, c) => minCycle == c && minIndex == j
                  case Nothing => minCycle == NEVER && minIndex == entry.Length
      {
        FirstMinStep(keys, i);
        if entry[i].status.Completed? && entry[i].event < minCycle {
          minCycle := entry[i].event;
          minIndex := i;
        }
      }
      assert keys[..entry.Length] == keys;
      nextCycle := minCycle;
      nextIndex := minIndex;
    }

    method AddNonfifo(address: nat, event: nat, r: Request)
      modifies `occupancy, entry
      ensures Value() == Add(old(Value()), address, event, r)
    {
      var i := Check(0);
      if i < entry.Length {
        entry[i] := Slot(address, InFlight, event, r);
        occupancy := occupancy + 1;
      }
    }

    method MergeRequest(address: nat, r: Request, write: bool)
      requires exists i :: 0 <= i < entry.Length && entry[i].address == address
      modifies entry
      ensures Value() == Merge(old(Value()), address, r, write)
    {
      var i := Check(address);
      assert i != entry.Length;
      if TakesOver(entry[i].request.kind, r, write) {
        var prior := entry[i];
        entry[i] := Slot(address, Unsent, 0, r);
        entry[i] := entry[i].(address := prior.address, status := prior.status, event := prior.event);
      }
    }

    method ReturnData(address: nat, clock: nat)
      requires exists i :: 0 <= i < entry.Length && entry[i].address == address
      modifies `nextCycle, `nextIndex, entry
      ensures Value() == Return(old(Value()), address, clock, latency)
    {
      var i := Check(address);
      assert i != entry.Length;
      var s := entry[i];
      var due := (if s.event < clock then clock + latency else s.event + latency) % WORD;
      entry[i] := s.(status := Completed, event := due);
      UpdateFillCycle();
    }

    /** The assertion on the saved index is the source's own. */
    method HandleFill(clock: nat, outcome: Outcome)
      requires Inv(Value()) && clock < NEVER
      modifies this, entry
      ensures Value() == Fill(old(Value()), clock, outcome)
    {
      if nextIndex == entry.Length {
        return;
      }
      if nextCycle <= clock {
        assert nextIndex < entry.Length;
        if outcome == Stalled {
          return;
        }
        if outcome == Again {
          entry[nextIndex] := entry[nextIndex].(status := InFlight);
        } else {
          OccupiedCounts(Value(), nextIndex);
          filled := filled + [entry[nextIndex].address];
          entry[nextIndex] := EMPTY;
          occupancy := occupancy - 1;
        }
        UpdateFillCycle();
      }
    }
  }

  function Initial(size: nat): File {
    File(seq(size, _ => EMPTY), 0, NEVER, 0, [])
  }

  // Runs.

  datatype Op =
    | Miss(address: nat, event: nat, r: Request)
    | Join(address: nat, r: Request, write: bool)
    | Data(address: nat, clock: nat)
    | Tick(clock: nat, outcome: Outcome)

  /** What the callers guarantee: they add only absent lines to a file with room, and data answers a miss. */
  ghost predicate Allowed(m: File, op: Op) {
    match op
    case Miss(a, _, _) => a != 0 && m.occupancy < |m.slots| && WayOf(m.slots, a) == |m.slots|
    case Join(a, _, _) => a != 0 && WayOf(m.slots, a) < |m.slots|
    case Data(a, _) => a != 0 && WayOf(m.slots, a) < |m.slots|
    case Tick(clock, _) => clock < NEVER
  }

  function Apply(m: File, op: Op, latency: nat): File {
    match op
    case Miss(a, e, r) => Add(m, a, e, r)
    case Join(a, r, write) => Merge(m, a, r, write)
    case Data(a, c) => Return(m, a, c, latency)
    case Tick(c, o) => Fill(m, c, o)
  }

  function Run(size: nat, ops: seq<Op>, latency: nat): File {
    if ops == [] then Initial(size) else Apply(Run(size, ops[..|ops| - 1], latency), ops[|ops| - 1], latency)
  }

  ghost predicate Legal(size: nat, ops: seq<Op>, latency: nat) {
    ops == [] ||
    (Legal(size, ops[..|ops| - 1], latency) && Allowed(Run(size, ops[..|ops| - 1], latency), ops[|ops| - 1]))
  }

  lemma OccupiedCounts(m: File, i: nat)
    requires Inv(m) && i < |m.slots| && m.nextIndex == i && m.nextCycle < NEVER
    ensures m.slots[i].status.Completed? && m.slots[i].address != 0 && m.occupancy > 0
  {
    FirstMinIsFirst(Turns(m.slots));
    assert SlotOk(m.slots, i);
    CountBounds(m.slots, Occupied);
  }

  /** One slot rewritten, keeping its address, freeing it, or giving a free one a new address. */
  lemma SlotsKept(m: File, t: File, i: nat, x: Slot)
    requires Inv(m) && i < |m.slots| && t.slots == m.slots[i := x] && SlotOk(t.slots, i)
    requires x.address == 0 || x.address == m.slots[i].address || WayOf(m.slots, x.address) == |m.slots|
    requires t.occupancy + (if Occupied(m.slots[i]) then 1 else 0) == m.occupancy + (if Occupied(x) then 1 else 0)
    requires Saved(t.nextCycle, t.nextIndex, Turns(t.slots))
    ensures Inv(t)
  {
    forall j ensures SlotOk(t.slots, j) {
      assert SlotOk(m.slots, j);
    }
    forall j, k ensures Differ(t.slots, j, k) {
      assert Differ(m.slots, j, k);
    }
    CountUpdate(m.slots, i, x, Occupied);
  }

  lemma MergeInv(m: File, a: nat, r: Request, write: bool)
    requires Inv(m) && a != 0 && WayOf(m.slots, a) < |m.slots|
    ensures Inv(Merge(m, a, r, write))
  {
    var i, t := WayOf(m.slots, a), Merge(m, a, r, write);
    assert SlotOk(m.slots, i) && Turns(t.slots) == Turns(m.slots) && t.slots == m.slots[i := t.slots[i]];
    SlotsKept(m, t, i, t.slots[i]);
  }

  lemma AddInv(m: File, a: nat, e: nat, r: Request)
    requires Inv(m) && a != 0 && m.occupancy < |m.slots| && WayOf(m.slots, a) == |m.slots|
    ensures Inv(Add(m, a, e, r))
  {
    CountBounds(m.slots, Occupied);
    var i, t := WayOf(m.slots, 0), Add(m, a, e, r);
    assert SlotOk(m.slots, i) && Turns(t.slots) == Turns(m.slots);
    SlotsKept(m, t, i, t.slots[i]);
  }

  lemma FillInv(m: File, clock: nat, outcome: Outcome)
    requires Inv(m) && clock < NEVER
    ensures Inv(Fill(m, clock, outcome))
  {
    if Fills(m, clock) && outcome != Stalled {
      OccupiedCounts(m, m.nextIndex);
      SlotsKept(m, Fill(m, clock, outcome), m.nextIndex, Fill(m, clock, outcome).slots[m.nextIndex]);
    }
  }

  lemma ApplyInv(m: File, op: Op, latency: nat)
    requires Inv(m) && Allowed(m, op)
    ensures Inv(Apply(m, op, latency))
  {
    match op
    case Miss(a, e, r) => AddInv(m, a, e, r);
    case Join(a, r, write) => MergeInv(m, a, r, write);
    case Data(a, c) =>
      var i := WayOf(m.slots, a);
      SlotsKept(m, Return(m, a, c, latency), i, Return(m, a, c, latency).slots[i]);
    case Tick(c, o) => FillInv(m, c, o);
  }

  /** In every reachable file the saved next fill agrees with a full scan, no line is held twice and the occupancy
      is the number of lines held. */
  lemma {:induction false} RunInv(size: nat, ops: seq<Op>, latency: nat)
    requires Legal(size, ops, latency)
    ensures |Run(size, ops, latency).slots| == size && Inv(Run(size, ops, latency))
  {
    if ops == [] {
      FirstMinIsFirst(Turns(Initial(size).slots));
      CountBounds(Initial(size).slots, Occupied);
    } else {
      RunInv(size, ops[..|ops| - 1], latency);
      ApplyInv(Run(size, ops[..|ops| - 1], latency), ops[|ops| - 1], latency);
    }
  }

  /** A fill is due exactly when some completed entry is, and it is the earliest one's, the first on a tie. */
  lemma {:induction false} FillsEarliest(m: File, clock: nat)
    requires Inv(m) && clock < NEVER
    ensures Fills(m, clock) <==>
            exists i :: 0 <= i < |m.slots| && m.slots[i].status.Completed? && m.slots[i].event <= clock
    ensures Fills(m, clock) ==>
              var s := m.slots[m.nextIndex];
              && s.status.Completed? && s.address != 0
              && (forall j :: 0 <= j < |m.slots| && m.slots[j].status.Completed? ==> s.event <= m.slots[j].event)
              && (forall j :: 0 <= j < m.nextIndex && m.slots[j].status.Completed? ==> s.event < m.slots[j].event)
  {
    var t := Turns(m.slots);
    FirstMinIsFirst(t);
    assert forall j :: 0 <= j < |m.slots| ==> t[j] == Turn(m.slots[j]);
    if Fills(m, clock) {
      OccupiedCounts(m, m.nextIndex);
    }
  }

  // Conservation: every miss is filled once or still held.

  function Has(a: nat): Slot -> bool {
    (s: Slot) => s.address == a
  }

  function Held(m: File, a: nat): nat {
    Count(m.slots, Has(a))
  }

  function Misses(ops: seq<Op>, a: nat): nat {
    Count(ops, (op: Op) => op.Miss? && op.address == a)
  }

  function Filled(m: File, a: nat): nat {
    Count(m.filled, x => x == a)
  }

  lemma HeldUpdate(m: File, t: File, i: nat, x: Slot, a: nat)
    requires i < |m.slots| && t.slots == m.slots[i := x]
    ensures Held(t, a) + (if m.slots[i].address == a then 1 else 0) == Held(m, a) + (if x.address == a then 1 else 0)
  {
    CountUpdate(m.slots, i, x, Has(a));
  }

  lemma FillConserves(m: File, clock: nat, outcome: Outcome, a: nat)
    requires Inv(m) && a != 0 && Fills(m, clock) && outcome != Stalled
    ensures var t := Fill(m, clock, outcome); Filled(t, a) + Held(t, a) == Filled(m, a) + Held(m, a)
  {
    var t, s := Fill(m, clock, outcome), m.slots[m.nextIndex];
    HeldUpdate(m, t, m.nextIndex, if outcome == Again then s.(status := InFlight) else EMPTY, a);
    assert (m.filled + [s.address])[..|m.filled|] == m.filled;
  }

  lemma ApplyConserves(m: File, op: Op, latency: nat, a: nat)
    requires Inv(m) && Allowed(m, op) && a != 0
    ensures var t := Apply(m, op, latency);
      Filled(t, a) + Held(t, a) == Filled(m, a) + Held(m, a) + (if op.Miss? && op.address == a then 1 else 0)
  {
    match op
    case Miss(b, e, r) =>
      CountBounds(m.slots, Occupied);
      HeldUpdate(m, Add(m, b, e, r), WayOf(m.slots, 0), Slot(b, InFlight, e, r), a);
    case Join(b, r, write) =>
      var i := WayOf(m.slots, b);
      assert m.slots[i := m.slots[i]] == m.slots;
      HeldUpdate(m, Merge(m, b, r, write), i, Merge(m, b, r, write).slots[i], a);
    case Data(b, c) =>
      var i := WayOf(m.slots, b);
      HeldUpdate(m, Return(m, b, c, latency), i, Return(m, b, c, latency).slots[i], a);
    case Tick(c, o) =>
      if Fills(m, c) && o != Stalled {
        FillConserves(m, c, o, a);
      }
  }

  /** Each line is filled exactly as often as it missed, but for the one miss that may still be held. */
  lemma {:induction false} MissesAreFilledOnce(size: nat, ops: seq<Op>, latency: nat, a: nat)
    requires Legal(size, ops, latency) && a != 0
    ensures var m := Run(size, ops, latency);
      Misses(ops, a) == Filled(m, a) + (if WayOf(m.slots, a) < |m.slots| then 1 else 0)
  {
    RunInv(size, ops, latency);
    HeldOnce(Run(size, ops, latency), a);
    MissesAreCounted(size, ops, latency, a);
  }

  lemma {:induction false} MissesAreCounted(size: nat, ops: seq<Op>, latency: nat, a: nat)
    requires Legal(size, ops, latency) && a != 0
    ensures Misses(ops, a) == Filled(Run(size, ops, latency), a) + Held(Run(size, ops, latency), a)
  {
    if ops == [] {
      CountBounds(Initial(size).slots, Has(a));
    } else {
      var before := ops[..|ops| - 1];
      MissesAreCounted(size, before, latency, a);
      RunInv(size, before, latency);
      ApplyConserves(Run(size, before, latency), ops[|ops| - 1], latency, a);
    }
  }

  lemma HeldOnce(m: File, a: nat)
    requires Inv(m) && a != 0
    ensures Held(m, a) == if WayOf(m.slots, a) < |m.slots| then 1 else 0
  {
    var p := Has(a);
    var i := WayOf(m.slots, a);
    CountBounds(m.slots, p);
    if i < |m.slots| {
      var rest := m.slots[i := EMPTY];
      CountUpdate(m.slots, i, EMPTY, p);
      forall j | 0 <= j < |rest| ensures !p(rest[j]) {
        assert Differ(m.slots, i, j) && Differ(m.slots, j, i);
      }
      CountBounds(rest, p);
    }
  }

  // What every operation does, said of the entries.

  /** Entry i is the completed one with the lowest event cycle, the first on a tie. */
  ghost predicate Earliest(slots: seq<Slot>, i: nat) {
    && i < |slots| && slots[i].status.Completed?
    && (forall j :: 0 <= j < |slots| && slots[j].status.Completed? ==> slots[i].event <= slots[j].event)
    && (forall j :: 0 <= j < i && slots[j].status.Completed? ==> slots[i].event < slots[j].event)
  }

  ghost predicate DueNow(slots: seq<Slot>, clock: nat) {
    exists i :: 0 <= i < |slots| && slots[i].status.Completed? && slots[i].event <= clock
  }

  /** Only entry i changes, and becomes x. */
  predicate Rewrites(m: File, t: File, i: nat, x: Slot) {
    i < |m.slots| && t.slots == m.slots[i := x]
  }

  ghost predicate OpLaw(m: File, t: File, op: Op, latency: nat) {
    match op
    case Miss(a, e, r) =>
      && t.occupancy == m.occupancy + 1 && t.filled == m.filled
      && exists i: nat :: Rewrites(m, t, i, Slot(a, InFlight, e, r)) && m.slots[i].address == 0
    case Join(a, r, write) =>
      && t.occupancy == m.occupancy && t.filled == m.filled
      && exists i: nat :: i < |m.slots| && m.slots[i].address == a && Rewrites(m, t, i, Joined(m.slots[i], r, write))
    case Data(a, clock) =>
      && t.occupancy == m.occupancy && t.filled == m.filled
      && exists i: nat ::
           i < |m.slots| && m.slots[i].address == a && Rewrites(m, t, i, Arrived(m.slots[i], clock, latency))
    case Tick(clock, outcome) =>
      if !DueNow(m.slots, clock) || outcome.Stalled? then t == m
      else exists i: nat :: Earliest(m.slots, i) && Leaves(m, t, i, outcome)
  }

  /** A write replaces a held prefetch; a read replaces a held prefetch or translation of a kind not its own. */
  function Joined(s: Slot, r: Request, write: bool): Slot {
    match s.request.kind
    case Prefetch => if write || r.kind != Prefetch then s.(request := r) else s
    case PrefetchTranslation => if !write && r.kind != PrefetchTranslation then s.(request := r) else s
    case TranslationFromL1d => if !write && r.kind != TranslationFromL1d then s.(request := r) else s
    case OtherKind => s
  }

  /** The fill is due one latency after the later of the data and the entry's event, in 64 bits. */
  function Arrived(s: Slot, clock: nat, latency: nat): Slot {
    var from := if clock <= s.event then s.event else clock;
    s.(status := Completed, event := (from + latency) % 0x1_0000_0000_0000_0000)
  }

  /** Entry i goes down again, or is filled and freed. */
  predicate Leaves(m: File, t: File, i: nat, outcome: Outcome)
    requires i < |m.slots|
  {
    if outcome.Again?
    then Rewrites(m, t, i, m.slots[i].(status := InFlight)) && t.occupancy == m.occupancy && t.filled == m.filled
    else Rewrites(m, t, i, EMPTY) && t.occupancy + 1 == m.occupancy && t.filled == m.filled + [m.slots[i].address]
  }

  lemma TickObeys(m: File, clock: nat, outcome: Outcome, latency: nat)
    requires Inv(m) && clock < NEVER
    ensures OpLaw(m, Fill(m, clock, outcome), Tick(clock, outcome), latency)
  {
    FillsEarliest(m, clock);
    if Fills(m, clock) {
      OccupiedCounts(m, m.nextIndex);
      assert Earliest(m.slots, m.nextIndex);
    }
  }

  lemma MissObeys(m: File, a: nat, e: nat, r: Request, latency: nat)
    requires m.occupancy == Count(m.slots, Occupied) < |m.slots|
    ensures OpLaw(m, Add(m, a, e, r), Miss(a, e, r), latency)
  {
    CountBounds(m.slots, Occupied);
    assert Rewrites(m, Add(m, a, e, r), WayOf(m.slots, 0), Slot(a, InFlight, e, r));
  }

  lemma JoinObeys(m: File, a: nat, r: Request, write: bool, latency: nat)
    requires WayOf(m.slots, a) < |m.slots|
    ensures OpLaw(m, Merge(m, a, r, write), Join(a, r, write), latency)
  {
    var i := WayOf(m.slots, a);
    assert m.slots[i := m.slots[i]] == m.slots;
    assert Rewrites(m, Merge(m, a, r, write), i, Joined(m.slots[i], r, write));
  }

  lemma DataObeys(m: File, a: nat, clock: nat, latency: nat)
    requires WayOf(m.slots, a) < |m.slots|
    ensures OpLaw(m, Return(m, a, clock, latency), Data(a, clock), latency)
  {
    var i := WayOf(m.slots, a);
    assert Rewrites(m, Return(m, a, clock, latency), i, Arrived(m.slots[i], clock, latency));
  }

  /** Every allowed operation obeys its law. */
  lemma OpObeys(m: File, op: Op, latency: nat)
    requires Inv(m) && Allowed(m, op)
    ensures OpLaw(m, Apply(m, op, latency), op, latency)
  {
    match op
    case Miss(a, e, r) => MissObeys(m, a, e, r, latency);
    case Join(a, r, write) => JoinObeys(m, a, r, write, latency);
    case Data(a, clock) => DataObeys(m, a, clock, latency);
    case Tick(clock, outcome) => TickObeys(m, clock, outcome, latency);
  }

  // No line is filled before its data.

  function Latest(op: Op): nat {
    match op
    case Miss(_, e, _) => e
    case Join(_, _, _) => 0
    case Data(_, c) => c
    case Tick(c, _) => c
  }

  /** How late an event can be after n operations up to `bound`. */
  function Limit(bound: nat, n: nat, latency: nat): nat {
    if n == 0 then bound else Limit(bound, n - 1, latency) + latency
  }

  lemma {:induction false} LimitIs(bound: nat, n: nat, latency: nat)
    ensures Limit(bound, n, latency) == bound + n * latency
  {
    if n > 0 {
      LimitIs(bound, n - 1, latency);
      assert n * latency == (n - 1) * latency + latency;
    }
  }

  /** Nothing in the run happens after `bound`, and no event cycle it leads to wraps. */
  ghost predicate InTime(ops: seq<Op>, latency: nat, bound: nat) {
    bound + |ops| * latency < WORD && forall i :: 0 <= i < |ops| ==> Latest(ops[i]) <= bound
  }

  /** Since its last miss the data of line a has arrived, one latency before `due`. */
  ghost predicate Answered(ops: seq<Op>, a: nat, due: nat, latency: nat) {
    exists j :: ArrivesAt(ops, j, a, due, latency)
  }

  ghost predicate ArrivesAt(ops: seq<Op>, j: int, a: nat, due: nat, latency: nat) {
    && 0 <= j < |ops| && ops[j].Data? && ops[j].address == a && ops[j].clock + latency <= due
    && forall k :: j < k < |ops| && ops[k].Miss? ==> ops[k].address != a
  }

  ghost predicate SlotInTime(s: Slot, ops: seq<Op>, latency: nat, limit: nat) {
    s.event <= limit && (s.status.Completed? ==> Answered(ops, s.address, s.event, latency))
  }

  /** One more operation that is not a miss of the line. */
  lemma StillAnswered(ops: seq<Op>, op: Op, a: nat, due: nat, latency: nat)
    requires Answered(ops, a, due, latency) && (op.Miss? ==> op.address != a)
    ensures Answered(ops + [op], a, due, latency)
  {
    var j :| ArrivesAt(ops, j, a, due, latency);
    assert ArrivesAt(ops + [op], j, a, due, latency);
  }

  ghost predicate FileInTime(m: File, ops: seq<Op>, latency: nat, limit: nat) {
    forall s :: s in m.slots ==> SlotInTime(s, ops, latency, limit)
  }

  /** An operation leaves every entry but one alone, and that one's event is still within one latency. */
  lemma OneRewritten(m: File, t: File, op: Op, latency: nat, limit: nat) returns (i: nat)
    requires OpLaw(m, t, op, latency) && Latest(op) <= limit && limit + latency < WORD
    requires forall s :: s in m.slots ==> s.event <= limit
    ensures t.slots == m.slots || (i < |m.slots| && t.slots == m.slots[i := t.slots[i]])
    ensures t.slots != m.slots && t.slots[i].status.Completed? ==>
              if op.Data? then t.slots[i].address == op.address && op.clock + latency <= t.slots[i].event
              else op.Join? && t.slots[i] == m.slots[i].(request := t.slots[i].request)
    ensures t.slots != m.slots ==> t.slots[i].event <= limit + latency
  {
    i := 0;
    match op
    case Miss(a, e, r) =>
      i :| Rewrites(m, t, i, Slot(a, InFlight, e, r));
    case Join(a, r, write) =>
      i :| i < |m.slots| && m.slots[i].address == a && Rewrites(m, t, i, Joined(m.slots[i], r, write));
      assert m.slots[i] in m.slots;
    case Data(a, clock) => i := DataRewrites(m, t, a, clock, latency, limit);
    case Tick(clock, outcome) => i := TickRewrites(m, t, clock, outcome, latency, limit);
  }

  lemma DataRewrites(m: File, t: File, a: nat, clock: nat, latency: nat, limit: nat) returns (i: nat)
    requires OpLaw(m, t, Data(a, clock), latency) && clock <= limit && limit + latency < WORD
    requires forall s :: s in m.slots ==> s.event <= limit
    ensures i < |m.slots| && t.slots == m.slots[i := t.slots[i]] && t.slots[i].address == a
    ensures clock + latency <= t.slots[i].event <= limit + latency
  {
    i :| i < |m.slots| && m.slots[i].address == a && Rewrites(m, t, i, Arrived(m.slots[i], clock, latency));
    assert m.slots[i] in m.slots;
  }

  lemma TickRewrites(m: File, t: File, clock: nat, outcome: Outcome, latency: nat, limit: nat) returns (i: nat)
    requires OpLaw(m, t, Tick(clock, outcome), latency) && forall s :: s in m.slots ==> s.event <= limit
    ensures t.slots == m.slots || (i < |m.slots| && t.slots == m.slots[i := t.slots[i]])
    ensures t.slots != m.slots ==> !t.slots[i].status.Completed? && t.slots[i].event <= limit
  {
    i := 0;
    if t != m {
      i :| Earliest(m.slots, i) && Leaves(m, t, i, outcome);
      assert m.slots[i] in m.slots;
    }
  }

  /** An entry an operation leaves alone. */
  lemma UntouchedInTime(m: File, ops: seq<Op>, op: Op, s: Slot, latency: nat, limit: nat)
    requires Inv(m) && Allowed(m, op) && s in m.slots && SlotInTime(s, ops, latency, limit)
    ensures SlotInTime(s, ops + [op], latency, limit + latency)
  {
    if s.status.Completed? {
      var i :| 0 <= i < |m.slots| && m.slots[i] == s;
      assert SlotOk(m.slots, i);
      StillAnswered(ops, op, s.address, s.event, latency);
    }
  }

  lemma FileStaysInTime(m: File, ops: seq<Op>, op: Op, latency: nat, limit: nat)
    requires Inv(m) && Allowed(m, op) && limit + latency < WORD && Latest(op) <= limit
    requires FileInTime(m, ops, latency, limit)
    ensures FileInTime(Apply(m, op, latency), ops + [op], latency, limit + latency)
  {
    var t := Apply(m, op, latency);
    OpObeys(m, op, latency);
    var i := OneRewritten(m, t, op, latency, limit);
    forall s | s in t.slots ensures SlotInTime(s, ops + [op], latency, limit + latency) {
      if s in m.slots {
        UntouchedInTime(m, ops, op, s, latency, limit);
      } else {
        assert s == t.slots[i];
        RewrittenInTime(m, ops, op, m.slots[i], s, latency, limit);
      }
    }
  }

  lemma RewrittenInTime(m: File, ops: seq<Op>, op: Op, was: Slot, s: Slot, latency: nat, limit: nat)
    requires Inv(m) && Allowed(m, op) && was in m.slots && SlotInTime(was, ops, latency, limit)
    requires s.event <= limit + latency
    requires s.status.Completed? ==>
               if op.Data? then s.address == op.address && op.clock + latency <= s.event
               else op.Join? && s == was.(request := s.request)
    ensures SlotInTime(s, ops + [op], latency, limit + latency)
  {
    if s.status.Completed? {
      if op.Data? {
        assert ArrivesAt(ops + [op], |ops|, s.address, s.event, latency);
      } else {
        UntouchedInTime(m, ops, op, was, latency, limit);
      }
    }
  }

  lemma {:induction false} RunInTime(size: nat, ops: seq<Op>, latency: nat, bound: nat)
    requires Legal(size, ops, latency) && InTime(ops, latency, bound)
    ensures FileInTime(Run(size, ops, latency), ops, latency, Limit(bound, |ops|, latency))
  {
    if ops != [] {
      var before, op := ops[..|ops| - 1], ops[|ops| - 1];
      assert ops == before + [op];
      InTimePrefix(before, op, latency, bound);
      RunInTime(size, before, latency, bound);
      RunInv(size, before, latency);
      FileStaysInTime(Run(size, before, latency), before, op, latency, Limit(bound, |before|, latency));
    }
  }

  lemma InTimePrefix(before: seq<Op>, op: Op, latency: nat, bound: nat)
    requires InTime(before + [op], latency, bound)
    ensures InTime(before, latency, bound)
    ensures var limit := Limit(bound, |before|, latency);
      Latest(op) <= bound <= limit && limit + latency == Limit(bound, |before + [op]|, latency) < WORD
  {
    var n := |before|;
    LimitIs(bound, n, latency);
    LimitIs(bound, n + 1, latency);
    assert (n + 1) * latency == n * latency + latency;
    assert (before + [op])[n] == op;
    forall i | 0 <= i < n ensures Latest(before[i]) <= bound {
      assert (before + [op])[i] == before[i];
    }
  }

  /** In any run whose clocks stay clear of 2^64, a line is filled no earlier than one latency after its data came back,
      and the data came back after the miss. */
  lemma {:induction false} FilledAfterData(size: nat, ops: seq<Op>, latency: nat, bound: nat, clock: nat)
    requires Legal(size, ops, latency) && InTime(ops, latency, bound) && clock < NEVER
    ensures var m := Run(size, ops, latency); var t := Fill(m, clock, Done);
      t == m || exists a :: t.filled == m.filled + [a] && Answered(ops, a, clock, latency)
  {
    RunInv(size, ops, latency);
    RunInTime(size, ops, latency, bound);
    FillAnswered(Run(size, ops, latency), ops, latency, Limit(bound, |ops|, latency), clock);
  }

  lemma FillAnswered(m: File, ops: seq<Op>, latency: nat, limit: nat, clock: nat)
    requires Inv(m) && FileInTime(m, ops, latency, limit) && clock < NEVER
    ensures var t := Fill(m, clock, Done);
      t == m || exists a :: t.filled == m.filled + [a] && Answered(ops, a, clock, latency)
  {
    if Fills(m, clock) {
      FillsEarliest(m, clock);
      var s := m.slots[m.nextIndex];
      assert s in m.slots && SlotInTime(s, ops, latency, limit);
      Sooner(ops, s.address, s.event, clock, latency);
      assert Fill(m, clock, Done).filled == m.filled + [s.address];
    }
  }

  lemma Sooner(ops: seq<Op>, a: nat, due: nat, clock: nat, latency: nat)
    requires Answered(ops, a, due, latency) && due <= clock
    ensures Answered(ops, a, clock, latency)
  {
    var j :| ArrivesAt(ops, j, a, due, latency);
    assert ArrivesAt(ops, j, a, clock, latency);
  }
}
