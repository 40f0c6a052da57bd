/** The explore/exploit monitor of src/ddrp_monitor.cc with its saturating counter (inc/util.h). It tries the four
    on/off configurations of off-chip prediction and data prefetcher for one exploration epoch each, then runs the
    fastest for one exploitation epoch. */
module DdrpMonitor {
  import opened Division
  import opened FirstMinimum

  const CONFIGS: nat := 4
  const ALL_OFF: nat := 3
  const WORD := 0x1_0000_0000_0000_0000
  const CONFIDENCE_WIDTH: nat := 3
  const MOST_CONFIDENT: nat := 7

  datatype Phase = Explore | Exploit
  datatype Knobs = Knobs(explore: nat, exploit: nat, hysteresis: bool)
  datatype Vote = Vote(incumbent: nat, confidence: nat)
  datatype Monitor = Monitor(config: nat, phase: Phase, cycles: seq<nat>, instr: nat, stamp: nat,
                             ddrpOff: bool, prefetcherOff: bool, vote: Vote)

  const ZEROS: seq<nat> := [0, 0, 0, 0]
  const FIRST_VOTE := Vote(ALL_OFF, 0)
  const INITIAL := Monitor(0, Explore, ZEROS, 0, 0, false, false, FIRST_VOTE)

  /** The difference of two uint64 clocks. */
  function Elapsed(now: nat, stamp: nat): (d: nat)
    ensures now < WORD && stamp < WORD ==> (d == 0 <==> now == stamp)
    ensures stamp <= now < WORD ==> d == now - stamp
  {
    (now - stamp) % WORD
  }

  /** The configuration with the fewest cycles, the first one on a tie. */
  function Fastest(cycles: seq<nat>): nat {
    match FirstMin(cycles)
    case At(i, _) => i
    case Nothing => 0
  }

  /** One round of hysteresis: a match raises the confidence, a loss lowers it or, at zero, takes the seat. */
  function Settle(v: Vote, fastest: nat): Vote {
    if fastest == v.incumbent
    then v.(confidence := if v.confidence + 1 >= MOST_CONFIDENT then MOST_CONFIDENT else v.confidence + 1)
    else if v.confidence > 0 then v.(confidence := v.confidence - 1)
    else Vote(fastest, 0)
  }

  function SetParams(m: Monitor): Monitor {
    m.(ddrpOff := m.config >= 2, prefetcherOff := m.config % 2 == 1)
  }

  function Choose(m: Monitor, knobs: Knobs): Monitor {
    var fastest := Fastest(m.cycles);
    if knobs.hysteresis
    then var v := Settle(m.vote, fastest); m.(config := v.incumbent, vote := v)
    else m.(config := fastest)
  }

  predicate EndsExploration(m: Monitor, knobs: Knobs) {
    m.phase.Explore? && m.instr + 1 >= knobs.explore && m.config == ALL_OFF
  }

  /** The end of an exploration epoch: on to the next configuration, or to the winner. */
  function Explored(m: Monitor, clock: nat, knobs: Knobs): Monitor {
    var measured := m.(instr := 0, stamp := clock, cycles := Measured(m, clock));
    SetParams(if m.config == ALL_OFF
              then Choose(measured, knobs).(phase := Exploit, cycles := ZEROS)
              else measured.(config := m.config + 1))
  }

  /** monitor_instr for one retired instruction. */
  function Step(m: Monitor, clock: nat, knobs: Knobs): Monitor {
    var epoch := if m.phase.Exploit? then knobs.exploit else knobs.explore;
    if m.instr + 1 < epoch then m.(instr := m.instr + 1)
    else if m.phase.Explore? then Explored(m, clock, knobs)
    else SetParams(m.(instr := 0, stamp := clock, phase := Explore, config := 0, cycles := ZEROS))
  }

  function Measured(m: Monitor, clock: nat): seq<nat> {
    if m.config < |m.cycles| then m.cycles[m.config := Elapsed(clock, m.stamp)] else m.cycles
  }

  /** The assertion in the winner scan: no configuration took zero cycles. */
  predicate NoneZero(cycles: seq<nat>) {
    forall c :: 0 <= c < |cycles| ==> cycles[c] != 0
  }

  ghost predicate Permitted(m: Monitor, clock: nat, knobs: Knobs) {
    EndsExploration(m, knobs) ==> NoneZero(Measured(m, clock))
  }

  function Pow2(w: nat): (p: nat)
    ensures p > 0
  {
    if w == 0 then 1 else 2 * Pow2(w - 1)
  }

  /** A counter that saturates at 2^width - 1 and at zero. */
  class Counter {
    const max: nat
    var value: nat

    constructor (width: nat, initial: nat)
      ensures max == Pow2(width) - 1 && value == initial
    {
      max := Pow2(width) - 1;
      value := initial;
    }

    method Incr(amount: nat)
      modifies this
      ensures value <= max && value == if old(value) + amount <= max then old(value) + amount else max
    {
      value := value + amount;
      if value >= max {
        value := max;
      }
    }

    method Decr(amount: nat)
      modifies this
      ensures value == if amount <= old(value) then old(value) - amount else 0
    {
      if value >= amount {
        value := value - amount;
      } else {
        value := 0;
      }
    }

    method Reset()
      modifies this
      ensures value == 0
    {
      value := 0;
    }
  }

  class DdrpMonitor {
    const knobs: Knobs
    const cycles: array<nat>
    const confidence: Counter
    var config: nat
    var phase: Phase
    var instr: nat
    var stamp: nat
    var disableDdrp: bool
    var disablePrefetcher: bool
    var prevWinner: nat

    ghost const Repr: set<object> := {this, cycles, confidence}

    ghost predicate Valid()
      reads this, cycles, confidence
    {
      && cycles.Length == CONFIGS && config < CONFIGS && prevWinner < CONFIGS
      && confidence.max == MOST_CONFIDENT && confidence.value <= MOST_CONFIDENT
    }

    ghost function Value(): Monitor
      reads this, cycles, confidence
    {
      Monitor(config, phase, cycles[..], instr, stamp, disableDdrp, disablePrefetcher,
              Vote(prevWinner, confidence.value))
    }

    constructor (k: Knobs)
      ensures Valid() && fresh(Repr) && knobs == k && Value() == INITIAL
    {
      knobs := k;
      cycles := new nat[CONFIGS](_ => 0);
      confidence := new Counter(CONFIDENCE_WIDTH, 0);
      config, phase, instr, stamp := 0, Explore, 0, 0;
      disableDdrp, disablePrefetcher := false, false;
      prevWinner := ALL_OFF;
      new;
      assert Pow2(3) == 8 by {
        assert Pow2(1) == 2;
      }
      assert cycles[..] == ZEROS;
    }

    method ResetCycles()
      requires cycles.Length == CONFIGS
      modifies cycles
      ensures cycles[..] == ZEROS
    {
      for i := 0 to CONFIGS
        invariant forall j :: 0 <= j < i ==> cycles[j] == 0
      {
        cycles[i] := 0;
      }
    }

    method SetParameters()
      requires config < CONFIGS
      modifies `disableDdrp, `disablePrefetcher
      ensures Value() == SetParams(old(Value()))
    {
      if config == 0 {
        disableDdrp, disablePrefetcher := false, false;
      } else if config == 1 {
        disableDdrp, disablePrefetcher := false, true;
      } else if config == 2 {
        disableDdrp, disablePrefetcher := true, false;
      } else {
        assert config == ALL_OFF;
        disableDdrp, disablePrefetcher := true, true;
      }
    }

    /** The configuration returned under hysteresis is the incumbent afterwards. */
    method GetWinnerConfig() returns (winner: nat)
      requires Valid() && NoneZero(cycles[..])
      modifies `prevWinner, confidence
      ensures Valid() && winner < CONFIGS
      ensures Value().(config := winner) == Choose(old(Value()), knobs)
      ensures knobs.hysteresis ==> winner == prevWinner
    {
      var minCycle := NEVER;
      winner := 0;
      for i := 0 to CONFIGS
        invariant winner < CONFIGS && Valid() && Value() == old(Value())
        invariant match FirstMin(cycles[..][..i])
                  case At(j, c) => minCycle == c && winner == j
                  case Nothing => minCycle == NEVER && winner == 0
      {
        assert cycles[..][i] != 0;
        FirstMinStep(cycles[..], i);
        if cycles[i] < minCycle {
          minCycle := cycles[i];
          winner := i;
        }
      }
      assert cycles[..][..CONFIGS] == cycles[..];
      if knobs.hysteresis {
        if winner == prevWinner {
          confidence.Incr(1);
        } else {
          assert winner != prevWinner;
          if confidence.value > 0 {
            winner := prevWinner;
            confidence.Decr(1);
          } else {
            prevWinner := winner;
            confidence.Reset();
          }
        }
      }
    }

    /** The end of an exploration epoch, the last instruction already counted. */
    method EndEpoch(clock: nat)
      requires Valid() && phase == Explore && (config == ALL_OFF ==> NoneZero(Measured(Value(), clock)))
      modifies this, cycles, confidence
      ensures Valid() && Value() == Explored(old(Value()), clock, knobs)
    {
      cycles[config] := Elapsed(clock, stamp);
      assert cycles[..] == Measured(old(Value()), clock);
      if config == ALL_OFF {
        phase := Exploit;
        config := GetWinnerConfig();
        ResetCycles();
        SetParameters();
      } else {
        config := config + 1;
        SetParameters();
      }
      instr := 0;
      stamp := clock;
    }

    method MonitorInstr(clock: nat)
      requires Valid() && Permitted(Value(), clock, knobs)
      modifies this, cycles, confidence
      ensures Valid() && Value() == Step(old(Value()), clock, knobs)
    {
      instr := instr + 1;
      if phase == Exploit {
        if instr >= knobs.exploit {
          phase := Explore;
          config := 0;
          instr := 0;
          stamp := clock;
          ResetCycles();
          SetParameters();
        }
      } else if instr >= knobs.explore {
        EndEpoch(clock);
      }
    }
  }

  // Whole runs: clocks[i] is the core cycle given to call i.

  ghost function Run(clocks: seq<nat>, n: nat, knobs: Knobs): Monitor
    requires n <= |clocks|
  {
    if n == 0 then INITIAL else Step(Run(clocks, n - 1, knobs), clocks[n - 1], knobs)
  }

  function AtLeastOne(epoch: nat): (e: nat)
    ensures e > 0
  {
    if epoch == 0 then 1 else epoch
  }

  function Period(knobs: Knobs): (p: nat)
    ensures p > 0
  {
    4 * AtLeastOne(knobs.explore) + AtLeastOne(knobs.exploit)
  }

  /** Round k, its part (0 to 3 explore that configuration, 4 exploits), and the calls made in that part. */
  datatype Place = Place(round: nat, part: nat, done: nat)

  predicate PlaceOk(at: Place, knobs: Knobs) {
    at.part <= CONFIGS && at.done < AtLeastOne(if at.part == CONFIGS then knobs.exploit else knobs.explore)
  }

  /** The number of calls before part `part` of round `round`. */
  function Mark(round: nat, part: nat, knobs: Knobs): nat {
    round * Period(knobs) + part * AtLeastOne(knobs.explore)
  }

  function Split(n: nat, period: nat, e: nat): Place
    requires period > 0 && e > 0
  {
    var r := n % period;
    if r < 4 * e then Place(n / period, r / e, r % e) else Place(n / period, CONFIGS, r - 4 * e)
  }

  function PlaceOf(n: nat, knobs: Knobs): Place {
    Split(n, Period(knobs), AtLeastOne(knobs.explore))
  }

  /** The clock before call k: the initial stamp is 0. */
  function ClockAt(clocks: seq<nat>, k: nat): nat {
    if 0 < k <= |clocks| then clocks[k - 1] else 0
  }

  function EpochCycles(clocks: seq<nat>, round: nat, part: nat, knobs: Knobs): nat {
    Elapsed(ClockAt(clocks, Mark(round, part + 1, knobs)), ClockAt(clocks, Mark(round, part, knobs)))
  }

  function MeasuredUpTo(clocks: seq<nat>, round: nat, part: nat, knobs: Knobs): (s: seq<nat>)
    ensures |s| == CONFIGS
  {
    seq(CONFIGS, c requires 0 <= c < CONFIGS => if c < part then EpochCycles(clocks, round, c, knobs) else 0)
  }

  /** The fastest configuration of each of the first m rounds. */
  function Winners(clocks: seq<nat>, m: nat, knobs: Knobs): (w: seq<nat>)
    ensures |w| == m
  {
    seq(m, k requires 0 <= k < m => Fastest(MeasuredUpTo(clocks, k, CONFIGS, knobs)))
  }

  function Tally(v: Vote, winners: seq<nat>): Vote {
    if winners == [] then v else Settle(Tally(v, winners[..|winners| - 1]), winners[|winners| - 1])
  }

  /** The whole state as a function of the clocks and of the place in the period alone. */
  function Closed(clocks: seq<nat>, at: Place, knobs: Knobs): Monitor
    requires PlaceOk(at, knobs)
  {
    var exploring := at.part < CONFIGS;
    var rounds := if exploring then at.round else at.round + 1;
    var vote := if knobs.hysteresis then Tally(FIRST_VOTE, Winners(clocks, rounds, knobs)) else FIRST_VOTE;
    var config :=
      if exploring then at.part
      else if knobs.hysteresis then vote.incumbent
      else Fastest(MeasuredUpTo(clocks, at.round, CONFIGS, knobs));
    SetParams(Monitor(config, if exploring then Explore else Exploit,
                      if exploring then MeasuredUpTo(clocks, at.round, at.part, knobs) else ZEROS, at.done,
                      ClockAt(clocks, Mark(at.round, at.part, knobs)), false, false, vote))
  }

  function Next(at: Place, knobs: Knobs): Place {
    if at.part == CONFIGS then
      if at.done + 1 < knobs.exploit then at.(done := at.done + 1) else Place(at.round + 1, 0, 0)
    else if at.done + 1 < knobs.explore then at.(done := at.done + 1) else Place(at.round, at.part + 1, 0)
  }

  lemma MarkNext(round: nat, part: nat, knobs: Knobs)
    ensures Mark(round, part + 1, knobs) == Mark(round, part, knobs) + AtLeastOne(knobs.explore)
    ensures Mark(round + 1, 0, knobs) == Mark(round, CONFIGS, knobs) + AtLeastOne(knobs.exploit)
  {
    var e := AtLeastOne(knobs.explore);
    assert (part + 1) * e == part * e + e && CONFIGS * e == 4 * e;
    assert (round + 1) * Period(knobs) == round * Period(knobs) + Period(knobs);
  }

  lemma NextMark(at: Place, knobs: Knobs)
    requires PlaceOk(at, knobs)
    ensures var next := Next(at, knobs);
      PlaceOk(next, knobs) &&
      Mark(next.round, next.part, knobs) + next.done == Mark(at.round, at.part, knobs) + at.done + 1
  {
    MarkNext(at.round, at.part, knobs);
  }

  /** The call that ends an epoch of exploration has measured that epoch. */
  lemma MeasuredStep(clocks: seq<nat>, at: Place, knobs: Knobs, cycles: seq<nat>)
    requires PlaceOk(at, knobs) && at.part < CONFIGS && Next(at, knobs).done == 0
    requires Mark(at.round, at.part, knobs) + at.done < |clocks|
    requires cycles == MeasuredUpTo(clocks, at.round, at.part, knobs)
    ensures var n := Mark(at.round, at.part, knobs) + at.done;
      cycles[at.part := Elapsed(clocks[n], ClockAt(clocks, Mark(at.round, at.part, knobs)))] ==
      MeasuredUpTo(clocks, at.round, at.part + 1, knobs)
  {
    MarkNext(at.round, at.part, knobs);
    var n := Mark(at.round, at.part, knobs) + at.done;
    assert ClockAt(clocks, n + 1) == clocks[n];
  }

  lemma WinnersStep(clocks: seq<nat>, k: nat, v: Vote, knobs: Knobs)
    ensures Tally(v, Winners(clocks, k + 1, knobs)) ==
            Settle(Tally(v, Winners(clocks, k, knobs)), Fastest(MeasuredUpTo(clocks, k, CONFIGS, knobs)))
  {
    assert Winners(clocks, k + 1, knobs)[..k] == Winners(clocks, k, knobs);
  }

  /** The call that ends an exploration chooses by the round's four measurements. */
  lemma RoundEnds(clocks: seq<nat>, at: Place, knobs: Knobs)
    requires PlaceOk(at, knobs) && at.part == ALL_OFF && Next(at, knobs).done == 0
    requires Mark(at.round, at.part, knobs) + at.done < |clocks|
    ensures Step(Closed(clocks, at, knobs), clocks[Mark(at.round, at.part, knobs) + at.done], knobs) ==
            Closed(clocks, Place(at.round, CONFIGS, 0), knobs)
  {
    NextMark(at, knobs);
    var n := Mark(at.round, at.part, knobs) + at.done;
    assert ClockAt(clocks, n + 1) == clocks[n];
    MeasuredStep(clocks, at, knobs, MeasuredUpTo(clocks, at.round, at.part, knobs));
    WinnersStep(clocks, at.round, FIRST_VOTE, knobs);
  }

  lemma EpochEnds(clocks: seq<nat>, at: Place, knobs: Knobs)
    requires PlaceOk(at, knobs) && at.part < ALL_OFF && Next(at, knobs).done == 0
    requires Mark(at.round, at.part, knobs) + at.done < |clocks|
    ensures Step(Closed(clocks, at, knobs), clocks[Mark(at.round, at.part, knobs) + at.done], knobs) ==
            Closed(clocks, Place(at.round, at.part + 1, 0), knobs)
  {
    NextMark(at, knobs);
    var n := Mark(at.round, at.part, knobs) + at.done;
    assert ClockAt(clocks, n + 1) == clocks[n];
    MeasuredStep(clocks, at, knobs, MeasuredUpTo(clocks, at.round, at.part, knobs));
  }

  lemma ExploitationEnds(clocks: seq<nat>, at: Place, knobs: Knobs)
    requires PlaceOk(at, knobs) && at.part == CONFIGS && Next(at, knobs).done == 0
    requires Mark(at.round, at.part, knobs) + at.done < |clocks|
    ensures Step(Closed(clocks, at, knobs), clocks[Mark(at.round, at.part, knobs) + at.done], knobs) ==
            Closed(clocks, Place(at.round + 1, 0, 0), knobs)
  {
    NextMark(at, knobs);
    var n := Mark(at.round, at.part, knobs) + at.done;
    assert ClockAt(clocks, n + 1) == clocks[n];
    assert MeasuredUpTo(clocks, at.round + 1, 0, knobs) == ZEROS;
  }

  lemma {:induction false} StepIsClosed(clocks: seq<nat>, at: Place, knobs: Knobs)
    requires PlaceOk(at, knobs) && Mark(at.round, at.part, knobs) + at.done < |clocks|
    ensures PlaceOk(Next(at, knobs), knobs)
    ensures Step(Closed(clocks, at, knobs), clocks[Mark(at.round, at.part, knobs) + at.done], knobs) ==
            Closed(clocks, Next(at, knobs), knobs)
  {
    if Next(at, knobs).done == 0 {
      if at.part == CONFIGS {
        ExploitationEnds(clocks, at, knobs);
      } else if at.part == ALL_OFF {
        RoundEnds(clocks, at, knobs);
      } else {
        EpochEnds(clocks, at, knobs);
      }
    }
  }

  lemma SplitUnique(n: nat, at: Place, period: nat, e: nat)
    requires e > 0 && period > 4 * e && at.part <= CONFIGS
    requires at.done < if at.part == CONFIGS then period - 4 * e else e
    requires n == at.round * period + (at.part * e + at.done)
    ensures at == Split(n, period, e)
  {
    var r := at.part * e + at.done;
    if at.part < CONFIGS {
      MulMonotone(at.part, 3, e);
    }
    DivUnique(n, at.round, r, period);
    if at.part < CONFIGS {
      DivUnique(r, at.part, at.done, e);
    }
  }

  lemma PlaceUnique(n: nat, at: Place, knobs: Knobs)
    requires PlaceOk(at, knobs) && n == Mark(at.round, at.part, knobs) + at.done
    ensures at == PlaceOf(n, knobs)
  {
    SplitUnique(n, at, Period(knobs), AtLeastOne(knobs.explore));
  }

  /** After n calls the whole monitor is a function of the clocks and of n modulo 4E+X. */
  lemma {:induction false} RunIsClosed(clocks: seq<nat>, n: nat, knobs: Knobs)
    requires n <= |clocks|
    ensures PlaceOk(PlaceOf(n, knobs), knobs)
    ensures Mark(PlaceOf(n, knobs).round, PlaceOf(n, knobs).part, knobs) + PlaceOf(n, knobs).done == n
    ensures Run(clocks, n, knobs) == Closed(clocks, PlaceOf(n, knobs), knobs)
  {
    if n == 0 {
      PlaceUnique(0, Place(0, 0, 0), knobs);
      assert MeasuredUpTo(clocks, 0, 0, knobs) == ZEROS;
      assert Winners(clocks, 0, knobs) == [];
    } else {
      RunIsClosed(clocks, n - 1, knobs);
      var at := PlaceOf(n - 1, knobs);
      StepIsClosed(clocks, at, knobs);
      NextMark(at, knobs);
      PlaceUnique(n, Next(at, knobs), knobs);
    }
  }

  /** Two calls a whole number of periods apart see the same phase and, while exploring, the same configuration;
      the disable flags always say what the configuration says. */
  lemma {:induction false} PhaseIsPeriodic(clocks: seq<nat>, n: nat, knobs: Knobs)
    requires n <= |clocks|
    ensures var m := Run(clocks, n, knobs);
      var e := AtLeastOne(knobs.explore);
      var r := n % Period(knobs);
      && (m.phase.Explore? <==> r < 4 * e)
      && (m.phase.Explore? ==> m.config == r / e)
      && m.ddrpOff == (m.config >= 2) && m.prefetcherOff == (m.config % 2 == 1)
  {
    RunIsClosed(clocks, n, knobs);
    ClosedPhase(clocks, PlaceOf(n, knobs), knobs);
    SplitParts(n, Period(knobs), AtLeastOne(knobs.explore));
  }

  lemma SplitParts(n: nat, period: nat, e: nat)
    requires 0 < period && 0 < e
    ensures var at, r := Split(n, period, e), n % period;
      (at.part < CONFIGS <==> r < 4 * e) && (at.part < CONFIGS ==> at.part == r / e)
  {
  }

  lemma ClosedPhase(clocks: seq<nat>, at: Place, knobs: Knobs)
    requires PlaceOk(at, knobs)
    ensures var m := Closed(clocks, at, knobs);
      && (m.phase.Explore? <==> at.part < CONFIGS) && (m.phase.Explore? ==> m.config == at.part)
      && m.ddrpOff == (m.config >= 2) && m.prefetcherOff == (m.config % 2 == 1)
  {
  }

  /** The zero-cycle assertion holds in a call exactly when that call does not end an exploration, or the clock
      moved during each of its four epochs. */
  lemma {:induction false} AssertionHoldsIffClockMoves(clocks: seq<nat>, n: nat, knobs: Knobs)
    requires n < |clocks| && forall i :: 0 <= i < |clocks| ==> clocks[i] < WORD
    ensures var at := PlaceOf(n, knobs);
      Permitted(Run(clocks, n, knobs), clocks[n], knobs) <==>
      (Mark(at.round, CONFIGS, knobs) == n + 1 ==>
       forall c: nat :: c < CONFIGS ==>
         ClockAt(clocks, Mark(at.round, c, knobs)) != ClockAt(clocks, Mark(at.round, c + 1, knobs)))
  {
    RunIsClosed(clocks, n, knobs);
    var at := PlaceOf(n, knobs);
    var m := Run(clocks, n, knobs);
    MarkNext(at.round, 3, knobs);
    EndOfExploration(n, at, knobs);
    if EndsExploration(m, knobs) {
      MeasuredStep(clocks, at, knobs, m.cycles);
      forall c: nat | c < CONFIGS
        ensures Measured(m, clocks[n])[c] != 0 <==>
                ClockAt(clocks, Mark(at.round, c, knobs)) != ClockAt(clocks, Mark(at.round, c + 1, knobs))
      {
      }
    }
  }

  lemma EndOfExploration(n: nat, at: Place, knobs: Knobs)
    requires PlaceOk(at, knobs) && n == Mark(at.round, at.part, knobs) + at.done
    ensures Mark(at.round, CONFIGS, knobs) == n + 1 <==>
            at.part == ALL_OFF && at.done + 1 >= knobs.explore
  {
    var e := AtLeastOne(knobs.explore);
    assert CONFIGS * e == 4 * e;
    if at.part < ALL_OFF {
      assert at.part * e <= 2 * e;
    }
  }

  /** Four instructions retired in one cycle, with one-instruction epochs: the fourth call's assertion fails. */
  lemma AssertionCanFail(clock: nat, knobs: Knobs)
    requires knobs.explore <= 1
    ensures var clocks := [clock, clock, clock, clock];
      !Permitted(Run(clocks, 3, knobs), clocks[3], knobs)
  {
    var clocks := [clock, clock, clock, clock];
    assert Run(clocks, 0, knobs) == INITIAL;
    var one, two, three := Run(clocks, 1, knobs), Run(clocks, 2, knobs), Run(clocks, 3, knobs);
    assert one.config == 1 && one.stamp == clock && one.phase.Explore? && one.instr == 0;
    assert two.config == 2 && two.stamp == clock && two.phase.Explore? && two.instr == 0;
    assert three.config == ALL_OFF && three.stamp == clock && three.phase.Explore? && three.instr == 0;
    assert Measured(three, clock)[ALL_OFF] == 0;
  }

  // What is measured, and what is chosen by it.

  /** The core's clock never runs backwards, and fits 64 bits. */
  ghost predicate Monotone(clocks: seq<nat>) {
    && (forall i :: 0 <= i < |clocks| ==> clocks[i] < WORD)
    && (forall i, j :: 0 <= i < j < |clocks| ==> clocks[i] <= clocks[j])
  }

  lemma ClockGrows(clocks: seq<nat>, a: nat, b: nat)
    requires Monotone(clocks) && a <= b <= |clocks|
    ensures ClockAt(clocks, a) <= ClockAt(clocks, b) < WORD
  {
  }

  lemma EpochIsBetween(clocks: seq<nat>, round: nat, c: nat, knobs: Knobs)
    requires Monotone(clocks) && Mark(round, c + 1, knobs) <= |clocks|
    ensures EpochCycles(clocks, round, c, knobs) ==
            ClockAt(clocks, Mark(round, c + 1, knobs)) - ClockAt(clocks, Mark(round, c, knobs))
  {
    MarkNext(round, c, knobs);
    ClockGrows(clocks, Mark(round, c, knobs), Mark(round, c + 1, knobs));
  }

  lemma MarkOrder(round: nat, a: nat, b: nat, knobs: Knobs)
    ensures a <= b ==> Mark(round, a, knobs) <= Mark(round, b, knobs)
    ensures a < b ==> Mark(round, a + 1, knobs) <= Mark(round, b, knobs)
  {
    if a < b {
      MulMonotone(a + 1, b, AtLeastOne(knobs.explore));
    }
    MarkNext(round, a, knobs);
  }

  /** Where call n lies in the exploration of a round. */
  lemma PlaceIn(round: nat, n: nat, knobs: Knobs) returns (at: Place)
    requires Mark(round, 0, knobs) <= n < Mark(round, CONFIGS, knobs)
    ensures PlaceOk(at, knobs) && at.round == round && at.part < CONFIGS && at == PlaceOf(n, knobs)
    ensures Mark(round, at.part, knobs) + at.done == n
  {
    var e := AtLeastOne(knobs.explore);
    var r := n - Mark(round, 0, knobs);
    at := Place(round, if r < e then 0 else if r < 2 * e then 1 else if r < 3 * e then 2 else 3, 0);
    at := at.(done := r - at.part * e);
    PlaceUnique(n, at, knobs);
  }

  /** While a round explores, each of its finished epochs is recorded as the difference of the clocks at its ends, and
      nothing else is recorded. */
  lemma {:induction false} MeasuresDifferences(clocks: seq<nat>, round: nat, n: nat, knobs: Knobs, c: nat)
    requires Monotone(clocks) && Mark(round, 0, knobs) <= n < Mark(round, CONFIGS, knobs) && n <= |clocks|
    requires c < CONFIGS
    ensures var m := Run(clocks, n, knobs);
      |m.cycles| == CONFIGS &&
      m.cycles[c] == if Mark(round, c + 1, knobs) <= n
                     then ClockAt(clocks, Mark(round, c + 1, knobs)) - ClockAt(clocks, Mark(round, c, knobs)) else 0
  {
    RunIsClosed(clocks, n, knobs);
    var at := PlaceIn(round, n, knobs);
    FinishedIff(at, n, c, knobs);
    if c < at.part {
      EpochIsBetween(clocks, round, c, knobs);
    }
  }

  lemma FinishedIff(at: Place, n: nat, c: nat, knobs: Knobs)
    requires PlaceOk(at, knobs) && at.part < CONFIGS && Mark(at.round, at.part, knobs) + at.done == n
    ensures Mark(at.round, c + 1, knobs) <= n <==> c < at.part
  {
    MarkNext(at.round, at.part, knobs);
    MarkOrder(at.round, c, at.part, knobs);
    MarkOrder(at.round, at.part + 1, c + 1, knobs);
  }

  /** Of the four epochs of a round, w's took the fewest cycles, and those before it took more. */
  ghost predicate TookLeast(clocks: seq<nat>, round: nat, knobs: Knobs, w: nat) {
    w < CONFIGS && forall c: nat :: c < CONFIGS ==> Beats(clocks, round, knobs, w, c)
  }

  ghost predicate Beats(clocks: seq<nat>, round: nat, knobs: Knobs, w: nat, c: nat) {
    var least := ClockAt(clocks, Mark(round, w + 1, knobs)) - ClockAt(clocks, Mark(round, w, knobs));
    var took := ClockAt(clocks, Mark(round, c + 1, knobs)) - ClockAt(clocks, Mark(round, c, knobs));
    least <= took && (c < w ==> least < took)
  }

  lemma FastestTookLeast(clocks: seq<nat>, round: nat, knobs: Knobs)
    requires Monotone(clocks) && Mark(round, CONFIGS, knobs) <= |clocks|
    ensures TookLeast(clocks, round, knobs, Fastest(MeasuredUpTo(clocks, round, CONFIGS, knobs)))
  {
    var cycles := MeasuredUpTo(clocks, round, CONFIGS, knobs);
    FirstMinIsFirst(cycles);
    forall c: nat | c < CONFIGS
      ensures cycles[c] == ClockAt(clocks, Mark(round, c + 1, knobs)) - ClockAt(clocks, Mark(round, c, knobs))
    {
      MarkOrder(round, c, CONFIGS, knobs);
      EpochIsBetween(clocks, round, c, knobs);
    }
    MarkOrder(round, 2, CONFIGS, knobs);
    ClockGrows(clocks, Mark(round, 2, knobs), Mark(round, CONFIGS, knobs));
    assert cycles[0] + cycles[1] < WORD;
  }

  /** The call that ends a round's exploration takes the configuration with the fewest cycles, the first on a tie;
      with hysteresis, only if that is the incumbent or the incumbent has no confidence left. */
  lemma {:induction false} ChoosesFastest(clocks: seq<nat>, round: nat, n: nat, knobs: Knobs) returns (w: nat)
    requires Monotone(clocks) && n < |clocks| && n + 1 == Mark(round, CONFIGS, knobs)
    ensures TookLeast(clocks, round, knobs, w)
    ensures Chosen(knobs, Run(clocks, n, knobs).vote, Run(clocks, n + 1, knobs), w)
  {
    MarkNext(round, 3, knobs);
    RunIsClosed(clocks, n + 1, knobs);
    RunIsClosed(clocks, n, knobs);
    PlaceUnique(n + 1, Place(round, CONFIGS, 0), knobs);
    PlaceUnique(n, Place(round, 3, AtLeastOne(knobs.explore) - 1), knobs);
    WinnersStep(clocks, round, FIRST_VOTE, knobs);
    FastestTookLeast(clocks, round, knobs);
    w := Fastest(MeasuredUpTo(clocks, round, CONFIGS, knobs));
  }

  /** The state after a choice, given who was the incumbent and whose epoch was the shortest. */
  predicate Chosen(knobs: Knobs, v: Vote, m: Monitor, w: nat) {
    && m.phase.Exploit?
    && m.config == (if knobs.hysteresis && w != v.incumbent && v.confidence > 0 then v.incumbent else w)
    && m.vote == if !knobs.hysteresis then v
                 else if w == v.incumbent then Vote(w, if v.confidence < 7 then v.confidence + 1 else 7)
                 else if v.confidence > 0 then Vote(v.incumbent, v.confidence - 1)
                 else Vote(w, 0)
  }

  // Hysteresis over the sequence of round winners.

  /** An incumbent that keeps losing stays for as many rounds as its confidence, is displaced by the next loss and
      does not come back. */
  lemma {:induction false} DisplacedExactly(v: Vote, losses: seq<nat>)
    requires v.incumbent !in losses
    ensures Tally(v, losses).incumbent == v.incumbent <==> |losses| <= v.confidence
    ensures |losses| <= v.confidence ==> Tally(v, losses).confidence == v.confidence - |losses|
  {
    if losses != [] {
      DisplacedExactly(v, losses[..|losses| - 1]);
      assert losses[|losses| - 1] in losses;
    }
  }

  lemma {:induction false} TallyBounded(winners: seq<nat>)
    ensures Tally(FIRST_VOTE, winners).confidence <= MOST_CONFIDENT
  {
    if winners != [] {
      TallyBounded(winners[..|winners| - 1]);
    }
  }

  lemma {:induction false} TallyAppend(v: Vote, a: seq<nat>, b: seq<nat>)
    ensures Tally(v, a + b) == Tally(Tally(v, a), b)
  {
    if b == [] {
      assert a + b == a;
    } else {
      assert (a + b)[..|a + b| - 1] == a + b[..|b| - 1];
      TallyAppend(v, a, b[..|b| - 1]);
    }
  }

  /** In any run, eight losses in a row displace whoever is the incumbent. */
  lemma EightLossesDisplace(history: seq<nat>, losses: seq<nat>)
    requires |losses| >= 8 && Tally(FIRST_VOTE, history).incumbent !in losses
    ensures Tally(FIRST_VOTE, history + losses).incumbent != Tally(FIRST_VOTE, history).incumbent
  {
    TallyBounded(history);
    TallyAppend(FIRST_VOTE, history, losses);
    DisplacedExactly(Tally(FIRST_VOTE, history), losses);
  }

  datatype Ledger = Ledger(matches: nat, clipped: nat, retained: nat)

  /** How often the fastest configuration was the incumbent, how often that no longer raised a full counter, and
      how often a loser was retained. */
  function Count(winners: seq<nat>): Ledger {
    if winners == [] then Ledger(0, 0, 0) else
    var l := Count(winners[..|winners| - 1]);
    var v := Tally(FIRST_VOTE, winners[..|winners| - 1]);
    if winners[|winners| - 1] == v.incumbent
    then l.(matches := l.matches + 1, clipped := if v.confidence >= MOST_CONFIDENT then l.clipped + 1 else l.clipped)
    else l.(retained := if v.confidence > 0 then l.retained + 1 else l.retained)
  }

  /** Every retained mismatch was paid for by an earlier match; what is left over is the confidence. */
  lemma {:induction false} RetainedIsPaidFor(winners: seq<nat>)
    ensures var l := Count(winners);
      l.retained + Tally(FIRST_VOTE, winners).confidence == l.matches - l.clipped
  {
    if winners != [] {
      RetainedIsPaidFor(winners[..|winners| - 1]);
      TallyBounded(winners[..|winners| - 1]);
    }
  }
}
