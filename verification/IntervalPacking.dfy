/** Keeping usage intervals under a capacity, and why deciding them greedily, in order of their ends,
    keeps as many as any other choice. A choice says of every presented interval whether it is kept. */
module IntervalPacking {

  /** The quanta lo, lo+1, ..., hi-1. */
  datatype Interval = Interval(lo: nat, hi: nat)

  predicate Covers(iv: Interval, t: nat) {
    iv.lo <= t < iv.hi
  }

  /** How many of the kept intervals cover quantum t. */
  function Load(ivs: seq<Interval>, choice: seq<bool>, t: nat): nat
    requires |choice| == |ivs|
  {
    if ivs == [] then 0 else
    var n := |ivs| - 1;
    Load(ivs[..n], choice[..n], t) + (if choice[n] && Covers(ivs[n], t) then 1 else 0)
  }

  function Kept(choice: seq<bool>): nat {
    if choice == [] then 0 else
    Kept(choice[..|choice| - 1]) + (if choice[|choice| - 1] then 1 else 0)
  }

  ghost predicate Feasible(ivs: seq<Interval>, choice: seq<bool>, cap: nat) {
    |choice| == |ivs| && forall t: nat :: Load(ivs, choice, t) <= cap
  }

  /** m is the largest number of intervals that can be kept under the capacity. */
  ghost predicate IsOptimum(ivs: seq<Interval>, cap: nat, m: nat) {
    && (exists choice :: Feasible(ivs, choice, cap) && Kept(choice) == m)
    && (forall choice :: Feasible(ivs, choice, cap) ==> Kept(choice) <= m)
  }

  ghost predicate EndsOrdered(ivs: seq<Interval>) {
    forall i, j :: 0 <= i < j < |ivs| ==> ivs[i].hi <= ivs[j].hi
  }

  predicate Fits(ivs: seq<Interval>, choice: seq<bool>, iv: Interval, cap: nat)
    requires |choice| == |ivs|
  {
    forall t: nat | iv.lo <= t < iv.hi :: Load(ivs, choice, t) < cap
  }

  /** The online rule: keep an interval iff every quantum it covers is still below capacity. */
  function Greedy(ivs: seq<Interval>, cap: nat): (choice: seq<bool>)
    ensures |choice| == |ivs|
  {
    if ivs == [] then [] else
    var n := |ivs| - 1;
    var c := Greedy(ivs[..n], cap);
    c + [Fits(ivs[..n], c, ivs[n], cap)]
  }

  lemma {:induction false} GreedyFeasible(ivs: seq<Interval>, cap: nat)
    ensures Feasible(ivs, Greedy(ivs, cap), cap)
  {
    if ivs != [] {
      var n := |ivs| - 1;
      GreedyFeasible(ivs[..n], cap);
      var choice := Greedy(ivs, cap);
      assert choice[..n] == Greedy(ivs[..n], cap);
      forall t: nat ensures Load(ivs, choice, t) <= cap {
        assert Load(ivs[..n], choice[..n], t) <= cap;
      }
    }
  }

  lemma {:induction false} LoadUpdate(ivs: seq<Interval>, choice: seq<bool>, i: nat, keep: bool, t: nat)
    requires |choice| == |ivs| && i < |ivs|
    ensures Load(ivs, choice[i := keep], t) + (if choice[i] && Covers(ivs[i], t) then 1 else 0)
         == Load(ivs, choice, t) + (if keep && Covers(ivs[i], t) then 1 else 0)
  {
    var n := |ivs| - 1;
    if i == n {
      assert choice[i := keep][..n] == choice[..n];
    } else {
      LoadUpdate(ivs[..n], choice[..n], i, keep, t);
      assert choice[i := keep][..n] == choice[..n][i := keep];
    }
  }

  lemma {:induction false} KeptUpdate(choice: seq<bool>, i: nat, keep: bool)
    requires i < |choice|
    ensures Kept(choice[i := keep]) + (if choice[i] then 1 else 0) == Kept(choice) + (if keep then 1 else 0)
  {
    var n := |choice| - 1;
    if i == n {
      assert choice[i := keep][..n] == choice[..n];
    } else {
      KeptUpdate(choice[..n], i, keep);
      assert choice[i := keep][..n] == choice[..n][i := keep];
    }
  }

  /** Load only grows as more intervals are considered; where it does grow, a later kept interval covers t. */
  lemma {:induction false} LateCover(ivs: seq<Interval>, choice: seq<bool>, k: nat, t: nat) returns (j: nat)
    requires |choice| == |ivs| && k <= |ivs|
    ensures Load(ivs[..k], choice[..k], t) <= Load(ivs, choice, t)
    ensures Load(ivs[..k], choice[..k], t) < Load(ivs, choice, t)
            ==> k <= j < |ivs| && choice[j] && Covers(ivs[j], t)
  {
    j := 0;
    var n := |ivs|;
    if k == n {
      assert ivs[..k] == ivs && choice[..k] == choice;
    } else {
      j := LateCover(ivs[..n - 1], choice[..n - 1], k, t);
      assert ivs[..n - 1][..k] == ivs[..k] && choice[..n - 1][..k] == choice[..k];
      if choice[n - 1] && Covers(ivs[n - 1], t) {
        j := n - 1;
      }
    }
  }

  /** What the greedy rule rejects, no feasible choice that agrees with it so far can contain. */
  lemma RejectedIsOut(ivs: seq<Interval>, choice: seq<bool>, k: nat, cap: nat)
    requires Feasible(ivs, choice, cap) && k < |ivs|
    requires choice[..k] == Greedy(ivs[..k], cap)
    requires !Fits(ivs[..k], choice[..k], ivs[k], cap)
    ensures !choice[k]
  {
    var t: nat :| ivs[k].lo <= t < ivs[k].hi && Load(ivs[..k], choice[..k], t) >= cap;
    var _ := LateCover(ivs, choice, k + 1, t);
    assert ivs[..k + 1][..k] == ivs[..k] && choice[..k + 1][..k] == choice[..k];
    assert Load(ivs[..k + 1], choice[..k + 1], t) <= cap;
  }

  /** The first quantum of iv that is already full, or iv.hi if there is none. */
  lemma FirstTight(ivs: seq<Interval>, choice: seq<bool>, iv: Interval, cap: nat) returns (t: nat)
    requires |choice| == |ivs| && iv.lo <= iv.hi
    ensures iv.lo <= t <= iv.hi
    ensures forall u: nat :: iv.lo <= u < t ==> Load(ivs, choice, u) < cap
    ensures t < iv.hi ==> Load(ivs, choice, t) >= cap
  {
    t := iv.lo;
    while t < iv.hi && Load(ivs, choice, t) < cap
      invariant iv.lo <= t <= iv.hi
      invariant forall u: nat :: iv.lo <= u < t ==> Load(ivs, choice, u) < cap
    {
      t := t + 1;
    }
  }

  /** The exchange step: a feasible choice agreeing with greedy on the first k intervals can be changed to
      agree on one more, without keeping fewer. If the interval greedy adds does not simply fit, a later
      kept interval covers its first full quantum, ends no earlier, and is dropped for it. */
  lemma Exchange(ivs: seq<Interval>, choice: seq<bool>, k: nat, cap: nat) returns (better: seq<bool>)
    requires EndsOrdered(ivs) && Feasible(ivs, choice, cap) && k < |ivs|
    requires choice[..k] == Greedy(ivs[..k], cap)
    ensures Feasible(ivs, better, cap) && Kept(better) >= Kept(choice)
    ensures better[..k + 1] == Greedy(ivs[..k + 1], cap)
  {
    var iv, keep := ivs[k], Fits(ivs[..k], choice[..k], ivs[k], cap);
    assert ivs[..k + 1][..k] == ivs[..k];
    assert Greedy(ivs[..k + 1], cap) == choice[..k] + [keep];
    better := choice;
    if !keep {
      RejectedIsOut(ivs, choice, k, cap);
    } else if !choice[k] {
      better := choice[k := true];
      KeptUpdate(choice, k, true);
      forall t: nat ensures Load(ivs, better, t) == Load(ivs, choice, t) + (if Covers(iv, t) then 1 else 0) {
        LoadUpdate(ivs, choice, k, true, t);
      }
      if iv.lo <= iv.hi {
        var tight := FirstTight(ivs, choice, iv, cap);
        if tight < iv.hi {
          var j := LateCover(ivs, choice, k, tight);
          assert Load(ivs[..k], choice[..k], tight) < cap;
          var withK := better;
          better := withK[j := false];
          KeptUpdate(withK, j, false);
          forall t: nat ensures Load(ivs, better, t) <= cap {
            LoadUpdate(ivs, withK, j, false, t);
            assert Load(ivs, choice, t) <= cap;
          }
        }
      }
    }
  }

  lemma {:induction false} AgreeingIsNoBetter(ivs: seq<Interval>, choice: seq<bool>, k: nat, cap: nat)
    requires EndsOrdered(ivs) && Feasible(ivs, choice, cap) && k <= |ivs|
    requires choice[..k] == Greedy(ivs[..k], cap)
    ensures Kept(choice) <= Kept(Greedy(ivs, cap))
    decreases |ivs| - k
  {
    if k == |ivs| {
      assert ivs[..k] == ivs && choice[..k] == choice;
    } else {
      var better := Exchange(ivs, choice, k, cap);
      AgreeingIsNoBetter(ivs, better, k + 1, cap);
    }
  }

  /** Deciding greedily in order of ends keeps as many intervals as possible. */
  lemma GreedyIsOptimal(ivs: seq<Interval>, cap: nat)
    requires EndsOrdered(ivs)
    ensures Feasible(ivs, Greedy(ivs, cap), cap)
    ensures IsOptimum(ivs, cap, Kept(Greedy(ivs, cap)))
  {
    GreedyFeasible(ivs, cap);
    forall choice | Feasible(ivs, choice, cap) ensures Kept(choice) <= Kept(Greedy(ivs, cap)) {
      assert choice[..0] == Greedy(ivs[..0], cap);
      AgreeingIsNoBetter(ivs, choice, 0, cap);
    }
  }

  /** Without capacity only empty intervals can be kept. */
  lemma {:induction false} NothingFits(ivs: seq<Interval>, choice: seq<bool>)
    requires Feasible(ivs, choice, 0) && forall i :: 0 <= i < |ivs| ==> ivs[i].lo < ivs[i].hi
    ensures Kept(choice) == 0
  {
    if ivs != [] {
      var n := |ivs| - 1;
      assert Load(ivs, choice, ivs[n].lo) <= 0;
      forall t: nat ensures Load(ivs[..n], choice[..n], t) <= 0 {
        assert Load(ivs, choice, t) <= 0;
      }
      NothingFits(ivs[..n], choice[..n]);
    }
  }

  lemma OptimumIsUnique(ivs: seq<Interval>, cap: nat, m: nat, k: nat)
    requires IsOptimum(ivs, cap, m) && IsOptimum(ivs, cap, k)
    ensures m == k
  {
  }

  lemma LoadAppend(ivs: seq<Interval>, choice: seq<bool>, iv: Interval, keep: bool, t: nat)
    requires |choice| == |ivs|
    ensures Load(ivs + [iv], choice + [keep], t) == Load(ivs, choice, t) + (if keep && Covers(iv, t) then 1 else 0)
    ensures Kept(choice + [keep]) == Kept(choice) + (if keep then 1 else 0)
  {
    assert (ivs + [iv])[..|ivs|] == ivs && (choice + [keep])[..|choice|] == choice;
  }

  /** Intervals that all cover t can be kept up to the capacity and no further. */
  lemma {:induction false} LoadOfCommon(ivs: seq<Interval>, choice: seq<bool>, t: nat)
    requires |choice| == |ivs| && forall i :: 0 <= i < |ivs| ==> Covers(ivs[i], t)
    ensures Load(ivs, choice, t) == Kept(choice)
  {
    if ivs != [] {
      LoadOfCommon(ivs[..|ivs| - 1], choice[..|ivs| - 1], t);
    }
  }

  lemma {:induction false} LoadBelowKept(ivs: seq<Interval>, choice: seq<bool>, t: nat)
    requires |choice| == |ivs|
    ensures Load(ivs, choice, t) <= Kept(choice) <= |ivs|
  {
    if ivs != [] {
      LoadBelowKept(ivs[..|ivs| - 1], choice[..|ivs| - 1], t);
    }
  }

  lemma {:induction false} KeptAll(n: nat)
    ensures Kept(seq(n, _ => true)) == n
  {
    if n > 0 {
      assert seq(n, _ => true)[..n - 1] == seq(n - 1, _ => true);
      KeptAll(n - 1);
    }
  }

  /** As many intervals as the capacity can all be kept. */
  lemma FewIntervals(ivs: seq<Interval>, cap: nat)
    requires |ivs| <= cap
    ensures IsOptimum(ivs, cap, |ivs|)
  {
    var all := seq(|ivs|, _ => true);
    KeptAll(|ivs|);
    forall t: nat ensures Load(ivs, all, t) <= cap {
      LoadBelowKept(ivs, all, t);
    }
    assert Feasible(ivs, all, cap);
    forall choice | Feasible(ivs, choice, cap) ensures Kept(choice) <= |ivs| {
      LoadBelowKept(ivs, choice, 0);
    }
  }
}
