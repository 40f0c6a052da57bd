/** The hashed perceptron of src/perc_pred.cc: one weight array per feature, a prediction by the sum of one weight
    of each, saturating training. Weights and thresholds are whole numbers, as the knobs are. */
module Perceptron {
  datatype Knobs = Knobs(threshold: int, maxWeight: int, minWeight: int, up: nat, down: nat,
                         posTrain: int, negTrain: int)

  predicate Indexes(table: seq<seq<int>>, at: seq<nat>) {
    |at| == |table| && forall f :: 0 <= f < |at| ==> at[f] < |table[f]|
  }

  /** The weights a state selects, one from each feature's array. */
  function Selected(table: seq<seq<int>>, at: seq<nat>): (ws: seq<int>)
    requires Indexes(table, at)
    ensures |ws| == |table|
  {
    seq(|table|, f requires 0 <= f < |table| => table[f][at[f]])
  }

  function Sum(ws: seq<int>): int {
    if ws == [] then 0 else Sum(ws[..|ws| - 1]) + ws[|ws| - 1]
  }

  /** Raised or lowered by one step, unless that would leave the range. */
  function Adjust(w: int, truth: bool, k: Knobs): int {
    if truth then if w + k.up <= k.maxWeight then w + k.up else w
    else if w - k.down >= k.minWeight then w - k.down else w
  }

  function AdjustAll(ws: seq<int>, truth: bool, k: Knobs): (ws': seq<int>)
    ensures |ws'| == |ws|
  {
    seq(|ws|, f requires 0 <= f < |ws| => Adjust(ws[f], truth, k))
  }

  /** A wrong prediction always trains, a right one only while the sum lies between the training thresholds. */
  predicate Trains(sum: int, predicted: bool, truth: bool, k: Knobs) {
    predicted != truth || k.negTrain <= sum <= k.posTrain
  }

  function AdjustTable(table: seq<seq<int>>, at: seq<nat>, truth: bool, k: Knobs): (t: seq<seq<int>>)
    requires Indexes(table, at)
    ensures Indexes(t, at)
  {
    seq(|table|, f requires 0 <= f < |table| => table[f][at[f] := Adjust(table[f][at[f]], truth, k)])
  }

  predicate InRange(w: int, k: Knobs) {
    k.minWeight <= w <= k.maxWeight
  }

  ghost predicate TableInRange(table: seq<seq<int>>, k: Knobs) {
    forall f, i :: 0 <= f < |table| && 0 <= i < |table[f]| ==> InRange(table[f][i], k)
  }

  class PerceptronPredictor {
    const knobs: Knobs
    const weights: array<seq<int>>

    constructor (sizes: seq<nat>, k: Knobs)
      ensures fresh(weights) && knobs == k && weights.Length == |sizes|
      ensures forall f :: 0 <= f < |sizes| ==> weights[f] == seq(sizes[f], _ => 0)
      ensures k.minWeight <= 0 <= k.maxWeight ==> TableInRange(weights[..], k)
    {
      knobs := k;
      weights := new seq<int>[|sizes|](f requires 0 <= f < |sizes| => seq(sizes[f], _ => 0));
    }

    method Predict(at: seq<nat>) returns (prediction: bool, sum: int)
      requires Indexes(weights[..], at)
      ensures sum == Sum(Selected(weights[..], at)) && prediction == (sum >= knobs.threshold)
    {
      sum := 0;
      ghost var ws := Selected(weights[..], at);
      for f := 0 to weights.Length
        invariant sum == Sum(ws[..f])
      {
        sum := sum + weights[f][at[f]];
        assert ws[..f + 1][..f] == ws[..f];
      }
      assert ws[..weights.Length] == ws;
      prediction := sum >= knobs.threshold;
    }

    method IncrWeights(at: seq<nat>)
      requires Indexes(weights[..], at)
      modifies weights
      ensures weights[..] == AdjustTable(old(weights[..]), at, true, knobs)
    {
      for f := 0 to weights.Length
        invariant forall g :: 0 <= g < weights.Length ==>
          weights[g] == if g < f then AdjustTable(old(weights[..]), at, true, knobs)[g] else old(weights[g])
      {
        if weights[f][at[f]] + knobs.up <= knobs.maxWeight {
          weights[f] := weights[f][at[f] := weights[f][at[f]] + knobs.up];
        }
      }
    }

    method DecrWeights(at: seq<nat>)
      requires Indexes(weights[..], at)
      modifies weights
      ensures weights[..] == AdjustTable(old(weights[..]), at, false, knobs)
    {
      for f := 0 to weights.Length
        invariant forall g :: 0 <= g < weights.Length ==>
          weights[g] == if g < f then AdjustTable(old(weights[..]), at, false, knobs)[g] else old(weights[g])
      {
        if weights[f][at[f]] - knobs.down >= knobs.minWeight {
          weights[f] := weights[f][at[f] := weights[f][at[f]] - knobs.down];
        }
      }
    }

    /** The sum and the prediction are those of an earlier Predict, so they may be stale. */
    method Train(at: seq<nat>, sum: int, predicted: bool, truth: bool)
      requires Indexes(weights[..], at)
      modifies weights
      ensures weights[..] == TrainTable(old(weights[..]), Lesson(at, sum, predicted, truth), knobs)
    {
      if truth {
        if predicted == truth {
          if sum >= knobs.negTrain && sum <= knobs.posTrain {
            IncrWeights(at);
          }
        } else {
          IncrWeights(at);
        }
      } else {
        if predicted == truth {
          if sum >= knobs.negTrain && sum <= knobs.posTrain {
            DecrWeights(at);
          }
        } else {
          DecrWeights(at);
        }
      }
    }
  }

  // Any run of training, of any states with any sums.

  datatype Lesson = Lesson(at: seq<nat>, sum: int, predicted: bool, truth: bool)

  function TrainTable(table: seq<seq<int>>, l: Lesson, k: Knobs): (t: seq<seq<int>>)
    requires Indexes(table, l.at)
    ensures |t| == |table| && forall f :: 0 <= f < |t| ==> |t[f]| == |table[f]|
  {
    if Trains(l.sum, l.predicted, l.truth, k) then AdjustTable(table, l.at, l.truth, k) else table
  }

  ghost predicate Lessons(table: seq<seq<int>>, ls: seq<Lesson>) {
    forall i :: 0 <= i < |ls| ==> Indexes(table, ls[i].at)
  }

  function TrainRun(table: seq<seq<int>>, ls: seq<Lesson>, k: Knobs): (t: seq<seq<int>>)
    requires Lessons(table, ls)
    ensures |t| == |table| && forall f :: 0 <= f < |t| ==> |t[f]| == |table[f]|
  {
    if ls == [] then table
    else TrainTable(TrainRun(table, ls[..|ls| - 1], k), ls[|ls| - 1], k)
  }

  /** Weights never leave their range, whatever is trained in whatever order. */
  lemma {:induction false} WeightsStayInRange(table: seq<seq<int>>, ls: seq<Lesson>, k: Knobs)
    requires Lessons(table, ls) && TableInRange(table, k)
    ensures TableInRange(TrainRun(table, ls, k), k)
  {
    if ls != [] {
      WeightsStayInRange(table, ls[..|ls| - 1], k);
    }
  }

  /** Training one state moves exactly the weights it selects. */
  lemma SelectedTrains(table: seq<seq<int>>, l: Lesson, k: Knobs)
    requires Indexes(table, l.at)
    ensures Selected(TrainTable(table, l, k), l.at) ==
            if Trains(l.sum, l.predicted, l.truth, k) then AdjustAll(Selected(table, l.at), l.truth, k)
            else Selected(table, l.at)
    ensures forall f, i :: 0 <= f < |table| && 0 <= i < |table[f]| && i != l.at[f] ==>
              TrainTable(table, l, k)[f][i] == table[f][i]
  {
    var t := TrainTable(table, l, k);
    forall f | 0 <= f < |table|
      ensures t[f][l.at[f]] == if Trains(l.sum, l.predicted, l.truth, k) then Adjust(table[f][l.at[f]], l.truth, k)
                               else table[f][l.at[f]]
    {
    }
    assert |Selected(t, l.at)| == |table|;
  }

  /** One selected weight before and after a step towards the label; a step that would leave the range is not made. */
  predicate Steps(w: int, w': int, truth: bool, k: Knobs) {
    if truth then w' == if w + k.up > k.maxWeight then w else w + k.up
    else w' == if w - k.down < k.minWeight then w else w - k.down
  }

  /** When training happens, and what it does to every weight: a wrong prediction moves the selected weights, and so
      does a right one whose sum lies between the training thresholds; a right one outside them changes nothing. */
  lemma TrainingBand(table: seq<seq<int>>, l: Lesson, k: Knobs)
    requires Indexes(table, l.at)
    ensures var t := TrainTable(table, l, k);
      if l.predicted == l.truth && (l.sum < k.negTrain || k.posTrain < l.sum) then t == table
      else forall f, i :: 0 <= f < |table| && 0 <= i < |table[f]| ==>
             if i == l.at[f] then Steps(table[f][i], t[f][i], l.truth, k) else t[f][i] == table[f][i]
  {
  }

  // One state, predicted and trained with the same label over and over.

  predicate Prediction(table: seq<seq<int>>, at: seq<nat>, k: Knobs)
    requires Indexes(table, at)
  {
    Sum(Selected(table, at)) >= k.threshold
  }

  /** n rounds, each training on what its own predict returned. */
  function Repeat(table: seq<seq<int>>, at: seq<nat>, truth: bool, n: nat, k: Knobs): (t: seq<seq<int>>)
    requires Indexes(table, at)
    ensures |t| == |table| && Indexes(t, at)
  {
    if n == 0 then table else
    var before := Repeat(table, at, truth, n - 1, k);
    TrainTable(before, Lesson(at, Sum(Selected(before, at)), Prediction(before, at, k), truth), k)
  }

  function Mistakes(table: seq<seq<int>>, at: seq<nat>, truth: bool, n: nat, k: Knobs): nat
    requires Indexes(table, at)
  {
    if n == 0 then 0 else
    Mistakes(table, at, truth, n - 1, k) +
      (if Prediction(Repeat(table, at, truth, n - 1, k), at, k) == truth then 0 else 1)
  }

  /** How far on the right side a sum lies: the prediction is right exactly when this is not negative. */
  function Gain(ws: seq<int>, truth: bool, k: Knobs): int {
    if truth then Sum(ws) - k.threshold else k.threshold - 1 - Sum(ws)
  }

  predicate Right(ws: seq<int>, truth: bool, k: Knobs) {
    (Sum(ws) >= k.threshold) == truth
  }

  function Size(truth: bool, k: Knobs): nat {
    if truth then k.up else k.down
  }

  /** A weight moved by as many whole steps as fit its range. */
  function Peak(w: int, truth: bool, k: Knobs): int
    decreases if truth then k.maxWeight - w else w - k.minWeight
  {
    if Size(truth, k) == 0 || Adjust(w, truth, k) == w then w else Peak(Adjust(w, truth, k), truth, k)
  }

  function Saturated(ws: seq<int>, truth: bool, k: Knobs): (s: seq<int>)
    ensures |s| == |ws|
  {
    seq(|ws|, f requires 0 <= f < |ws| => Peak(ws[f], truth, k))
  }

  function Round(ws: seq<int>, truth: bool, k: Knobs): (ws': seq<int>)
    ensures |ws'| == |ws|
  {
    if Trains(Sum(ws), Sum(ws) >= k.threshold, truth, k) then AdjustAll(ws, truth, k) else ws
  }

  /** The weights a state selects, followed through the rounds. */
  function After(ws: seq<int>, truth: bool, n: nat, k: Knobs): (ws': seq<int>)
    ensures |ws'| == |ws|
  {
    if n == 0 then ws else Round(After(ws, truth, n - 1, k), truth, k)
  }

  function Wrong(ws: seq<int>, truth: bool, n: nat, k: Knobs): nat {
    if n == 0 then 0
    else Wrong(ws, truth, n - 1, k) + (if Right(After(ws, truth, n - 1, k), truth, k) then 0 else 1)
  }

  lemma RepeatStep(table: seq<seq<int>>, at: seq<nat>, truth: bool, n: nat, k: Knobs)
    requires Indexes(table, at)
    ensures var before := Repeat(table, at, truth, n, k);
      var sum := Sum(Selected(before, at));
      && Repeat(table, at, truth, n + 1, k) == TrainTable(before, Lesson(at, sum, sum >= k.threshold, truth), k)
      && Mistakes(table, at, truth, n + 1, k) ==
         Mistakes(table, at, truth, n, k) + (if (sum >= k.threshold) == truth then 0 else 1)
  {
  }

  lemma AfterStep(ws: seq<int>, truth: bool, n: nat, k: Knobs)
    ensures After(ws, truth, n + 1, k) == Round(After(ws, truth, n, k), truth, k)
    ensures Wrong(ws, truth, n + 1, k) ==
            Wrong(ws, truth, n, k) + (if Right(After(ws, truth, n, k), truth, k) then 0 else 1)
  {
  }

  lemma TrainIsRound(table: seq<seq<int>>, at: seq<nat>, truth: bool, k: Knobs)
    requires Indexes(table, at)
    ensures var sum := Sum(Selected(table, at));
      Selected(TrainTable(table, Lesson(at, sum, sum >= k.threshold, truth), k), at) ==
      Round(Selected(table, at), truth, k)
  {
    var sum := Sum(Selected(table, at));
    SelectedTrains(table, Lesson(at, sum, sum >= k.threshold, truth), k);
  }

  /** Predicting and training the table is these rounds on the weights the state selects. */
  lemma {:induction false} RepeatIsAfter(table: seq<seq<int>>, at: seq<nat>, truth: bool, n: nat, k: Knobs)
    requires Indexes(table, at)
    ensures Selected(Repeat(table, at, truth, n, k), at) == After(Selected(table, at), truth, n, k)
    ensures Mistakes(table, at, truth, n, k) == Wrong(Selected(table, at), truth, n, k)
  {
    if n > 0 {
      var m := n - 1;
      RepeatIsAfter(table, at, truth, m, k);
      RepeatStep(table, at, truth, m, k);
      AfterStep(Selected(table, at), truth, m, k);
      TrainIsRound(Repeat(table, at, truth, m, k), at, truth, k);
    }
  }

  lemma PeakBounds(w: int, truth: bool, k: Knobs)
    ensures truth ==> w <= Peak(w, truth, k)
    ensures !truth ==> Peak(w, truth, k) <= w
    ensures InRange(w, k) ==> InRange(Peak(w, truth, k), k)
    ensures InRange(w, k) && Size(truth, k) == 1 ==> Peak(w, truth, k) == if truth then k.maxWeight else k.minWeight
    decreases if truth then k.maxWeight - w else w - k.minWeight
  {
    if Size(truth, k) != 0 && Adjust(w, truth, k) != w {
      PeakBounds(Adjust(w, truth, k), truth, k);
    }
  }

  lemma {:induction false} PeaksOfAdjusted(ws: seq<int>, truth: bool, k: Knobs)
    ensures Saturated(AdjustAll(ws, truth, k), truth, k) == Saturated(ws, truth, k)
  {
    forall f | 0 <= f < |ws| ensures Peak(AdjustAll(ws, truth, k)[f], truth, k) == Peak(ws[f], truth, k) {
    }
  }

  lemma {:induction false} BelowPeaks(ws: seq<int>, truth: bool, k: Knobs)
    ensures Gain(ws, truth, k) <= Gain(Saturated(ws, truth, k), truth, k)
  {
    if ws != [] {
      var n := |ws| - 1;
      BelowPeaks(ws[..n], truth, k);
      PeakBounds(ws[n], truth, k);
      assert Saturated(ws, truth, k)[..n] == Saturated(ws[..n], truth, k);
    }
  }

  /** An adjustment gains a full step unless every weight is saturated, and never loses. */
  lemma {:induction false} AdjustGains(ws: seq<int>, truth: bool, k: Knobs)
    ensures var d := Gain(AdjustAll(ws, truth, k), truth, k) - Gain(ws, truth, k);
      d >= 0 && (d >= Size(truth, k) || ws == Saturated(ws, truth, k))
  {
    if ws != [] {
      var n := |ws| - 1;
      AdjustGains(ws[..n], truth, k);
      assert AdjustAll(ws, truth, k)[..n] == AdjustAll(ws[..n], truth, k);
      assert Saturated(ws, truth, k) == Saturated(ws[..n], truth, k) + [Peak(ws[n], truth, k)];
      assert ws == ws[..n] + [ws[n]];
    }
  }

  lemma RoundGains(ws: seq<int>, truth: bool, k: Knobs)
    ensures Gain(Round(ws, truth, k), truth, k) >= Gain(ws, truth, k)
    ensures !Right(ws, truth, k) ==>
              ws == Saturated(ws, truth, k) ||
              Gain(Round(ws, truth, k), truth, k) >= Gain(ws, truth, k) + Size(truth, k)
    ensures Saturated(Round(ws, truth, k), truth, k) == Saturated(ws, truth, k)
    ensures Gain(ws, truth, k) <= Gain(Saturated(ws, truth, k), truth, k)
  {
    AdjustGains(ws, truth, k);
    PeaksOfAdjusted(ws, truth, k);
    BelowPeaks(ws, truth, k);
  }

  lemma {:induction false} PeaksStay(ws: seq<int>, truth: bool, n: nat, k: Knobs)
    ensures Saturated(After(ws, truth, n, k), truth, k) == Saturated(ws, truth, k)
  {
    if n > 0 {
      PeaksStay(ws, truth, n - 1, k);
      RoundGains(After(ws, truth, n - 1, k), truth, k);
    }
  }

  lemma OneMore(m: nat, d: nat)
    ensures (m + 1) * d == m * d + d
  {
  }

  /** Every mistake gains at least one step; no round loses. */
  lemma {:induction false} MistakesGain(ws: seq<int>, truth: bool, n: nat, k: Knobs)
    requires Right(Saturated(ws, truth, k), truth, k)
    ensures Gain(After(ws, truth, n, k), truth, k) >= Gain(ws, truth, k) + Wrong(ws, truth, n, k) * Size(truth, k)
  {
    if n > 0 {
      MistakesGain(ws, truth, n - 1, k);
      PeaksStay(ws, truth, n - 1, k);
      RoundGains(After(ws, truth, n - 1, k), truth, k);
      OneMore(Wrong(ws, truth, n - 1, k), Size(truth, k));
    }
  }

  /** Before the last mistake the gain was still negative. */
  lemma {:induction false} LastMistake(ws: seq<int>, truth: bool, n: nat, k: Knobs)
    requires Right(Saturated(ws, truth, k), truth, k)
    ensures var m := Wrong(ws, truth, n, k); m > 0 ==> Gain(ws, truth, k) + (m - 1) * Size(truth, k) < 0
  {
    if n > 0 {
      if Right(After(ws, truth, n - 1, k), truth, k) {
        LastMistake(ws, truth, n - 1, k);
      } else {
        MistakesGain(ws, truth, n - 1, k);
      }
    }
  }

  lemma {:induction false} StaysRight(ws: seq<int>, truth: bool, j: nat, n: nat, k: Knobs)
    requires j <= n && Right(After(ws, truth, j, k), truth, k)
    ensures Right(After(ws, truth, n, k), truth, k)
    decreases n
  {
    if j < n {
      StaysRight(ws, truth, j, n - 1, k);
      RoundGains(After(ws, truth, n - 1, k), truth, k);
    }
  }

  lemma {:induction false} WrongUntilNow(ws: seq<int>, truth: bool, n: nat, k: Knobs)
    ensures Right(After(ws, truth, n, k), truth, k) || Wrong(ws, truth, n, k) == n
  {
    if n > 0 {
      WrongUntilNow(ws, truth, n - 1, k);
      if Right(After(ws, truth, n - 1, k), truth, k) {
        StaysRight(ws, truth, n - 1, n, k);
      }
    }
  }

  // The same about the predictor's table.

  /** The label can be learned: with every weight saturated the prediction is right. */
  predicate Learnable(table: seq<seq<int>>, at: seq<nat>, truth: bool, k: Knobs)
    requires Indexes(table, at)
  {
    Right(Saturated(Selected(table, at), truth, k), truth, k)
  }

  /** The mistake bound for any step sizes and any weights: before the last of m mistakes the gain was still
      negative, after m-1 full steps. */
  lemma MistakeBound(table: seq<seq<int>>, at: seq<nat>, truth: bool, n: nat, k: Knobs)
    requires Indexes(table, at) && Learnable(table, at, truth, k)
    ensures var m := Mistakes(table, at, truth, n, k);
      m > 0 ==> Gain(Selected(table, at), truth, k) + (m - 1) * Size(truth, k) < 0
  {
    RepeatIsAfter(table, at, truth, n, k);
    LastMistake(Selected(table, at), truth, n, k);
  }

  /** Once right, right for good. */
  lemma RightStaysRight(table: seq<seq<int>>, at: seq<nat>, truth: bool, j: nat, n: nat, k: Knobs)
    requires Indexes(table, at) && j <= n && Prediction(Repeat(table, at, truth, j, k), at, k) == truth
    ensures Prediction(Repeat(table, at, truth, n, k), at, k) == truth
  {
    RepeatIsAfter(table, at, truth, j, k);
    RepeatIsAfter(table, at, truth, n, k);
    StaysRight(Selected(table, at), truth, j, n, k);
  }

  lemma {:induction false} SumBounds(ws: seq<int>, low: int, high: int)
    requires forall f :: 0 <= f < |ws| ==> low <= ws[f] <= high
    ensures |ws| * low <= Sum(ws) <= |ws| * high
  {
    if ws != [] {
      var n := |ws| - 1;
      SumBounds(ws[..n], low, high);
      assert (n + 1) * low == n * low + low && (n + 1) * high == n * high + high;
    }
  }

  /** With unit steps saturation is the end of the range, so all that matters is the room the threshold leaves. */
  lemma UnitLearnable(table: seq<seq<int>>, at: seq<nat>, truth: bool, k: Knobs)
    requires Indexes(table, at) && TableInRange(table, k) && Size(truth, k) == 1
    ensures Learnable(table, at, truth, k) <==>
            if truth then k.threshold <= |table| * k.maxWeight else |table| * k.minWeight < k.threshold
  {
    var ws := Selected(table, at);
    var end := if truth then k.maxWeight else k.minWeight;
    forall f | 0 <= f < |ws| ensures Saturated(ws, truth, k)[f] == end {
      PeakBounds(ws[f], truth, k);
    }
    SumBounds(Saturated(ws, truth, k), end, end);
  }

  lemma UnitMistakes(ws: seq<int>, truth: bool, n: nat, k: Knobs)
    requires Right(Saturated(ws, truth, k), truth, k) && Size(truth, k) == 1
    ensures Wrong(ws, truth, n, k) > 0 ==> Wrong(ws, truth, n, k) <= -Gain(ws, truth, k)
  {
    LastMistake(ws, truth, n, k);
    var m := Wrong(ws, truth, n, k);
    assert Size(truth, k) == 1 ==> (m - 1) * Size(truth, k) == m - 1;
  }

  lemma {:induction false} FewMistakes(ws: seq<int>, truth: bool, n: nat, k: Knobs, bound: nat)
    requires Right(Saturated(ws, truth, k), truth, k) && Size(truth, k) == 1 && -Gain(ws, truth, k) <= bound
    ensures Wrong(ws, truth, n, k) <= bound && (n >= bound ==> Right(After(ws, truth, n, k), truth, k))
  {
    UnitMistakes(ws, truth, n, k);
    UnitMistakes(ws, truth, n + 1, k);
    WrongUntilNow(ws, truth, n, k);
    AfterStep(ws, truth, n, k);
  }

  /** Weights in range, unit steps, and a threshold that both labels can be learned with. */
  ghost predicate Teachable(table: seq<seq<int>>, truth: bool, k: Knobs) {
    && TableInRange(table, k) && Size(truth, k) == 1
    && |table| * k.minWeight < k.threshold <= |table| * k.maxWeight
  }

  /** The bound of the predictor: with unit steps at most T - F*min mistakes on label true and F*max - T + 1 on
      label false, and from that round on every prediction is right. */
  lemma {:induction false} UnitMistakeBound(table: seq<seq<int>>, at: seq<nat>, truth: bool, n: nat, k: Knobs)
    requires Indexes(table, at) && Teachable(table, truth, k)
    ensures Mistakes(table, at, truth, n, k) <= Bound(|table|, truth, k)
    ensures n >= Bound(|table|, truth, k) ==> Prediction(Repeat(table, at, truth, n, k), at, k) == truth
  {
    UnitLearnable(table, at, truth, k);
    SumBounds(Selected(table, at), k.minWeight, k.maxWeight);
    FewMistakes(Selected(table, at), truth, n, k, Bound(|table|, truth, k));
    RepeatIsAfter(table, at, truth, n, k);
  }

  function Bound(features: nat, truth: bool, k: Knobs): int {
    if truth then k.threshold - features * k.minWeight else features * k.maxWeight - k.threshold + 1
  }

  /** A label is learned in some number of rounds exactly when saturated weights would predict it, whatever the
      weights and the step sizes are. */
  lemma {:induction false} LearnableIff(table: seq<seq<int>>, at: seq<nat>, truth: bool, k: Knobs)
    requires Indexes(table, at)
    ensures (exists n: nat :: Prediction(Repeat(table, at, truth, n, k), at, k) == truth) <==>
            Learnable(table, at, truth, k)
  {
    var ws := Selected(table, at);
    if Learnable(table, at, truth, k) {
      var n := Patience(ws, truth, k);
      RepeatIsAfter(table, at, truth, n, k);
      assert Prediction(Repeat(table, at, truth, n, k), at, k) == truth;
    }
    forall n: nat | Prediction(Repeat(table, at, truth, n, k), at, k) == truth ensures Learnable(table, at, truth, k) {
      RepeatIsAfter(table, at, truth, n, k);
      PeaksStay(ws, truth, n, k);
      RoundGains(After(ws, truth, n, k), truth, k);
    }
  }

  /** How many rounds are enough. */
  lemma Patience(ws: seq<int>, truth: bool, k: Knobs) returns (n: nat)
    requires Right(Saturated(ws, truth, k), truth, k)
    ensures Right(After(ws, truth, n, k), truth, k)
  {
    n := 0;
    if Size(truth, k) == 0 {
      assert ws == Saturated(ws, truth, k);
    } else if Gain(ws, truth, k) < 0 {
      n := -Gain(ws, truth, k);
      MistakesGain(ws, truth, n, k);
      WrongUntilNow(ws, truth, n, k);
      AtLeast(n, Size(truth, k));
    }
  }

  lemma AtLeast(n: nat, d: nat)
    requires d > 0
    ensures n * d >= n
  {
  }

  /** A state whose sum is past the training thresholds, or none of whose weights can make another step. */
  predicate Learned(table: seq<seq<int>>, at: seq<nat>, truth: bool, k: Knobs)
    requires Indexes(table, at)
  {
    var ws := Selected(table, at);
    || Sum(ws) < k.negTrain || k.posTrain < Sum(ws)
    || forall f :: 0 <= f < |ws| ==> if truth then ws[f] + k.up > k.maxWeight else ws[f] - k.down < k.minWeight
  }

  lemma SaturatedIs(ws: seq<int>, truth: bool, k: Knobs)
    requires Size(truth, k) > 0
    ensures ws == Saturated(ws, truth, k) <==>
            forall f :: 0 <= f < |ws| ==> if truth then ws[f] + k.up > k.maxWeight else ws[f] - k.down < k.minWeight
  {
    forall f | 0 <= f < |ws|
      ensures Saturated(ws, truth, k)[f] == ws[f] <==>
              if truth then ws[f] + k.up > k.maxWeight else ws[f] - k.down < k.minWeight
    {
      if Adjust(ws[f], truth, k) != ws[f] {
        PeakBounds(Adjust(ws[f], truth, k), truth, k);
      }
    }
  }

  /** A round on a right prediction: a full step while there is something to learn, and then nothing. */
  lemma RightRound(table: seq<seq<int>>, at: seq<nat>, truth: bool, n: nat, k: Knobs)
    requires Indexes(table, at) && Size(truth, k) > 0
    requires Prediction(Repeat(table, at, truth, n, k), at, k) == truth
    ensures var t, t' := Repeat(table, at, truth, n, k), Repeat(table, at, truth, n + 1, k);
      if Learned(t, at, truth, k) then t' == t
      else Gain(Selected(t', at), truth, k) >= Gain(Selected(t, at), truth, k) + Size(truth, k)
  {
    var t := Repeat(table, at, truth, n, k);
    var sum := Sum(Selected(t, at));
    RepeatStep(table, at, truth, n, k);
    TrainIsRound(t, at, truth, k);
    var t' := Repeat(table, at, truth, n + 1, k);
    TrainingBand(t, Lesson(at, sum, sum >= k.threshold, truth), k);
    if Learned(t, at, truth, k) {
      forall f | 0 <= f < |t| ensures t'[f] == t[f] {
        assert Selected(t, at)[f] == t[f][at[f]];
      }
    } else {
      AdjustGains(Selected(t, at), truth, k);
      SaturatedIs(Selected(t, at), truth, k);
    }
  }

  function GainAfter(table: seq<seq<int>>, at: seq<nat>, truth: bool, n: nat, k: Knobs): int
    requires Indexes(table, at)
  {
    Gain(Selected(Repeat(table, at, truth, n, k), at), truth, k)
  }

  predicate LearnedAfter(table: seq<seq<int>>, at: seq<nat>, truth: bool, n: nat, k: Knobs)
    requires Indexes(table, at)
  {
    Learned(Repeat(table, at, truth, n, k), at, truth, k)
  }

  /** The same, from a right prediction on. */
  lemma PracticeRound(table: seq<seq<int>>, at: seq<nat>, truth: bool, n: nat, next: nat, k: Knobs)
    requires Indexes(table, at) && Size(truth, k) > 0 && Prediction(table, at, k) == truth && next == n + 1
    ensures if LearnedAfter(table, at, truth, n, k)
            then Repeat(table, at, truth, next, k) == Repeat(table, at, truth, n, k)
            else GainAfter(table, at, truth, next, k) >= GainAfter(table, at, truth, n, k) + Size(truth, k)
  {
    RightStaysRight(table, at, truth, 0, n, k);
    RightRound(table, at, truth, n, k);
  }

  /** As long as there was something to learn, every round gained. */
  lemma {:induction false} PracticeGains(table: seq<seq<int>>, at: seq<nat>, truth: bool, n: nat, k: Knobs)
    requires Indexes(table, at) && Size(truth, k) > 0 && Prediction(table, at, k) == truth
    requires forall i: nat :: i < n ==> !LearnedAfter(table, at, truth, i, k)
    ensures GainAfter(table, at, truth, n, k) >= GainAfter(table, at, truth, 0, k) + n
  {
    if n > 0 {
      PracticeGains(table, at, truth, n - 1, k);
      PracticeRound(table, at, truth, n - 1, n, k);
    }
  }

  /** Sums that still train are within the thresholds of each other. */
  lemma StillTraining(table: seq<seq<int>>, at: seq<nat>, truth: bool, n: nat, k: Knobs)
    requires Indexes(table, at)
    requires !LearnedAfter(table, at, truth, 0, k) && !LearnedAfter(table, at, truth, n, k)
    ensures GainAfter(table, at, truth, n, k) - GainAfter(table, at, truth, 0, k) <= k.posTrain - k.negTrain
  {
  }

  lemma OneRound(table: seq<seq<int>>, at: seq<nat>, truth: bool, m: nat, t: seq<seq<int>>, k: Knobs)
    requires Indexes(table, at) && Indexes(t, at) && Repeat(table, at, truth, m, k) == t
    ensures Repeat(table, at, truth, m + 1, k) == Repeat(t, at, truth, 1, k)
  {
    assert Repeat(t, at, truth, 0, k) == t;
  }

  lemma {:induction false} LearnedStays(table: seq<seq<int>>, at: seq<nat>, truth: bool, n: nat, m: nat, k: Knobs)
    requires Indexes(table, at) && n <= m
    requires Repeat(table, at, truth, n + 1, k) == Repeat(table, at, truth, n, k)
    ensures Repeat(table, at, truth, m, k) == Repeat(table, at, truth, n, k)
    decreases m
  {
    if n < m {
      LearnedStays(table, at, truth, n, m - 1, k);
      OneRound(table, at, truth, n, Repeat(table, at, truth, n, k), k);
      OneRound(table, at, truth, m - 1, Repeat(table, at, truth, n, k), k);
    }
  }

  /** The first round, from round i on, in which there is nothing left to learn. */
  lemma FirstLearned(table: seq<seq<int>>, at: seq<nat>, truth: bool, i: nat, k: Knobs) returns (n: nat)
    requires Indexes(table, at) && Size(truth, k) > 0 && Prediction(table, at, k) == truth
    requires forall j: nat :: j < i ==> !LearnedAfter(table, at, truth, j, k)
    ensures LearnedAfter(table, at, truth, n, k)
    ensures forall j: nat :: j < n ==> !LearnedAfter(table, at, truth, j, k)
    ensures n > i ==> n <= k.posTrain - k.negTrain + 1
    decreases k.posTrain - k.negTrain + 1 - i
  {
    if LearnedAfter(table, at, truth, i, k) {
      return i;
    }
    PracticeGains(table, at, truth, i, k);
    StillTraining(table, at, truth, i, k);
    n := FirstLearned(table, at, truth, i + 1, k);
  }

  /** Practice: taught a state it predicts rightly, the predictor goes on learning, at least a full step a round, until
      the sum has left the training thresholds or no selected weight can move. It takes no more rounds than there are
      sums between the thresholds, and from then on the weights are fixed. */
  lemma PracticeEnds(table: seq<seq<int>>, at: seq<nat>, truth: bool, k: Knobs) returns (n: nat)
    requires Indexes(table, at) && Size(truth, k) > 0 && Prediction(table, at, k) == truth
    ensures n == 0 || n <= k.posTrain - k.negTrain + 1
    ensures forall i: nat, j: nat :: i < n && j == i + 1 ==>
              GainAfter(table, at, truth, j, k) >= GainAfter(table, at, truth, i, k) + Size(truth, k)
    ensures LearnedAfter(table, at, truth, n, k)
    ensures forall m: nat :: m >= n ==> Repeat(table, at, truth, m, k) == Repeat(table, at, truth, n, k)
  {
    n := FirstLearned(table, at, truth, 0, k);
    forall i: nat, j: nat | i < n && j == i + 1
      ensures GainAfter(table, at, truth, j, k) >= GainAfter(table, at, truth, i, k) + Size(truth, k)
    {
      PracticeRound(table, at, truth, i, j, k);
    }
    forall m: nat | m >= n ensures Repeat(table, at, truth, m, k) == Repeat(table, at, truth, n, k) {
      PracticeRound(table, at, truth, n, n + 1, k);
      LearnedStays(table, at, truth, n, m, k);
    }
  }

  /** A predictor asked and taught the same thing n times makes no more mistakes than the bound, and is right from
      then on. */
  method Relearn(p: PerceptronPredictor, at: seq<nat>, truth: bool, n: nat) returns (mistakes: nat)
    requires Indexes(p.weights[..], at)
    modifies p.weights
    ensures p.weights[..] == Repeat(old(p.weights[..]), at, truth, n, p.knobs)
    ensures mistakes == Mistakes(old(p.weights[..]), at, truth, n, p.knobs)
    ensures Teachable(old(p.weights[..]), truth, p.knobs) ==>
              mistakes <= Bound(p.weights.Length, truth, p.knobs)
    ensures Teachable(old(p.weights[..]), truth, p.knobs) && n >= Bound(p.weights.Length, truth, p.knobs) ==>
              Prediction(p.weights[..], at, p.knobs) == truth
  {
    ghost var start := p.weights[..];
    mistakes := 0;
    for i := 0 to n
      invariant p.weights[..] == Repeat(start, at, truth, i, p.knobs)
      invariant mistakes == Mistakes(start, at, truth, i, p.knobs)
    {
      RepeatStep(start, at, truth, i, p.knobs);
      var prediction, sum := p.Predict(at);
      if prediction != truth {
        mistakes := mistakes + 1;
      }
      p.Train(at, sum, prediction, truth);
    }
    if Teachable(start, truth, p.knobs) {
      UnitMistakeBound(start, at, truth, n, p.knobs);
      assert p.weights[..] == Repeat(start, at, truth, n, p.knobs);
    }
  }
}
