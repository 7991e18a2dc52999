/**
 * The labelling rule of `train_risk_model.py`: a fixed weighted score of five
 * betting-behaviour features, bucketed by `numpy.digitize` at 0.08 and 0.18
 * into low (0), medium (1) and high (2) risk. The random draws are inputs;
 * the random forest trained on the labels is outside the model.
 */
module RiskRule {

  /** One row of X: sessions per week, average deposit, session minutes, deposit spikes, loss streak. */
  datatype Features = Features(freq: real, avgDeposit: real, sessionMinutes: real, spikes: real, lossStreak: real)

  /** The weighted score the labels are derived from. */
  function Score(f: Features): real
  {
    0.4 * (f.freq / 10.0) + 0.3 * (f.avgDeposit / 200.0) + 0.15 * (f.sessionMinutes / 120.0)
      + 0.1 * f.spikes + 0.2 * (f.lossStreak / 10.0)
  }

  predicate Increasing(bins: seq<real>)
  {
    forall i, j :: 0 <= i < j < |bins| ==> bins[i] < bins[j]
  }

  /**
   * `numpy.digitize(x, bins)` for increasing bins with the default
   * `right=False`: the i with bins[i-1] <= x < bins[i].
   */
  function Digitize(x: real, bins: seq<real>): (i: nat)
    requires Increasing(bins)
    ensures i <= |bins|
    ensures forall j :: 0 <= j < i ==> bins[j] <= x
    ensures forall j :: i <= j < |bins| ==> x < bins[j]
  {
    if bins == [] || x < bins[0] then 0 else 1 + Digitize(x, bins[1..])
  }

  /** A larger value never lands in a lower bin. */
  lemma DigitizeMonotone(x: real, y: real, bins: seq<real>)
    requires Increasing(bins)
    requires x <= y
    ensures Digitize(x, bins) <= Digitize(y, bins)
  {
  }

  /** The thresholds between low, medium and high risk. */
  const RiskBins: seq<real> := [0.08, 0.18]

  /** `np.digitize(score, [0.08, 0.18])` for one row. */
  function RiskLabel(f: Features): (c: nat)
    ensures c <= 2
  {
    Digitize(Score(f), RiskBins)
  }

  /** The bins are closed on the left: each class is exactly one score band. */
  lemma RiskLabelBands(f: Features)
    ensures RiskLabel(f) == 0 <==> Score(f) < 0.08
    ensures RiskLabel(f) == 1 <==> 0.08 <= Score(f) < 0.18
    ensures RiskLabel(f) == 2 <==> 0.18 <= Score(f)
  {
    var c := RiskLabel(f);
    assert |RiskBins| == 2 && RiskBins[0] == 0.08 && RiskBins[1] == 0.18;
    assert c == 0 ==> Score(f) < RiskBins[0];
    assert c <= 1 ==> Score(f) < RiskBins[1];
    assert c >= 1 ==> RiskBins[0] <= Score(f);
    assert c == 2 ==> RiskBins[1] <= Score(f);
  }

  /** Every feature of f is at most the same feature of g. */
  predicate AtMost(f: Features, g: Features)
  {
    && f.freq <= g.freq
    && f.avgDeposit <= g.avgDeposit
    && f.sessionMinutes <= g.sessionMinutes
    && f.spikes <= g.spikes
    && f.lossStreak <= g.lossStreak
  }

  /** All weights are positive, so raising any feature never lowers the score. */
  lemma ScoreMonotone(f: Features, g: Features)
    requires AtMost(f, g)
    ensures Score(f) <= Score(g)
  {
  }

  /** ... and never lowers the risk class. */
  lemma RiskLabelMonotone(f: Features, g: Features)
    requires AtMost(f, g)
    ensures RiskLabel(f) <= RiskLabel(g)
  {
    ScoreMonotone(f, g);
    DigitizeMonotone(Score(f), Score(g), RiskBins);
  }

  /** The all-zero row is low risk. */
  lemma ZeroIsLowRisk()
    ensures RiskLabel(Features(0.0, 0.0, 0.0, 0.0, 0.0)) == 0
  {
    RiskLabelBands(Features(0.0, 0.0, 0.0, 0.0, 0.0));
  }

  predicate NonNegative(f: Features)
  {
    f.freq >= 0.0 && f.avgDeposit >= 0.0 && f.sessionMinutes >= 0.0 && f.spikes >= 0.0 && f.lossStreak >= 0.0
  }

  /** One deposit spike alone makes a row at least medium risk, two or more make it high risk. */
  lemma SpikesRaiseRisk(f: Features)
    requires NonNegative(f)
    ensures f.spikes >= 1.0 ==> RiskLabel(f) >= 1
    ensures f.spikes >= 2.0 ==> RiskLabel(f) == 2
  {
    RiskLabelBands(f);
  }

  /** `.clip(1)` on the session length: values below 1 become 1. */
  function ClipSession(x: real): (r: real)
    ensures r >= 1.0 && r >= x
    ensures r == x || r == 1.0
  {
    if x < 1.0 then 1.0 else x
  }

  /** `binomial(1, 0.1) * randint(1, 5)` for one row: the 0/1 draw times a size in 1..4. */
  function Spike(draw: nat, size: int): (s: int)
    requires draw <= 1 && 1 <= size <= 4
    ensures 0 <= s <= 4
    ensures s == 0 <==> draw == 0
  {
    draw * size
  }

  /** One row's values of the columns `generate_synthetic` draws (numpy draws each column for all rows at once). */
  datatype Draw = Draw(freq: nat, avgDeposit: real, sessionRaw: real, spikeDraw: nat, spikeSize: int, lossStreak: nat)

  /** What the distributions can produce: Poisson counts, a non-negative exponential, a 0/1 draw and a size in 1..4. */
  predicate ValidDraw(d: Draw)
  {
    d.avgDeposit >= 0.0 && d.spikeDraw <= 1 && 1 <= d.spikeSize <= 4
  }

  function Row(d: Draw): Features
    requires ValidDraw(d)
  {
    Features(d.freq as real, d.avgDeposit, ClipSession(d.sessionRaw), Spike(d.spikeDraw, d.spikeSize) as real, d.lossStreak as real)
  }

  /** `X, y = generate_synthetic()` for the given draws. */
  function Generate(draws: seq<Draw>): (r: (seq<Features>, seq<nat>))
    requires forall i :: 0 <= i < |draws| ==> ValidDraw(draws[i])
    ensures |r.0| == |r.1| == |draws|
  {
    if draws == [] then ([], [])
    else
      var prefix := Generate(draws[..|draws| - 1]);
      var row := Row(draws[|draws| - 1]);
      (prefix.0 + [row], prefix.1 + [RiskLabel(row)])
  }

  /** Every generated row lies in the ranges of the draws, and its label is the rule applied to it, in {0, 1, 2}. */
  lemma {:induction false} GenerateRows(draws: seq<Draw>)
    requires forall i :: 0 <= i < |draws| ==> ValidDraw(draws[i])
    ensures var (xs, ys) := Generate(draws);
      forall i :: 0 <= i < |draws| ==>
        && xs[i] == Row(draws[i])
        && ys[i] == RiskLabel(xs[i]) <= 2
        && NonNegative(xs[i])
        && xs[i].sessionMinutes >= 1.0
        && 0.0 <= xs[i].spikes <= 4.0
  {
    if draws != [] {
      var init := draws[..|draws| - 1];
      GenerateRows(init);
      var (xs, ys) := Generate(draws);
      forall i | 0 <= i < |draws|
        ensures xs[i] == Row(draws[i]) && ys[i] == RiskLabel(xs[i]) <= 2
      {
        if i < |init| {
          assert xs[i] == Generate(init).0[i] && ys[i] == Generate(init).1[i];
          assert draws[i] == init[i];
        }
      }
    }
  }
}
