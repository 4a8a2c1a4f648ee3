/** Quality prediction of server/app_qos/signatures.py, and the rounding that the
    bandwidth figures go through. */
module Quality {
  import opened Text

  // ----- rounding -----

  /** Python's round to an integer: to the nearest, ties to even. */
  function RoundHalfEven(x: real): int {
    var f := x.Floor;
    var d := x - f as real;
    if d < 0.5 || (d == 0.5 && f % 2 == 0) then f else f + 1
  }

  function Round2(x: real): real {
    RoundHalfEven(x * 100.0) as real / 100.0
  }

  function Round1(x: real): real {
    RoundHalfEven(x * 10.0) as real / 10.0
  }

  /** Python's int(): truncation toward zero. */
  function Truncated(x: real): int {
    if x >= 0.0 then x.Floor else -((-x).Floor)
  }

  /** The nearest integer, and of two nearest the even one. */
  lemma RoundHalfEvenIs(x: real)
    ensures var n := RoundHalfEven(x);
            && n as real - 0.5 <= x <= n as real + 0.5
            && (x == n as real - 0.5 || x == n as real + 0.5 ==> n % 2 == 0)
  {
  }

  lemma RoundHalfEvenMonotone(x: real, y: real)
    requires x <= y
    ensures RoundHalfEven(x) <= RoundHalfEven(y)
  {
  }

  /** Rounding to two places moves a figure by at most half a hundredth, and keeps
      order and sign. */
  lemma Round2Near(x: real)
    ensures x - 0.005 <= Round2(x) <= x + 0.005
    ensures x >= 0.0 ==> Round2(x) >= 0.0
  {
  }

  lemma Round2Monotone(x: real, y: real)
    requires x <= y
    ensures Round2(x) <= Round2(y)
  {
    RoundHalfEvenMonotone(x * 100.0, y * 100.0);
  }

  lemma TruncatedMonotone(x: real, y: real)
    requires x <= y
    ensures Truncated(x) <= Truncated(y)
  {
  }

  // ----- tiers -----

  datatype QualityTier = QualityTier(tierLabel: string, minMbps: real, maxMbps: real, score: int)

  datatype Prediction = Prediction(
    tierLabel: string, score: int, minMbps: real, maxMbps: real, allocatedMbps: real)

  /** The better of the best tier so far and the next one. */
  function Better(best: Option<QualityTier>, tier: QualityTier, mbps: real): Option<QualityTier> {
    if mbps >= tier.minMbps && (best.None? || tier.minMbps > best.value.minMbps) then Some(tier) else best
  }

  function BestTier(tiers: seq<QualityTier>, mbps: real): Option<QualityTier> {
    if tiers == [] then None
    else Better(BestTier(tiers[..|tiers| - 1], mbps), tiers[|tiers| - 1], mbps)
  }

  function WorstTier(tiers: seq<QualityTier>): QualityTier
    requires tiers != []
  {
    if |tiers| == 1 then tiers[0]
    else
      var worst, last := WorstTier(tiers[..|tiers| - 1]), tiers[|tiers| - 1];
      if last.minMbps < worst.minMbps then last else worst
  }

  function Max(a: int, b: int): int {
    if a >= b then a else b
  }

  /** The share of the lowest tier's need that is met, never negative. */
  function MetRatio(worst: QualityTier, mbps: real): real {
    if worst.minMbps != 0.0 && mbps / worst.minMbps > 0.0 then mbps / worst.minMbps else 0.0
  }

  function Scaled(score: int, ratio: real): int {
    Max(0, Truncated(score as real * ratio))
  }

  function InTier(tier: QualityTier, mbps: real): Prediction {
    Prediction(tier.tierLabel, tier.score, tier.minMbps, tier.maxMbps, Round2(mbps))
  }

  function BelowTier(worst: QualityTier, mbps: real): Prediction {
    Prediction("Below " + worst.tierLabel, Scaled(worst.score, MetRatio(worst, mbps)), 0.0, worst.minMbps, Round2(mbps))
  }

  function Predicted(tiers: seq<QualityTier>, mbps: real): Prediction {
    if tiers == [] then Prediction("Unknown", 50, 0.0, 0.0, mbps)
    else
      var best := BestTier(tiers, mbps);
      if best.Some? then InTier(best.value, mbps) else BelowTier(WorstTier(tiers), mbps)
  }

  /** tiers is None for an unknown app. */
  method PredictQuality(tiers: Option<seq<QualityTier>>, mbps: real) returns (p: Option<Prediction>)
    ensures p == if tiers.Some? then Some(Predicted(tiers.value, mbps)) else None
  {
    if tiers.None? {
      return None;
    }
    var ts := tiers.value;
    if ts == [] {
      return Some(Prediction("Unknown", 50, 0.0, 0.0, mbps));
    }
    var best: Option<QualityTier> := None;
    for i := 0 to |ts|
      invariant best == BestTier(ts[..i], mbps)
    {
      assert ts[..i + 1][..i] == ts[..i];
      if mbps >= ts[i].minMbps {
        if best.None? || ts[i].minMbps > best.value.minMbps {
          best := Some(ts[i]);
        }
      }
    }
    assert ts[..|ts|] == ts;
    if best.None? {
      var worst := FindWorst(ts);
      return Some(BelowTier(worst, mbps));
    }
    return Some(InTier(best.value, mbps));
  }

  method FindWorst(tiers: seq<QualityTier>) returns (worst: QualityTier)
    requires tiers != []
    ensures worst == WorstTier(tiers)
  {
    worst := tiers[0];
    for i := 1 to |tiers|
      invariant worst == WorstTier(tiers[..i])
    {
      assert tiers[..i + 1][..i] == tiers[..i];
      if tiers[i].minMbps < worst.minMbps {
        worst := tiers[i];
      }
    }
    assert tiers[..|tiers|] == tiers;
  }

  // ----- more bandwidth, no worse quality -----

  /** Scores are not negative and rise with the bandwidth a tier needs. */
  ghost predicate Rising(tiers: seq<QualityTier>) {
    && (forall t | t in tiers :: t.score >= 0)
    && (forall t, u | t in tiers && u in tiers && t.minMbps <= u.minMbps :: t.score <= u.score)
  }

  /** The best tier is the affordable one that needs most. */
  lemma {:induction false} BestTierIs(tiers: seq<QualityTier>, mbps: real)
    ensures var best := BestTier(tiers, mbps);
            && (best.None? <==> forall t | t in tiers :: mbps < t.minMbps)
            && (best.Some? ==> best.value in tiers && best.value.minMbps <= mbps)
            && (best.Some? ==> forall t | t in tiers && t.minMbps <= mbps :: t.minMbps <= best.value.minMbps)
  {
    if tiers != [] {
      var n := |tiers| - 1;
      BestTierIs(tiers[..n], mbps);
      assert tiers == tiers[..n] + [tiers[n]];
    }
  }

  lemma {:induction false} WorstTierIs(tiers: seq<QualityTier>)
    requires tiers != []
    ensures WorstTier(tiers) in tiers && forall t | t in tiers :: WorstTier(tiers).minMbps <= t.minMbps
  {
    var n := |tiers| - 1;
    assert tiers == tiers[..n] + [tiers[n]];
    if n > 0 {
      WorstTierIs(tiers[..n]);
    }
  }

  /** The prediction shows the affordable tier that needs most, with its score and bounds;
      below all tiers it shows the least demanding one and no more than its minimum. */
  lemma PredictedShows(tiers: seq<QualityTier>, mbps: real)
    requires tiers != []
    ensures var p := Predicted(tiers, mbps);
            && p.allocatedMbps == Round2(mbps)
            && (if exists t :: t in tiers && t.minMbps <= mbps
                then exists t :: ShowsBest(tiers, mbps, p, t) else exists t :: ShowsBelow(tiers, p, t))
  {
    BestTierIs(tiers, mbps);
    WorstTierIs(tiers);
    var best := BestTier(tiers, mbps);
    if best.Some? {
      assert ShowsBest(tiers, mbps, Predicted(tiers, mbps), best.value);
    } else {
      assert ShowsBelow(tiers, Predicted(tiers, mbps), WorstTier(tiers));
    }
  }

  ghost predicate ShowsBest(tiers: seq<QualityTier>, mbps: real, p: Prediction, t: QualityTier) {
    && t in tiers && t.minMbps <= mbps && (forall u | u in tiers && u.minMbps <= mbps :: u.minMbps <= t.minMbps)
    && p.tierLabel == t.tierLabel && p.score == t.score && p.minMbps == t.minMbps && p.maxMbps == t.maxMbps
  }

  ghost predicate ShowsBelow(tiers: seq<QualityTier>, p: Prediction, t: QualityTier) {
    && t in tiers && (forall u | u in tiers :: t.minMbps <= u.minMbps)
    && p.tierLabel == "Below " + t.tierLabel && p.minMbps == 0.0 && p.maxMbps == t.minMbps
  }

  /** Below all tiers the score is the whole part of the least demanding tier's, times
      the share of its need that is met. */
  lemma ScoreBelow(worst: QualityTier, mbps: real)
    requires 0.0 <= mbps < worst.minMbps && worst.score >= 0
    ensures var (s, share) := (BelowTier(worst, mbps).score, worst.score as real * (mbps / worst.minMbps));
            s as real <= share < (s + 1) as real
  {
    DivMonotone(0.0, mbps, worst.minMbps);
    assert MetRatio(worst, mbps) == mbps / worst.minMbps;
    ScaledFloor(worst.score, MetRatio(worst, mbps));
  }

  lemma ScaledFloor(score: int, r: real)
    requires score >= 0 && r >= 0.0
    ensures Scaled(score, r) as real <= score as real * r < (Scaled(score, r) + 1) as real
  {
    MulMonotone(0.0, r, score as real);
  }

  lemma DivMonotone(x: real, y: real, d: real)
    requires 0.0 <= x <= y && d > 0.0
    ensures 0.0 <= x / d <= y / d
    ensures x < d ==> x / d < 1.0
  {
    var a, b := x / d, y / d;
    assert x == a * d && y == b * d;
    if a >= 1.0 {
      MulMonotone(1.0, a, d);
    }
  }

  lemma MulMonotone(a: real, b: real, c: real)
    requires a <= b && c >= 0.0
    ensures a * c <= b * c && c * a <= c * b
  {
  }

  lemma ScaledMonotone(score: int, a: real, b: real)
    requires 0.0 <= a <= b && score >= 0
    ensures Scaled(score, a) <= Scaled(score, b)
  {
    MulMonotone(a, b, score as real);
    TruncatedMonotone(score as real * a, score as real * b);
  }

  lemma ScaledBelow(score: int, a: real)
    requires 0.0 <= a <= 1.0 && score >= 0
    ensures Scaled(score, a) <= score
  {
    ScaledMonotone(score, a, 1.0);
    assert score as real * 1.0 == score as real;
    assert Truncated(score as real) == score;
  }

  lemma MetRatioMonotone(worst: QualityTier, x: real, y: real)
    requires 0.0 <= x <= y && x < worst.minMbps
    ensures 0.0 <= MetRatio(worst, x) <= MetRatio(worst, y) && MetRatio(worst, x) <= 1.0
  {
    DivMonotone(x, y, worst.minMbps);
  }

  /** The predicted score never falls when the bandwidth rises. */
  lemma MoreBandwidthNoWorse(tiers: seq<QualityTier>, x: real, y: real)
    requires Rising(tiers) && 0.0 <= x <= y
    ensures Predicted(tiers, x).score <= Predicted(tiers, y).score
  {
    if tiers != [] {
      BestTierIs(tiers, x);
      BestTierIs(tiers, y);
      if BestTier(tiers, x).None? {
        WorstTierIs(tiers);
        var worst := WorstTier(tiers);
        MetRatioMonotone(worst, x, y);
        ScaledMonotone(worst.score, MetRatio(worst, x), MetRatio(worst, y));
        ScaledBelow(worst.score, MetRatio(worst, x));
      }
    }
  }

  // ----- the shipped tables -----

  const VIDEO_CONF_TIERS := [
    QualityTier("Audio Only", 0.1, 0.5, 20), QualityTier("Low (360p)", 0.5, 1.5, 40),
    QualityTier("Medium (720p)", 1.5, 3.0, 60), QualityTier("HD (1080p)", 3.0, 5.0, 80),
    QualityTier("Excellent", 5.0, 50.0, 100)]

  const STREAMING_TIERS := [
    QualityTier("144p", 0.1, 0.3, 5), QualityTier("240p", 0.3, 0.7, 15),
    QualityTier("360p", 0.7, 1.5, 30), QualityTier("480p", 1.5, 3.0, 45),
    QualityTier("720p", 3.0, 5.0, 60), QualityTier("1080p", 5.0, 10.0, 80),
    QualityTier("1440p", 10.0, 20.0, 90), QualityTier("4K", 20.0, 50.0, 100)]

  const AUDIO_TIERS := [
    QualityTier("Low (96kbps)", 0.05, 0.15, 30), QualityTier("Normal (160kbps)", 0.15, 0.35, 60),
    QualityTier("High (320kbps)", 0.35, 1.0, 85), QualityTier("Excellent", 1.0, 5.0, 100)]

  const BROWSER_TIERS := [
    QualityTier("Slow", 0.5, 2.0, 30), QualityTier("Normal", 2.0, 5.0, 60),
    QualityTier("Fast", 5.0, 20.0, 85), QualityTier("Blazing", 20.0, 100.0, 100)]

  const CLOUD_STORAGE_TIERS := [
    QualityTier("Trickle", 0.1, 1.0, 20), QualityTier("Normal", 1.0, 5.0, 50),
    QualityTier("Fast", 5.0, 20.0, 80), QualityTier("Unlimited", 20.0, 100.0, 100)]

  const GAMING_TIERS := [
    QualityTier("Unplayable", 0.1, 1.0, 10), QualityTier("Low", 1.0, 3.0, 30),
    QualityTier("Medium", 3.0, 10.0, 60), QualityTier("High", 10.0, 25.0, 80),
    QualityTier("Ultra", 25.0, 75.0, 100)]

  /** One rung of a table that is listed from the least demanding tier up. */
  predicate Rung(tiers: seq<QualityTier>, i: nat)
    requires i < |tiers|
  {
    tiers[i].score >= 0
    && (i > 0 ==> tiers[i - 1].minMbps < tiers[i].minMbps && tiers[i - 1].score <= tiers[i].score)
  }

  ghost predicate Ladder(tiers: seq<QualityTier>) {
    forall i: nat | i < |tiers| :: Rung(tiers, i)
  }

  lemma {:induction false} LadderOrdered(tiers: seq<QualityTier>, i: nat, j: nat)
    requires Ladder(tiers) && i < j < |tiers|
    ensures tiers[i].minMbps < tiers[j].minMbps && tiers[i].score <= tiers[j].score
  {
    assert Rung(tiers, j);
    if i + 1 < j {
      LadderOrdered(tiers, i, j - 1);
    }
  }

  lemma LadderRises(tiers: seq<QualityTier>)
    requires Ladder(tiers)
    ensures Rising(tiers)
  {
    forall t | t in tiers ensures t.score >= 0 {
      var i: nat :| i < |tiers| && tiers[i] == t;
      assert Rung(tiers, i);
    }
    forall t, u | t in tiers && u in tiers && t.minMbps <= u.minMbps ensures t.score <= u.score {
      var i :| 0 <= i < |tiers| && tiers[i] == t;
      var j :| 0 <= j < |tiers| && tiers[j] == u;
      if i < j {
        LadderOrdered(tiers, i, j);
      } else if j < i {
        LadderOrdered(tiers, j, i);
      }
    }
  }

  lemma VideoConfRises()
    ensures Rising(VIDEO_CONF_TIERS)
  {
    var tiers := VIDEO_CONF_TIERS;
    assert Rung(tiers, 0);
    assert Rung(tiers, 1);
    assert Rung(tiers, 2);
    assert Rung(tiers, 3);
    assert Rung(tiers, 4);
    LadderRises(tiers);
  }

  lemma StreamingRises()
    ensures Rising(STREAMING_TIERS)
  {
    var tiers := STREAMING_TIERS;
    assert Rung(tiers, 0);
    assert Rung(tiers, 1);
    assert Rung(tiers, 2);
    assert Rung(tiers, 3);
    assert Rung(tiers, 4);
    assert Rung(tiers, 5);
    assert Rung(tiers, 6);
    assert Rung(tiers, 7);
    LadderRises(tiers);
  }

  lemma AudioRises()
    ensures Rising(AUDIO_TIERS)
  {
    var tiers := AUDIO_TIERS;
    assert Rung(tiers, 0);
    assert Rung(tiers, 1);
    assert Rung(tiers, 2);
    assert Rung(tiers, 3);
    LadderRises(tiers);
  }

  lemma BrowserRises()
    ensures Rising(BROWSER_TIERS)
  {
    var tiers := BROWSER_TIERS;
    assert Rung(tiers, 0);
    assert Rung(tiers, 1);
    assert Rung(tiers, 2);
    assert Rung(tiers, 3);
    LadderRises(tiers);
  }

  lemma CloudStorageRises()
    ensures Rising(CLOUD_STORAGE_TIERS)
  {
    var tiers := CLOUD_STORAGE_TIERS;
    assert Rung(tiers, 0);
    assert Rung(tiers, 1);
    assert Rung(tiers, 2);
    assert Rung(tiers, 3);
    LadderRises(tiers);
  }

  lemma GamingRises()
    ensures Rising(GAMING_TIERS)
  {
    var tiers := GAMING_TIERS;
    assert Rung(tiers, 0);
    assert Rung(tiers, 1);
    assert Rung(tiers, 2);
    assert Rung(tiers, 3);
    assert Rung(tiers, 4);
    LadderRises(tiers);
  }

  /** Every tier table of the program is one that MoreBandwidthNoWorse is about. */
  lemma ShippedTablesRise()
    ensures Rising(VIDEO_CONF_TIERS) && Rising(STREAMING_TIERS) && Rising(AUDIO_TIERS)
    ensures Rising(BROWSER_TIERS) && Rising(CLOUD_STORAGE_TIERS) && Rising(GAMING_TIERS)
  {
    VideoConfRises();
    StreamingRises();
    AudioRises();
    BrowserRises();
    CloudStorageRises();
    GamingRises();
  }
}
