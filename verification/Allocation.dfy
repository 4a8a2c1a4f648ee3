/** Bandwidth allocation of server/app_qos/bandwidth_enforcer.py: class percentages,
    scaled down together when they exceed the link, times the link, rounded. */
module Allocation {
  import opened Text
  import opened Quality

  function BandwidthPct(priorityClass: string): (pct: real)
    ensures pct >= 0.0
  {
    if priorityClass == "CRITICAL" then 0.90
    else if priorityClass == "HIGH" then 0.60
    else if priorityClass == "LOW" then 0.003
    else if priorityClass == "BLOCKED" then 0.0
    else 0.30  // NORMAL, and every unknown class
  }

  /** The order of the classes; an unknown one counts as NORMAL. */
  function Rank(priorityClass: string): nat {
    if priorityClass == "CRITICAL" then 4
    else if priorityClass == "HIGH" then 3
    else if priorityClass == "LOW" then 1
    else if priorityClass == "BLOCKED" then 0
    else 2
  }

  /** A higher class has the larger percentage, strictly. */
  lemma RankIsPct(a: string, b: string)
    ensures Rank(a) < Rank(b) <==> BandwidthPct(a) < BandwidthPct(b)
  {
  }

  /** A priorities dictionary, in insertion order. */
  type Priorities = seq<(string, string)>

  /** Quality tiers of the known apps. */
  type Signatures = map<string, seq<QualityTier>>

  datatype AppAllocation = AppAllocation(
    appId: string, priority: string, allocatedMbps: real, bandwidthPct: real,
    quality: Option<Prediction>, enforced: bool)

  function Pcts(p: Priorities): seq<real> {
    seq(|p|, i requires 0 <= i < |p| => BandwidthPct(p[i].1))
  }

  function Sum(s: seq<real>): real {
    if s == [] then 0.0 else Sum(s[..|s| - 1]) + s[|s| - 1]
  }

  function ScaleFor(total: real): real {
    if total <= 0.0 then 0.0 else if 1.0 / total < 1.0 then 1.0 / total else 1.0
  }

  /** A share of the link before rounding. */
  function Exact(pct: real, scale: real, link: real): real {
    pct * scale * link
  }

  function TiersOf(sigs: Signatures, app: string): Option<seq<QualityTier>> {
    if app in sigs then Some(sigs[app]) else None
  }

  function PredictedFor(sigs: Signatures, app: string, mbps: real): Option<Prediction> {
    if app in sigs then Some(Predicted(sigs[app], mbps)) else None
  }

  function Allocated(sigs: Signatures, app: string, priorityClass: string, scale: real, link: real,
                     enforced: bool): AppAllocation {
    var pct := BandwidthPct(priorityClass);
    var mbps := Round2(Exact(pct, scale, link));
    AppAllocation(app, priorityClass, mbps, Round1(pct * scale * 100.0), PredictedFor(sigs, app, mbps), enforced)
  }

  function AllocationAt(sigs: Signatures, p: Priorities, link: real, enforced: bool, i: nat): AppAllocation
    requires i < |p|
  {
    Allocated(sigs, p[i].0, p[i].1, ScaleFor(Sum(Pcts(p))), link, enforced)
  }

  function Allocations(sigs: Signatures, p: Priorities, link: real, enforced: bool): seq<AppAllocation> {
    seq(|p|, i requires 0 <= i < |p| => AllocationAt(sigs, p, link, enforced, i))
  }

  /** The early return for an all-blocked dictionary agrees with the general formula,
      whatever the scale: blocked apps are given nothing by either. */
  lemma NothingToShare(sigs: Signatures, app: string, scale: real, link: real, enforced: bool)
    ensures Allocated(sigs, app, "BLOCKED", scale, link, enforced) ==
            AppAllocation(app, "BLOCKED", 0.0, 0.0, PredictedFor(sigs, app, 0.0), enforced)
  {
    assert 0.0 * scale == 0.0;
    assert 0.0 * link == 0.0;
    assert Exact(0.0, scale, link) == 0.0;
    assert Round2(0.0) == 0.0 && Round1(0.0) == 0.0;
  }

  /** The early return is taken exactly for those dictionaries. */
  lemma AllBlocked(p: Priorities)
    ensures Sum(Pcts(p)) <= 0.0 <==> forall i | 0 <= i < |p| :: p[i].1 == "BLOCKED"
  {
    SumNonNegative(Pcts(p));
    assert forall i | 0 <= i < |p| :: Pcts(p)[i] == BandwidthPct(p[i].1);
    if forall i | 0 <= i < |p| :: p[i].1 == "BLOCKED" {
      SumOfZeros(Pcts(p));
    }
  }

  lemma {:induction false} SumOfZeros(s: seq<real>)
    requires forall i | 0 <= i < |s| :: s[i] == 0.0
    ensures Sum(s) == 0.0
  {
    if s != [] {
      SumOfZeros(s[..|s| - 1]);
    }
  }

  method ComputeAllocations(sigs: Signatures, p: Priorities, link: real, enforced: bool)
      returns (allocations: seq<AppAllocation>)
    ensures allocations == Allocations(sigs, p, link, enforced)
  {
    if p == [] {
      return [];
    }
    var raw: seq<real> := [];
    var totalPct := 0.0;
    for i := 0 to |p|
      invariant |raw| == i && forall j | 0 <= j < i :: raw[j] == BandwidthPct(p[j].1)
      invariant totalPct == Sum(raw)
    {
      raw := raw + [BandwidthPct(p[i].1)];
      assert raw[..|raw| - 1] + [raw[|raw| - 1]] == raw;
      totalPct := totalPct + BandwidthPct(p[i].1);
    }
    assert raw == Pcts(p);
    if totalPct <= 0.0 {
      allocations := AllocateNothing(sigs, p, link, enforced);
    } else {
      var scale := if 1.0 / totalPct < 1.0 then 1.0 / totalPct else 1.0;
      allocations := Allocate(sigs, p, scale, link, enforced);
    }
  }

  method AllocateNothing(sigs: Signatures, p: Priorities, link: real, enforced: bool)
      returns (allocations: seq<AppAllocation>)
    requires Sum(Pcts(p)) <= 0.0
    ensures allocations == Allocations(sigs, p, link, enforced)
  {
    AllBlocked(p);
    allocations := [];
    for i := 0 to |p|
      invariant |allocations| == i
      invariant forall j | 0 <= j < i :: allocations[j] == AllocationAt(sigs, p, link, enforced, j)
    {
      NothingToShare(sigs, p[i].0, ScaleFor(Sum(Pcts(p))), link, enforced);
      var quality := PredictQuality(TiersOf(sigs, p[i].0), 0.0);
      allocations := allocations + [AppAllocation(p[i].0, p[i].1, 0.0, 0.0, quality, enforced)];
    }
  }

  method Allocate(sigs: Signatures, p: Priorities, scale: real, link: real, enforced: bool)
      returns (allocations: seq<AppAllocation>)
    requires scale == ScaleFor(Sum(Pcts(p)))
    ensures allocations == Allocations(sigs, p, link, enforced)
  {
    allocations := [];
    for i := 0 to |p|
      invariant |allocations| == i
      invariant forall j | 0 <= j < i :: allocations[j] == AllocationAt(sigs, p, link, enforced, j)
    {
      var allocation := AllocateOne(sigs, p[i].0, p[i].1, scale, link, enforced);
      allocations := allocations + [allocation];
    }
  }

  method AllocateOne(sigs: Signatures, app: string, priorityClass: string, scale: real, link: real, enforced: bool)
      returns (allocation: AppAllocation)
    ensures allocation == Allocated(sigs, app, priorityClass, scale, link, enforced)
  {
    var pct := BandwidthPct(priorityClass);
    var mbps := Round2(Exact(pct, scale, link));
    var quality := PredictQuality(TiersOf(sigs, app), mbps);
    allocation := AppAllocation(app, priorityClass, mbps, Round1(pct * scale * 100.0), quality, enforced);
  }

  // ----- conservation -----

  lemma ScaleBounds(total: real)
    ensures 0.0 <= ScaleFor(total) <= 1.0
    ensures total > 0.0 ==> ScaleFor(total) * total == if total < 1.0 then total else 1.0
  {
    if total > 0.0 {
      var k := 1.0 / total;
      assert k * total == 1.0;
      if total <= 1.0 && k < 1.0 {
        MulMonotone(k, 1.0, total);
      }
      if k <= 0.0 {
        MulMonotone(k, 0.0, total);
      }
    }
  }

  function Shares(s: seq<real>, scale: real, link: real): seq<real> {
    seq(|s|, i requires 0 <= i < |s| => Exact(s[i], scale, link))
  }

  lemma {:induction false} SumShares(s: seq<real>, scale: real, link: real)
    ensures Sum(Shares(s, scale, link)) == Exact(Sum(s), scale, link)
  {
    if s == [] {
      assert 0.0 * scale == 0.0;
      assert 0.0 * link == 0.0;
    } else {
      var n := |s| - 1;
      SumShares(s[..n], scale, link);
      assert Shares(s, scale, link)[..n] == Shares(s[..n], scale, link);
      ExactAdds(Sum(s[..n]), s[n], scale, link);
    }
  }

  lemma ExactAdds(a: real, b: real, scale: real, link: real)
    ensures Exact(a + b, scale, link) == Exact(a, scale, link) + Exact(b, scale, link)
  {
    assert (a + b) * scale == a * scale + b * scale;
  }

  function Used(total: real): real {
    if total < 1.0 then total else 1.0
  }

  /** What of the link a demand uses. */
  function UsedLink(total: real, link: real): real {
    Used(total) * link
  }

  /** The exact shares of the link add up to all of it, or to the demand if that is
      less. */
  lemma SharesConserve(p: Priorities, link: real)
    ensures Sum(Shares(Pcts(p), ScaleFor(Sum(Pcts(p))), link)) == UsedLink(Sum(Pcts(p)), link)
  {
    SumNonNegative(Pcts(p));
    SharesOf(Pcts(p), Sum(Pcts(p)), ScaleFor(Sum(Pcts(p))), link);
  }

  lemma SharesOf(s: seq<real>, total: real, k: real, link: real)
    requires total == Sum(s) && total >= 0.0 && k == ScaleFor(total)
    ensures Sum(Shares(s, k, link)) == UsedLink(total, link)
  {
    SumShares(s, k, link);
    UsedTotal(total, k);
    ExactOf(total, k, link, Used(total));
  }

  lemma UsedLinkBelow(total: real, link: real)
    requires link >= 0.0
    ensures UsedLink(total, link) <= link
  {
    MulMonotone(Used(total), 1.0, link);
  }

  lemma ExactOf(pct: real, k: real, link: real, scaled: real)
    requires pct * k == scaled
    ensures Exact(pct, k, link) == scaled * link
  {
  }

  lemma UsedTotal(total: real, k: real)
    requires total >= 0.0 && k == ScaleFor(total)
    ensures total * k == Used(total)
  {
    ScaleBounds(total);
    if total == 0.0 {
      assert 0.0 * k == 0.0;
    }
  }

  lemma {:induction false} SumNonNegative(s: seq<real>)
    requires forall i | 0 <= i < |s| :: s[i] >= 0.0
    ensures Sum(s) >= 0.0
    ensures forall i | 0 <= i < |s| :: s[i] <= Sum(s)
  {
    if s != [] {
      SumNonNegative(s[..|s| - 1]);
      assert forall i | 0 <= i < |s| - 1 :: s[..|s| - 1][i] == s[i];
    }
  }

  function MbpsOf(allocations: seq<AppAllocation>): seq<real> {
    seq(|allocations|, i requires 0 <= i < |allocations| => allocations[i].allocatedMbps)
  }

  lemma {:induction false} SumNear(a: seq<real>, b: seq<real>)
    requires |a| == |b|
    requires forall i | 0 <= i < |a| :: b[i] - 0.005 <= a[i] <= b[i] + 0.005
    ensures Sum(b) - 0.005 * |a| as real <= Sum(a) <= Sum(b) + 0.005 * |a| as real
  {
    if a != [] {
      SumNear(a[..|a| - 1], b[..|b| - 1]);
    }
  }

  /** Rounded allocations miss the exact total by at most half a hundredth each, so
      they never exceed the link by more. */
  lemma RoundedTotal(sigs: Signatures, p: Priorities, link: real, enforced: bool)
    requires link >= 0.0
    ensures var (exact, total) := (UsedLink(Sum(Pcts(p)), link), Sum(MbpsOf(Allocations(sigs, p, link, enforced))));
            exact - 0.005 * |p| as real <= total <= exact + 0.005 * |p| as real && exact <= link
  {
    var shares := Shares(Pcts(p), ScaleFor(Sum(Pcts(p))), link);
    var given := MbpsOf(Allocations(sigs, p, link, enforced));
    forall i | 0 <= i < |p| ensures shares[i] - 0.005 <= given[i] <= shares[i] + 0.005 {
      Round2Near(shares[i]);
    }
    SumNear(given, shares);
    SharesConserve(p, link);
    UsedLinkBelow(Sum(Pcts(p)), link);
  }

  /** Alone on the link an app gets 90, 60, 30, 0.3 or 0 per cent of it, by its class, and
      30 if the class is unknown. */
  lemma AloneOnLink(sigs: Signatures, app: string, c: string, link: real, enforced: bool)
    ensures var given := Allocations(sigs, [(app, c)], link, enforced);
            && |given| == 1 && given[0].appId == app && given[0].priority == c
            && given[0].quality == PredictedFor(sigs, app, given[0].allocatedMbps)
            && (c == "CRITICAL" ==> given[0].allocatedMbps == Round2(0.9 * link) && given[0].bandwidthPct == 90.0)
            && (c == "HIGH" ==> given[0].allocatedMbps == Round2(0.6 * link) && given[0].bandwidthPct == 60.0)
            && (c == "LOW" ==> given[0].allocatedMbps == Round2(0.003 * link) && given[0].bandwidthPct == 0.3)
            && (c == "BLOCKED" ==> given[0].allocatedMbps == 0.0 && given[0].bandwidthPct == 0.0)
            && (c !in {"CRITICAL", "HIGH", "LOW", "BLOCKED"} ==>
                  given[0].allocatedMbps == Round2(0.3 * link) && given[0].bandwidthPct == 30.0)
  {
    var p := [(app, c)];
    var pct := BandwidthPct(c);
    assert Pcts(p) == [pct];
    assert [pct][..0] == [];
    assert Sum([pct]) == pct;
    if c == "BLOCKED" {
      NothingToShare(sigs, app, ScaleFor(pct), link, enforced);
    } else {
      ScaleWhole(pct);
      assert pct * 1.0 == pct;
    }
  }

  /** A demand that fits the link is met in full, up to rounding. */
  lemma DemandMet(sigs: Signatures, p: Priorities, link: real, enforced: bool, i: nat)
    requires i < |p| && Sum(Pcts(p)) <= 1.0
    ensures Allocations(sigs, p, link, enforced)[i].allocatedMbps == Round2(Exact(BandwidthPct(p[i].1), 1.0, link))
  {
    var pct, k := BandwidthPct(p[i].1), ScaleFor(Sum(Pcts(p)));
    RaisedTotals(p, i, p[i].1);
    if Sum(Pcts(p)) > 0.0 {
      ScaleWhole(Sum(Pcts(p)));
    }
    WholeShare(pct, k, link);
  }

  lemma WholeShare(pct: real, k: real, link: real)
    requires pct == 0.0 || k == 1.0
    ensures Exact(pct, k, link) == Exact(pct, 1.0, link)
  {
    assert pct * k == pct * 1.0;
  }

  /** Allocations are not negative and ordered like the classes. */
  lemma AllocationsOrdered(sigs: Signatures, p: Priorities, link: real, enforced: bool, i: nat, j: nat)
    requires link >= 0.0 && i < |p| && j < |p|
    ensures var given := Allocations(sigs, p, link, enforced);
            && given[i].allocatedMbps >= 0.0
            && (Rank(p[i].1) <= Rank(p[j].1) ==> given[i].allocatedMbps <= given[j].allocatedMbps)
  {
    RankIsPct(p[j].1, p[i].1);
    var k := ScaleFor(Sum(Pcts(p)));
    ScaleBounds(Sum(Pcts(p)));
    ExactMonotone(0.0, k, BandwidthPct(p[i].1), k, link);
    Round2Near(Exact(BandwidthPct(p[i].1), k, link));
    if BandwidthPct(p[i].1) <= BandwidthPct(p[j].1) {
      ExactMonotone(BandwidthPct(p[i].1), k, BandwidthPct(p[j].1), k, link);
      Round2Monotone(Exact(BandwidthPct(p[i].1), k, link), Exact(BandwidthPct(p[j].1), k, link));
    }
  }

  lemma ExactMonotone(a: real, k: real, b: real, m: real, link: real)
    requires (a <= b && k == m >= 0.0) || a * k <= b * m
    requires link >= 0.0
    ensures Exact(a, k, link) <= Exact(b, m, link)
    ensures a == 0.0 ==> Exact(a, k, link) == 0.0
  {
    if a <= b && k == m >= 0.0 {
      MulMonotone(a, b, k);
    }
    MulMonotone(a * k, b * m, link);
  }

  // ----- raising one class -----

  lemma {:induction false} SumUpdate(s: seq<real>, i: nat, x: real)
    requires i < |s|
    ensures Sum(s[i := x]) == Sum(s) - s[i] + x
  {
    var n := |s| - 1;
    var t := s[i := x];
    if i < n {
      SumUpdate(s[..n], i, x);
      assert t[..n] == s[..n][i := x];
    } else {
      assert t[..n] == s[..n];
    }
  }

  /** A larger demand never raises the common scale. */
  lemma ScaleFalls(t: real, u: real)
    requires 0.0 < t <= u
    ensures ScaleFor(u) <= ScaleFor(t)
  {
    var a, b := 1.0 / t, 1.0 / u;
    assert a * t == 1.0 && b * u == 1.0;
    ScaleBounds(t);
    ScaleBounds(u);
    if a < b {
      MulMonotone(t, u, b);
      assert b * t <= 1.0;
      assert (b - a) * t > 0.0;
    }
  }

  /** Raising one share of a demand, the others being s together, raises its scaled
      value: it gains more weight than the common scale loses. */
  lemma OwnShareRises(x: real, y: real, s: real)
    requires 0.0 <= x <= y && s >= 0.0
    ensures x * ScaleFor(x + s) <= y * ScaleFor(y + s)
  {
    if x == 0.0 {
      NothingRises(y, ScaleFor(s), ScaleFor(y + s));
      ScaleBounds(y + s);
    } else if x + s > 1.0 {
      ShareRatio(x, y, s);
    } else {
      ScaleWhole(x + s);
      assert x * 1.0 == x;
      if y + s <= 1.0 {
        ScaleWhole(y + s);
        assert y * 1.0 == y;
      } else {
        ShareAtLeast(y, s);
      }
    }
  }

  lemma NothingRises(y: real, k: real, m: real)
    requires y >= 0.0
    ensures 0.0 * k == 0.0
    ensures m >= 0.0 ==> 0.0 <= y * m
  {
    if m >= 0.0 {
      MulMonotone(0.0, m, y);
    }
  }

  lemma ScaleWhole(t: real)
    requires 0.0 < t <= 1.0
    ensures ScaleFor(t) == 1.0
  {
    var k := 1.0 / t;
    assert k * t == 1.0;
    if k < 1.0 {
      MulMonotone(t, 1.0, k);
    }
  }

  lemma ScaleCut(t: real)
    requires t > 1.0
    ensures ScaleFor(t) == 1.0 / t && (1.0 / t) * t == 1.0 && 0.0 < 1.0 / t < 1.0
  {
    ScaleBounds(t);
    var k := 1.0 / t;
    assert k * t == 1.0;
  }

  lemma ShareAtLeast(y: real, s: real)
    requires y >= 0.0 && s >= 0.0 && y + s > 1.0
    ensures y * ScaleFor(y + s) >= 1.0 - s
  {
    var u := y + s;
    ScaleCut(u);
    var k := 1.0 / u;
    assert y * k == 1.0 - s * k by {
      assert k * u == k * y + k * s;
    }
    MulMonotone(k, 1.0, s);
  }

  lemma ShareRatio(x: real, y: real, s: real)
    requires 0.0 <= x <= y && s >= 0.0 && x + s > 1.0
    ensures x * ScaleFor(x + s) <= y * ScaleFor(y + s)
  {
    var t, u := x + s, y + s;
    ScaleCut(t);
    ScaleCut(u);
    var a, b := 1.0 / t, 1.0 / u;
    ScaleFalls(t, u);
    assert x * a == 1.0 - s * a by {
      assert a * t == a * x + a * s;
    }
    assert y * b == 1.0 - s * b by {
      assert b * u == b * y + b * s;
    }
    MulMonotone(b, a, s);
  }

  /** The priorities with app i moved to another class. */
  function Raised(p: Priorities, i: nat, c: string): Priorities
    requires i < |p|
  {
    p[i := (p[i].0, c)]
  }

  lemma RaisedTotals(p: Priorities, i: nat, c: string)
    requires i < |p|
    ensures Pcts(Raised(p, i, c)) == Pcts(p)[i := BandwidthPct(c)]
    ensures Sum(Pcts(Raised(p, i, c))) == Sum(Pcts(p)) - BandwidthPct(p[i].1) + BandwidthPct(c)
    ensures BandwidthPct(p[i].1) <= Sum(Pcts(p))
  {
    SumUpdate(Pcts(p), i, BandwidthPct(c));
    assert Pcts(Raised(p, i, c)) == Pcts(p)[i := BandwidthPct(c)];
    SumNonNegative(Pcts(p));
    assert Pcts(p)[i] == BandwidthPct(p[i].1);
  }

  /** Raising one app's class never lowers its own bandwidth and never raises that of
      another app. */
  lemma RaisingClass(sigs: Signatures, p: Priorities, i: nat, c: string, link: real, enforced: bool, j: nat)
    requires i < |p| && j < |p| && link >= 0.0
    requires Rank(p[i].1) <= Rank(c)
    ensures var before := Allocations(sigs, p, link, enforced)[j].allocatedMbps;
            var after := Allocations(sigs, Raised(p, i, c), link, enforced)[j].allocatedMbps;
            if i == j then before <= after else after <= before
  {
    RankIsPct(c, p[i].1);
    RaisedTotals(p, i, c);
    var t, u := Sum(Pcts(p)), Sum(Pcts(Raised(p, i, c)));
    if i == j {
      OwnRises(BandwidthPct(p[i].1), BandwidthPct(c), t, u, link);
    } else {
      OthersFall(p, j, t, u);
      ShareMonotone(BandwidthPct(p[j].1), ScaleFor(u), BandwidthPct(p[j].1), ScaleFor(t), link);
    }
  }

  lemma ShareMonotone(a: real, k: real, b: real, m: real, link: real)
    requires a * k <= b * m && link >= 0.0
    ensures Round2(Exact(a, k, link)) <= Round2(Exact(b, m, link))
  {
    ExactMonotone(a, k, b, m, link);
    Round2Monotone(Exact(a, k, link), Exact(b, m, link));
  }

  lemma OwnRises(x: real, y: real, t: real, u: real, link: real)
    requires 0.0 <= x <= y && x <= t && u == t - x + y && link >= 0.0
    ensures Round2(Exact(x, ScaleFor(t), link)) <= Round2(Exact(y, ScaleFor(u), link))
  {
    OwnShareRises(x, y, t - x);
    ShareMonotone(x, ScaleFor(t), y, ScaleFor(u), link);
  }

  lemma OthersFall(p: Priorities, j: nat, t: real, u: real)
    requires j < |p| && t == Sum(Pcts(p)) <= u
    ensures BandwidthPct(p[j].1) * ScaleFor(u) <= BandwidthPct(p[j].1) * ScaleFor(t)
  {
    SumNonNegative(Pcts(p));
    var q := BandwidthPct(p[j].1);
    assert Pcts(p)[j] == q;
    if t > 0.0 {
      ScaleFalls(t, u);
      MulMonotone(ScaleFor(u), ScaleFor(t), q);
    }
  }

  /** The same for the predicted quality, through rounding and tier lookup. */
  lemma RaisingClassQuality(sigs: Signatures, p: Priorities, i: nat, c: string, link: real, enforced: bool, j: nat)
    requires i < |p| && j < |p| && link >= 0.0
    requires Rank(p[i].1) <= Rank(c)
    requires p[j].0 in sigs && Rising(sigs[p[j].0])
    ensures var before := Allocations(sigs, p, link, enforced)[j].quality;
            var after := Allocations(sigs, Raised(p, i, c), link, enforced)[j].quality;
            before.Some? && after.Some?
            && if i == j then before.value.score <= after.value.score else after.value.score <= before.value.score
  {
    RaisingClass(sigs, p, i, c, link, enforced, j);
    AllocationsOrdered(sigs, p, link, enforced, j, j);
    AllocationsOrdered(sigs, Raised(p, i, c), link, enforced, j, j);
    var tiers := sigs[p[j].0];
    var x := Allocations(sigs, p, link, enforced)[j].allocatedMbps;
    var y := Allocations(sigs, Raised(p, i, c), link, enforced)[j].allocatedMbps;
    if i == j {
      MoreBandwidthNoWorse(tiers, x, y);
    } else {
      MoreBandwidthNoWorse(tiers, y, x);
    }
  }

  // ----- a streaming app of class LOW on 100 Mbps -----

  lemma Round2Steps(x: real)
    ensures Round2(x) < 0.3 <==> x < 0.295
    ensures Round2(x) >= 0.1 <==> x >= 0.095
  {
    RoundHalfEvenIs(x * 100.0);
  }

  lemma StreamingLabel(t: QualityTier)
    requires t in STREAMING_TIERS
    ensures t.tierLabel == "144p" <==> t.minMbps < 0.3
    ensures t.minMbps >= 0.1 && (t.minMbps == 0.3 ==> t.tierLabel == "240p")
  {
    var i :| 0 <= i < 8 && STREAMING_TIERS[i] == t;
    assert i == 6 ==> |t.tierLabel| == 5;
    assert i == 7 ==> |t.tierLabel| == 2;
    assert i == 5 ==> |t.tierLabel| == 5;
    assert 1 <= i <= 4 ==> t.tierLabel[0] != '1';
  }

  /** The lowest streaming tier is shown for 0.1 to less than 0.3 Mbps. */
  lemma LowestStreamingTier(mbps: real)
    ensures Predicted(STREAMING_TIERS, mbps).tierLabel == "144p" <==> 0.1 <= mbps < 0.3
    ensures mbps == 0.3 ==> Predicted(STREAMING_TIERS, mbps).tierLabel == "240p"
  {
    var tiers := STREAMING_TIERS;
    var low, next := tiers[0], tiers[1];
    assert low in tiers && next in tiers && low.minMbps == 0.1 && next.minMbps == 0.3;
    TierShown(tiers, low, next, mbps);
  }

  lemma TierShown(tiers: seq<QualityTier>, low: QualityTier, next: QualityTier, mbps: real)
    requires tiers == STREAMING_TIERS && low in tiers && next in tiers && low.minMbps == 0.1 && next.minMbps == 0.3
    ensures Predicted(tiers, mbps).tierLabel == "144p" <==> 0.1 <= mbps < 0.3
    ensures mbps == 0.3 ==> Predicted(tiers, mbps).tierLabel == "240p"
  {
    var p := Predicted(tiers, mbps);
    PredictedShows(tiers, mbps);
    if mbps >= 0.1 {
      var t :| ShowsBest(tiers, mbps, p, t);
      StreamingLabel(t);
    } else {
      forall t | t in tiers ensures t.minMbps >= 0.1 {
        StreamingLabel(t);
      }
      var t :| ShowsBelow(tiers, p, t);
      assert p.tierLabel[0] == 'B';
    }
  }

  /** What an app of class LOW gets of 100 Mbps before rounding. */
  lemma LowShare(total: real)
    requires total >= 0.003
    ensures var x := Exact(0.003, ScaleFor(total), 100.0);
            && (x < 0.295 <==> 0.3 < 0.295 * total)
            && (x >= 0.095 <==> 0.095 * total <= 0.3)
            && (total <= 1.0 ==> x == 0.3)
  {
    if total <= 1.0 {
      ScaleWhole(total);
    } else {
      ScaleCut(total);
      var k := 1.0 / total;
      assert k * total == 1.0;
      assert Exact(0.003, k, 100.0) == 0.3 * k;
      ShareOver(k, total);
    }
  }

  lemma ShareOver(k: real, total: real)
    requires k * total == 1.0 && total > 0.0
    ensures 0.3 * k < 0.295 <==> 0.3 < 0.295 * total
    ensures 0.3 * k >= 0.095 <==> 0.095 * total <= 0.3
  {
    assert (0.3 * k) * total == 0.3;
    LessTimes(0.3 * k, 0.295, total);
    LessTimes(0.3 * k, 0.095, total);
  }

  lemma LessTimes(a: real, b: real, c: real)
    requires c > 0.0
    ensures a < b <==> a * c < b * c
  {
    if a >= b {
      MulMonotone(b, a, c);
    }
  }

  /** A streaming app of class LOW on 100 Mbps is predicted to drop to 144p exactly when
      the demands add up to more than 1.017 of the link, and to at most 3.158. With less it
      gets 0.3 Mbps, which is 240p. */
  lemma LowStreaming(sigs: Signatures, p: Priorities, enforced: bool, i: nat)
    requires i < |p| && p[i].1 == "LOW" && p[i].0 in sigs && sigs[p[i].0] == STREAMING_TIERS
    ensures var (given, total) := (Allocations(sigs, p, 100.0, enforced)[i], Sum(Pcts(p)));
            && given.quality.Some?
            && (given.quality.value.tierLabel == "144p" <==> 0.3 < 0.295 * total && 0.095 * total <= 0.3)
            && (total <= 1.0 ==> given.allocatedMbps == 0.3 && given.quality.value.tierLabel == "240p")
  {
    var total := Sum(Pcts(p));
    RaisedTotals(p, i, "LOW");
    LowShare(total);
    var x := Exact(0.003, ScaleFor(total), 100.0);
    Round2Steps(x);
    LowestStreamingTier(Round2(x));
    assert Round2(0.3) == 0.3;
  }
}
