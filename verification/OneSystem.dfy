/** The three features that keep rules on one operating system, together: every run of
    their real operations is a run of SelectiveRules and one of ShaperRuns, in which the
    other features touch their own names only. */
module OneSystem {
  import opened Text
  import opened OsRules
  import opened ShaperRules
  import opened Allocation
  import opened BandwidthEnforcer
  import S = SelectiveRules
  import H = ShaperRuns

  datatype System = System(
    rules: seq<S.SelectiveRule>, counter: nat, policies: seq<TrafficPolicy>, os: Artifacts)
  {
    function Degrader(): S.World {
      S.World(true, rules, os)
    }

    function Shaper(): H.World {
      H.World(true, counter, policies, os)
    }
  }

  datatype Step =
    | Degrade(degrade: S.Step)
    | Shape(shape: H.Step)
    | Switch(allocations: seq<AppAllocation>)

  /** Each feature contributes its own operations. */
  ghost predicate Proper(step: Step) {
    match step
    case Degrade(s) => (s.Start? || s.Stop? || s.End?) && S.Proper(s)
    case Shape(h) => (h.Throttle? || h.Prioritize? || h.Remove? || h.RemoveAll?) && H.Proper(h)
    case Switch(_) => true
  }

  function Apply(sigs: AppSignatures, y: System, step: Step): System {
    match step
    case Degrade(s) =>
      var w := S.Apply(y.Degrader(), s);
      y.(rules := w.rules, os := w.os)
    case Shape(h) =>
      var w := H.Apply(y.Shaper(), h);
      y.(counter := w.counter, policies := w.policies, os := w.os)
    case Switch(allocations) => y.(os := SwitchedOs(y.os, Powershell, sigs, allocations))
  }

  function Run(sigs: AppSignatures, steps: seq<Step>): System {
    if steps == [] then System([], 0, [], {})
    else Apply(sigs, Run(sigs, steps[..|steps| - 1]), steps[|steps| - 1])
  }

  predicate Starts(step: Step, id: string) {
    step.Degrade? && step.degrade.Start? && step.degrade.rule.id == id
  }

  /** Operations are their features' own, and rule ids are never drawn twice. */
  ghost predicate ProperRun(steps: seq<Step>) {
    && (forall i | 0 <= i < |steps| :: Proper(steps[i]))
    && (forall i, j, id | 0 <= i < j < |steps| && Starts(steps[i], id) :: !Starts(steps[j], id))
  }

  // ----- the degrader seen by the shaper -----

  /** Only names of the PW_ features come and go. */
  ghost predicate PwOnly(os: Artifacts, os': Artifacts) {
    forall a | (a in os) != (a in os') :: Like(a.name, "PW_")
  }

  /** Only the degrader's own names come and go. */
  ghost predicate SelectiveOnly(os: Artifacts, os': Artifacts) {
    forall a | (a in os) != (a in os') :: S.IsSelective(a)
  }

  lemma SelPattern(kind: Kind, id: string, name: string)
    requires Like(name, SelName(kind, id, ""))
    ensures Like(name, SelPrefix(kind))
  {
    var p, rest := SelPrefix(kind), id + "_" + "";
    assert SelName(kind, id, "") == p + rest;
    LowerConcat(p, rest);
    assert Lower(p) <= Lower(p + rest) <= Lower(name);
  }

  lemma WithoutRuleSelective(os: Artifacts, id: string)
    ensures SelectiveOnly(os, S.WithoutRule(os, id))
  {
    forall a | (a in os) != (a in S.WithoutRule(os, id)) ensures S.IsSelective(a) {
      SelPattern(a.kind, id, a.name);
    }
  }

  lemma {:induction false} EndedSelective(w: S.World, cut: S.Cutoff, n: nat)
    requires w.live && n <= |w.rules|
    ensures SelectiveOnly(w.os, S.Ended(w, cut, n).os)
  {
    if n > 0 {
      var v := S.Ended(w, cut, n - 1);
      EndedSelective(w, cut, n - 1);
      WithoutRuleSelective(v.os, v.rules[n - 1].id);
    }
  }

  /** Every operation of the degrader creates and removes its own names only. */
  lemma DegraderSelective(w: S.World, step: S.Step)
    requires w.live && (step.Start? || step.Stop? || step.End?)
    ensures SelectiveOnly(w.os, S.Apply(w, step).os)
  {
    match step
    case Start(r) =>
      forall a | a in S.RuleArtifacts(r) ensures S.IsSelective(a) {
        var _ := S.ArtifactForm(r, a);
      }
    case Stop(id) => WithoutRuleSelective(w.os, id);
    case End(cut) => EndedSelective(w, cut, |w.rules|);
  }

  /** So they are all PW_ names. */
  lemma DegraderPw(w: S.World, step: S.Step)
    requires w.live && (step.Start? || step.Stop? || step.End?)
    ensures PwOnly(w.os, S.Apply(w, step).os)
  {
    var os' := S.Apply(w, step).os;
    DegraderSelective(w, step);
    forall a | (a in w.os) != (a in os') ensures Like(a.name, "PW_") {
      S.SelectiveIsPw(a);
    }
  }

  /** One step as the shaper sees it. */
  function ShaperStep(sigs: AppSignatures, y: System, step: Step): H.Step {
    match step
    case Degrade(s) =>
      var os' := S.Apply(y.Degrader(), s).os;
      H.Selective(y.os - os', os' - y.os)
    case Shape(h) => h
    case Switch(allocations) => H.SwitchPriorities(Created(sigs, allocations))
  }

  lemma ShaperSees(sigs: AppSignatures, y: System, step: Step)
    requires Proper(step) && forall app | app in sigs :: app in APP_IDS
    ensures H.Proper(ShaperStep(sigs, y, step))
    ensures H.Apply(y.Shaper(), ShaperStep(sigs, y, step)) == Apply(sigs, y, step).Shaper()
  {
    match step
    case Degrade(s) =>
      DegraderPw(y.Degrader(), s);
      var os' := S.Apply(y.Degrader(), s).os;
      assert (y.os - (y.os - os')) + (os' - y.os) == os';
    case Shape(_) =>
    case Switch(allocations) => CreatedForSwitch(sigs, allocations);
  }

  // ----- the shaper seen by the degrader -----

  function ClearSteps(policies: seq<TrafficPolicy>, app: string): seq<S.Step> {
    if policies == [] then []
    else
      var (init, last) := (policies[..|policies| - 1], policies[|policies| - 1]);
      ClearSteps(init, app)
      + if last.appName == app && last.active then [S.Shape(Some(last.qosPolicyName), {})] else []
  }

  /** One operation of the shaper, as removals by pattern and creations. */
  function ShapeSteps(w: H.World, h: H.Step): seq<S.Step> {
    match h
    case Throttle(_, _, _, _, _, _, _) => [S.Shape(None, H.Made(h, w.counter + 1))]
    case Prioritize(app, _, _) => ClearSteps(w.policies, app)
    case Remove(id) =>
      var i := IndexOfActive(w.policies, id);
      if i < |w.policies| then [S.Shape(Some(w.policies[i].qosPolicyName), {})] else []
    case RemoveAll => [S.Shape(Some("PathWise-"), {})]
    case _ => []
  }

  function After(w: S.World, steps: seq<S.Step>): S.World {
    if steps == [] then w else S.Apply(After(w, steps[..|steps| - 1]), steps[|steps| - 1])
  }

  lemma AfterAppend(w: S.World, steps: seq<S.Step>, step: S.Step)
    ensures After(w, steps + [step]) == S.Apply(After(w, steps), step)
  {
    assert (steps + [step])[..|steps|] == steps;
  }

  lemma AfterOne(w: S.World, step: S.Step)
    ensures After(w, [step]) == S.Apply(w, step)
  {
    assert [step][..0] == [];
  }

  lemma ShapeRemoves(w: S.World, pattern: string)
    ensures S.Apply(w, S.Shape(Some(pattern), {})) == w.(os := WithoutPattern(w.os, pattern))
  {
  }

  lemma {:induction false} ClearStepsClear(w: S.World, policies: seq<TrafficPolicy>, app: string)
    ensures After(w, ClearSteps(policies, app)) == w.(os := AppCleared(policies, app, w.os))
  {
    if policies != [] {
      var (init, last) := (policies[..|policies| - 1], policies[|policies| - 1]);
      ClearStepsClear(w, init, app);
      if last.appName == app && last.active {
        AfterAppend(w, ClearSteps(init, app), S.Shape(Some(last.qosPolicyName), {}));
        ShapeRemoves(After(w, ClearSteps(init, app)), last.qosPolicyName);
      } else {
        assert ClearSteps(init, app) + [] == ClearSteps(init, app);
      }
    }
  }

  lemma ShapeStepsShape(y: System, h: H.Step)
    requires h.Throttle? || h.Prioritize? || h.Remove? || h.RemoveAll?
    ensures After(y.Degrader(), ShapeSteps(y.Shaper(), h)) == y.Degrader().(os := H.Apply(y.Shaper(), h).os)
  {
    var w, steps := y.Degrader(), ShapeSteps(y.Shaper(), h);
    if h.Prioritize? {
      ClearStepsClear(w, y.policies, h.app);
    } else if steps != [] {
      AfterOne(w, steps[0]);
      if !h.Throttle? {
        ShapeRemoves(w, steps[0].pattern.value);
      }
    }
  }

  /** A shaper step touches PathWise names only. */
  ghost predicate PathWiseStep(s: S.Step) {
    s.Shape? && S.Proper(s)
  }

  lemma NamedIsPathWise(p: TrafficPolicy, n: nat)
    requires H.Named(p, n)
    ensures Like(p.qosPolicyName, "PathWise-")
  {
    var rest := if p.action == ThrottleAction then p.appName + "-" + Decimal(n)
                else "pri-" + p.appName + "-" + Decimal(n);
    assert p.qosPolicyName == "PathWise-" + rest;
    LikeSelf("PathWise-", rest);
  }

  lemma {:induction false} ClearStepsProper(policies: seq<TrafficPolicy>, app: string)
    requires forall i | 0 <= i < |policies| :: Like(policies[i].qosPolicyName, "PathWise-")
    ensures forall i | 0 <= i < |ClearSteps(policies, app)| :: PathWiseStep(ClearSteps(policies, app)[i])
  {
    if policies != [] {
      ClearStepsProper(policies[..|policies| - 1], app);
    }
  }

  lemma ShapeStepsProper(w: H.World, h: H.Step)
    requires H.ListOk(w) && H.Proper(h)
    ensures forall i | 0 <= i < |ShapeSteps(w, h)| :: PathWiseStep(ShapeSteps(w, h)[i])
  {
    forall i | 0 <= i < |w.policies| ensures Like(w.policies[i].qosPolicyName, "PathWise-") {
      assert H.Named(w.policies[i], H.Number(w, i));
      NamedIsPathWise(w.policies[i], H.Number(w, i));
    }
    match h
    case Throttle(app, _, _, _, _, _, _) =>
      var n := w.counter + 1;
      ThrottleCreatesOwn(app, n, h.profile, h.resolved, h.resolvedAgain, h.kbps);
      forall a | a in H.Made(h, n) ensures Like(a.name, "PathWise-") {
        H.OwnPattern(a, app, n);
      }
    case Prioritize(app, _, _) => ClearStepsProper(w.policies, app);
    case _ =>
  }

  /** One step as the degrader sees it. */
  function DegraderSteps(sigs: AppSignatures, y: System, step: Step): seq<S.Step> {
    match step
    case Degrade(s) => [s]
    case Shape(h) => ShapeSteps(y.Shaper(), h)
    case Switch(allocations) => [S.SwitchPriorities(Created(sigs, allocations))]
  }

  lemma DegraderSees(sigs: AppSignatures, y: System, step: Step)
    requires Proper(step)
    ensures After(y.Degrader(), DegraderSteps(sigs, y, step)) == Apply(sigs, y, step).Degrader()
  {
    if step.Shape? {
      ShapeStepsShape(y, step.shape);
    } else {
      AfterOne(y.Degrader(), DegraderSteps(sigs, y, step)[0]);
    }
  }

  // ----- whole runs -----

  function ShaperView(sigs: AppSignatures, steps: seq<Step>): seq<H.Step> {
    if steps == [] then []
    else
      var init := steps[..|steps| - 1];
      ShaperView(sigs, init) + [ShaperStep(sigs, Run(sigs, init), steps[|steps| - 1])]
  }

  function DegraderView(sigs: AppSignatures, steps: seq<Step>): seq<S.Step> {
    if steps == [] then []
    else
      var init := steps[..|steps| - 1];
      DegraderView(sigs, init) + DegraderSteps(sigs, Run(sigs, init), steps[|steps| - 1])
  }

  lemma ProperInit(steps: seq<Step>)
    requires ProperRun(steps) && steps != []
    ensures ProperRun(steps[..|steps| - 1]) && Proper(steps[|steps| - 1])
  {
    var init := steps[..|steps| - 1];
    assert forall i | 0 <= i < |init| :: init[i] == steps[i];
  }

  lemma DegraderViewStep(sigs: AppSignatures, steps: seq<Step>)
    requires steps != []
    ensures var init := steps[..|steps| - 1];
            DegraderView(sigs, steps) ==
            DegraderView(sigs, init) + DegraderSteps(sigs, Run(sigs, init), steps[|steps| - 1])
  {
  }

  /** Every run of the system is a proper run of the shaper. */
  lemma {:induction false} ShaperRun(sigs: AppSignatures, steps: seq<Step>)
    requires ProperRun(steps) && forall app | app in sigs :: app in APP_IDS
    ensures H.ProperRun(ShaperView(sigs, steps))
    ensures H.Run(ShaperView(sigs, steps)) == Run(sigs, steps).Shaper()
  {
    if steps != [] {
      var init, step := steps[..|steps| - 1], steps[|steps| - 1];
      assert forall i | 0 <= i < |init| :: init[i] == steps[i];
      ShaperRun(sigs, init);
      ShaperSees(sigs, Run(sigs, init), step);
      var view := ShaperView(sigs, init);
      assert (view + [ShaperStep(sigs, Run(sigs, init), step)])[..|view|] == view;
    }
  }

  lemma {:induction false} RunThen(a: seq<S.Step>, b: seq<S.Step>)
    ensures S.Run(a + b) == After(S.Run(a), b)
  {
    if b == [] {
      assert a + b == a;
    } else {
      var n := |b| - 1;
      RunThen(a, b[..n]);
      assert (a + b)[..|a + b| - 1] == a + b[..n];
    }
  }

  lemma {:induction false} DegraderRun(sigs: AppSignatures, steps: seq<Step>)
    requires forall i | 0 <= i < |steps| :: Proper(steps[i])
    ensures S.Run(DegraderView(sigs, steps)) == Run(sigs, steps).Degrader()
  {
    if steps != [] {
      var init, step := steps[..|steps| - 1], steps[|steps| - 1];
      assert forall i | 0 <= i < |init| :: init[i] == steps[i];
      DegraderRun(sigs, init);
      DegraderSees(sigs, Run(sigs, init), step);
      RunThen(DegraderView(sigs, init), DegraderSteps(sigs, Run(sigs, init), step));
    }
  }

  predicate StartedIn(steps: seq<S.Step>, id: string) {
    exists k :: 0 <= k < |steps| && steps[k].Start? && steps[k].rule.id == id
  }

  predicate StartsIn(steps: seq<Step>, id: string) {
    exists k :: 0 <= k < |steps| && Starts(steps[k], id)
  }

  lemma StartedConcat(a: seq<S.Step>, b: seq<S.Step>, id: string)
    ensures StartedIn(a + b, id) <==> StartedIn(a, id) || StartedIn(b, id)
  {
    var all := a + b;
    assert forall k | 0 <= k < |a| :: all[k] == a[k];
    assert forall k | 0 <= k < |b| :: all[|a| + k] == b[k];
    if k :| 0 <= k < |all| && all[k].Start? && all[k].rule.id == id {
      assert k < |a| || b[k - |a|] == all[k];
    }
  }

  lemma StartsAppend(steps: seq<Step>, step: Step, id: string)
    ensures StartsIn(steps + [step], id) <==> StartsIn(steps, id) || Starts(step, id)
  {
    var all := steps + [step];
    assert all[|steps|] == step && forall k | 0 <= k < |steps| :: all[k] == steps[k];
  }

  /** What the degrader is shown of a step starts what the step starts. */
  lemma StepStarts(sigs: AppSignatures, y: System, step: Step, id: string)
    requires Proper(step) && H.ListOk(y.Shaper())
    ensures StartedIn(DegraderSteps(sigs, y, step), id) <==> Starts(step, id)
  {
    var shown := DegraderSteps(sigs, y, step);
    if step.Shape? {
      ShapeStepsProper(y.Shaper(), step.shape);
    } else {
      assert |shown| == 1 && (shown[0].Start? ==> step == Degrade(shown[0]));
      assert Starts(step, id) ==> shown[0].Start? && shown[0].rule.id == id;
    }
  }

  lemma ReachableListOk(sigs: AppSignatures, steps: seq<Step>)
    requires ProperRun(steps) && forall app | app in sigs :: app in APP_IDS
    ensures H.ListOk(Run(sigs, steps).Shaper())
  {
    ShaperRun(sigs, steps);
    H.RunListOk(ShaperView(sigs, steps));
  }

  lemma ViewStartsStep(sigs: AppSignatures, steps: seq<Step>, id: string)
    requires ProperRun(steps) && steps != [] && forall app | app in sigs :: app in APP_IDS
    ensures var (init, step) := (steps[..|steps| - 1], steps[|steps| - 1]);
            StartedIn(DegraderView(sigs, steps), id) <==>
            StartedIn(DegraderView(sigs, init), id) || Starts(step, id)
  {
    var init, step := steps[..|steps| - 1], steps[|steps| - 1];
    ProperInit(steps);
    ReachableListOk(sigs, init);
    var y := Run(sigs, init);
    DegraderViewStep(sigs, steps);
    StepStarts(sigs, y, step, id);
    StartedConcat(DegraderView(sigs, init), DegraderSteps(sigs, y, step), id);
  }

  lemma {:induction false} ViewStarts(sigs: AppSignatures, steps: seq<Step>, id: string)
    requires ProperRun(steps) && forall app | app in sigs :: app in APP_IDS
    ensures StartedIn(DegraderView(sigs, steps), id) <==> StartsIn(steps, id)
  {
    if steps != [] {
      var init, step := steps[..|steps| - 1], steps[|steps| - 1];
      ProperInit(steps);
      ViewStarts(sigs, init, id);
      ViewStartsStep(sigs, steps, id);
      assert steps == init + [step];
      StartsAppend(init, step, id);
    }
  }

  /** Proper steps, with no start unless it is alone. */
  ghost predicate AtMostOneStart(shown: seq<S.Step>) {
    && (forall i | 0 <= i < |shown| :: S.Proper(shown[i]))
    && (forall i, j | 0 <= i < j < |shown| :: !shown[i].Start? && !shown[j].Start?)
  }

  /** b starts no rule that a has started. */
  ghost predicate StartsNew(a: seq<S.Step>, b: seq<S.Step>) {
    forall id | StartedIn(b, id) :: !StartedIn(a, id)
  }

  lemma StepsProper(sigs: AppSignatures, y: System, step: Step)
    requires Proper(step) && H.ListOk(y.Shaper()) && forall app | app in sigs :: app in APP_IDS
    ensures AtMostOneStart(DegraderSteps(sigs, y, step))
  {
    match step
    case Degrade(_) =>
    case Shape(h) => ShapeStepsProper(y.Shaper(), h);
    case Switch(allocations) => CreatedNotSelective(sigs, allocations);
  }

  lemma CreatedNotSelective(sigs: AppSignatures, allocations: seq<AppAllocation>)
    requires forall app | app in sigs :: app in APP_IDS
    ensures S.Proper(S.SwitchPriorities(Created(sigs, allocations)))
  {
    CreatedForSwitch(sigs, allocations);
  }

  lemma ProperConcat(a: seq<S.Step>, b: seq<S.Step>)
    requires S.ProperRun(a) && AtMostOneStart(b) && StartsNew(a, b)
    ensures S.ProperRun(a + b)
  {
    var all := a + b;
    forall i, j | 0 <= i < j < |all| && all[i].Start? && all[j].Start? ensures all[i].rule.id != all[j].rule.id {
      if i < |a| <= j {
        assert b[j - |a|] == all[j] && a[i] == all[i];
        assert StartedIn(b, all[j].rule.id);
      }
    }
  }

  lemma FreshStart(steps: seq<Step>, id: string)
    requires ProperRun(steps) && steps != [] && Starts(steps[|steps| - 1], id)
    ensures !StartsIn(steps[..|steps| - 1], id)
  {
    var n := |steps| - 1;
    assert forall k | 0 <= k < n :: steps[..n][k] == steps[k] && !Starts(steps[k], id);
  }

  lemma StartIsNew(sigs: AppSignatures, steps: seq<Step>)
    requires ProperRun(steps) && steps != [] && forall app | app in sigs :: app in APP_IDS
    ensures var init := steps[..|steps| - 1];
            StartsNew(DegraderView(sigs, init), DegraderSteps(sigs, Run(sigs, init), steps[|steps| - 1]))
  {
    var n := |steps| - 1;
    var init, step := steps[..n], steps[n];
    assert forall i | 0 <= i < n :: init[i] == steps[i];
    ReachableListOk(sigs, init);
    forall id | StartedIn(DegraderSteps(sigs, Run(sigs, init), step), id)
      ensures !StartedIn(DegraderView(sigs, init), id)
    {
      StepStarts(sigs, Run(sigs, init), step, id);
      FreshStart(steps, id);
      ViewStarts(sigs, init, id);
    }
  }

  /** And one of the degrader. */
  lemma {:induction false} DegraderRunProper(sigs: AppSignatures, steps: seq<Step>)
    requires ProperRun(steps) && forall app | app in sigs :: app in APP_IDS
    ensures S.ProperRun(DegraderView(sigs, steps))
  {
    if steps != [] {
      var n := |steps| - 1;
      var init, step := steps[..n], steps[n];
      assert forall i | 0 <= i < n :: init[i] == steps[i];
      DegraderRunProper(sigs, init);
      ReachableListOk(sigs, init);
      var y := Run(sigs, init);
      StepsProper(sigs, y, step);
      StartIsNew(sigs, steps);
      ProperConcat(DegraderView(sigs, init), DegraderSteps(sigs, y, step));
    }
  }

  // ----- what holds of the three together -----

  /** Whatever the three features do, the selective firewall rules on the system are
      those of the degrader's active rules. */
  lemma FirewallHolds(sigs: AppSignatures, steps: seq<Step>, a: Artifact)
    requires ProperRun(steps) && forall app | app in sigs :: app in APP_IDS
    requires S.IsSelective(a) && a.kind == FirewallRule
    ensures a in Run(sigs, steps).os <==> S.OfActiveRule(Run(sigs, steps).Degrader(), a)
  {
    DegraderRun(sigs, steps);
    DegraderRunProper(sigs, steps);
    S.FirewallExact(DegraderView(sigs, steps), a);
  }

  /** And each PathWise rule belongs to a policy the shaper still lists as active, or to
      one that has dropped out of its list. */
  lemma NoOrphansHolds(sigs: AppSignatures, steps: seq<Step>)
    requires ProperRun(steps) && forall app | app in sigs :: app in APP_IDS
    ensures H.NoOrphans(Run(sigs, steps).Shaper())
  {
    ShaperRun(sigs, steps);
    H.RunNoOrphans(ShaperView(sigs, steps));
  }

  /** The rule was started, and priorities have not been switched since. */
  predicate SinceSwitch(steps: seq<Step>, id: string) {
    exists i :: 0 <= i < |steps| && Starts(steps[i], id) && NoSwitchAfter(steps, i)
  }

  predicate NoSwitchAfter(steps: seq<Step>, i: int) {
    forall j | 0 <= j < |steps| && i < j :: !steps[j].Switch?
  }

  lemma SinceSwitchAppend(steps: seq<Step>, step: Step, id: string)
    ensures SinceSwitch(steps + [step], id) <==> Starts(step, id) || (SinceSwitch(steps, id) && !step.Switch?)
  {
    var all := steps + [step];
    assert all[|steps|] == step && forall k | 0 <= k < |steps| :: all[k] == steps[k];
    if i :| 0 <= i < |all| && Starts(all[i], id) && NoSwitchAfter(all, i) {
      if i < |steps| {
        assert Starts(steps[i], id) && NoSwitchAfter(steps, i) && !all[|steps|].Switch?;
      }
    }
    if Starts(step, id) {
      assert Starts(all[|steps|], id) && NoSwitchAfter(all, |steps|);
    }
    if !step.Switch? && SinceSwitch(steps, id) {
      var i :| 0 <= i < |steps| && Starts(steps[i], id) && NoSwitchAfter(steps, i);
      assert Starts(all[i], id) && NoSwitchAfter(all, i);
    }
  }

  lemma {:induction false} ShapingKeepsSurvivors(a: seq<S.Step>, b: seq<S.Step>)
    requires forall i | 0 <= i < |b| :: b[i].Shape?
    ensures S.Survivors(a + b) == S.Survivors(a)
  {
    if b == [] {
      assert a + b == a;
    } else {
      var n := |b| - 1;
      ShapingKeepsSurvivors(a, b[..n]);
      assert (a + b)[..|a + b| - 1] == a + b[..n];
    }
  }

  lemma SurvivorsAppend(a: seq<S.Step>, step: S.Step)
    ensures S.Survivors(a + [step]) ==
            if step.Start? then S.Survivors(a) + {step.rule.id}
            else if step.SwitchPriorities? then {} else S.Survivors(a)
  {
    assert (a + [step])[..|a|] == a;
  }

  /** What the degrader is shown of a step changes the survivors as the step does. */
  lemma StepSurvivors(sigs: AppSignatures, y: System, view: seq<S.Step>, step: Step, id: string)
    requires Proper(step) && H.ListOk(y.Shaper())
    ensures id in S.Survivors(view + DegraderSteps(sigs, y, step)) <==>
            Starts(step, id) || (id in S.Survivors(view) && !step.Switch?)
  {
    var shown := DegraderSteps(sigs, y, step);
    if step.Shape? {
      ShapeStepsProper(y.Shaper(), step.shape);
      ShapingKeepsSurvivors(view, shown);
    } else {
      SurvivorsAppend(view, shown[0]);
    }
  }

  lemma {:induction false} SurvivorsAre(sigs: AppSignatures, steps: seq<Step>, id: string)
    requires ProperRun(steps) && forall app | app in sigs :: app in APP_IDS
    ensures id in S.Survivors(DegraderView(sigs, steps)) <==> SinceSwitch(steps, id)
  {
    if steps != [] {
      var init, step := steps[..|steps| - 1], steps[|steps| - 1];
      ProperInit(steps);
      SurvivorsAre(sigs, init, id);
      assert steps == init + [step];
      SinceSwitchAppend(init, step, id);
      ReachableListOk(sigs, init);
      DegraderViewStep(sigs, steps);
      StepSurvivors(sigs, Run(sigs, init), DegraderView(sigs, init), step, id);
    }
  }

  /** An active rule started since the last switch creates the artifact. */
  ghost predicate OfRuleSinceSwitch(y: System, steps: seq<Step>, a: Artifact) {
    exists i :: && 0 <= i < |y.rules| && y.rules[i].active && a in S.RuleArtifacts(y.rules[i])
                && SinceSwitch(steps, y.rules[i].id)
  }

  /** The selective policies on the system are those of the active rules started since
      the last step of the priority switch. */
  lemma PoliciesHold(sigs: AppSignatures, steps: seq<Step>, a: Artifact)
    requires ProperRun(steps) && forall app | app in sigs :: app in APP_IDS
    requires S.IsSelective(a) && a.kind == QosPolicy
    ensures a in Run(sigs, steps).os <==> OfRuleSinceSwitch(Run(sigs, steps), steps, a)
  {
    var y, survivors := Run(sigs, steps), S.Survivors(DegraderView(sigs, steps));
    DegraderRun(sigs, steps);
    DegraderRunProper(sigs, steps);
    S.RunAccounted(DegraderView(sigs, steps));
    forall i | 0 <= i < |y.rules|
      ensures y.rules[i].id in survivors <==> SinceSwitch(steps, y.rules[i].id)
    {
      SurvivorsAre(sigs, steps, y.rules[i].id);
    }
    if S.Owned(y.Degrader(), survivors, a) {
      var i :| S.Owns(y.Degrader(), survivors, i, a);
      assert SinceSwitch(steps, y.rules[i].id);
    }
    if OfRuleSinceSwitch(y, steps, a) {
      var i :| 0 <= i < |y.rules| && y.rules[i].active && a in S.RuleArtifacts(y.rules[i])
               && SinceSwitch(steps, y.rules[i].id);
      assert S.Owns(y.Degrader(), survivors, i, a);
    }
  }

  // ----- the policies of the switch -----

  /** The policies on the system that carry PW_ names and are not the degrader's. */
  function SwitchPolicies(os: Artifacts): Artifacts {
    set a | a in os && Matches(a, QosPolicy, "PW_") && !S.IsSelective(a)
  }

  /** Step k is the last of the priority switch. */
  predicate LastSwitch(steps: seq<Step>, k: int) {
    0 <= k < |steps| && steps[k].Switch? && NoSwitchAfter(steps, k)
  }

  lemma {:induction false} PathWiseSparesPw(w: S.World, steps: seq<S.Step>, a: Artifact)
    requires forall i | 0 <= i < |steps| :: PathWiseStep(steps[i])
    requires Like(a.name, "PW_")
    ensures a in After(w, steps).os <==> a in w.os
  {
    if steps != [] {
      var init, last := steps[..|steps| - 1], steps[|steps| - 1];
      PathWiseSparesPw(w, init, a);
      assert PathWiseStep(last);
      ShaperApart(a.name, if last.pattern.Some? then last.pattern.value else "");
    }
  }

  /** The degrader and the shaper leave the switch's policies alone. */
  lemma OthersSparePolicies(y: System, sigs: AppSignatures, step: Step)
    requires Proper(step) && !step.Switch? && H.ListOk(y.Shaper())
    ensures SwitchPolicies(Apply(sigs, y, step).os) == SwitchPolicies(y.os)
  {
    if step.Degrade? {
      DegraderSelective(y.Degrader(), step.degrade);
    } else {
      ShapeStepsShape(y, step.shape);
      ShapeStepsProper(y.Shaper(), step.shape);
      forall a | Matches(a, QosPolicy, "PW_") ensures a in Apply(sigs, y, step).os <==> a in y.os {
        PathWiseSparesPw(y.Degrader(), ShapeSteps(y.Shaper(), step.shape), a);
      }
    }
  }

  lemma SwitchReplacesPolicies(y: System, sigs: AppSignatures, allocations: seq<AppAllocation>)
    requires forall app | app in sigs :: app in APP_IDS
    ensures SwitchPolicies(Apply(sigs, y, Switch(allocations)).os) == Created(sigs, allocations)
  {
    CreatedForSwitch(sigs, allocations);
  }

  /** What the last switch has created, whatever came after it; nothing before the first. */
  function LastCreated(sigs: AppSignatures, steps: seq<Step>): Artifacts {
    if steps == [] then {}
    else
      var (init, last) := (steps[..|steps| - 1], steps[|steps| - 1]);
      if last.Switch? then Created(sigs, last.allocations) else LastCreated(sigs, init)
  }

  lemma {:induction false} LastCreatedIs(sigs: AppSignatures, steps: seq<Step>, k: nat)
    requires LastSwitch(steps, k)
    ensures LastCreated(sigs, steps) == Created(sigs, steps[k].allocations)
  {
    var n := |steps| - 1;
    if k < n {
      assert !steps[n].Switch? && steps[..n][k] == steps[k];
      assert forall j | 0 <= j < n :: steps[..n][j] == steps[j];
      LastCreatedIs(sigs, steps[..n], k);
    }
  }

  lemma {:induction false} NoneCreated(sigs: AppSignatures, steps: seq<Step>)
    requires forall j | 0 <= j < |steps| :: !steps[j].Switch?
    ensures LastCreated(sigs, steps) == {}
  {
    if steps != [] {
      NoneCreated(sigs, steps[..|steps| - 1]);
    }
  }

  lemma {:induction false} PoliciesAreLastCreated(sigs: AppSignatures, steps: seq<Step>)
    requires ProperRun(steps) && forall app | app in sigs :: app in APP_IDS
    ensures SwitchPolicies(Run(sigs, steps).os) == LastCreated(sigs, steps)
  {
    if steps != [] {
      var init, step := steps[..|steps| - 1], steps[|steps| - 1];
      ProperInit(steps);
      PoliciesAreLastCreated(sigs, init);
      var y := Run(sigs, init);
      if step.Switch? {
        SwitchReplacesPolicies(y, sigs, step.allocations);
      } else {
        ReachableListOk(sigs, init);
        OthersSparePolicies(y, sigs, step);
      }
    }
  }

  /** After any run the PW_ policies that are not the degrader's are exactly those that
      the last step of the switch created, and there are none before the first. */
  lemma SwitchPoliciesHold(sigs: AppSignatures, steps: seq<Step>)
    requires ProperRun(steps) && forall app | app in sigs :: app in APP_IDS
    ensures forall k | LastSwitch(steps, k) ::
              SwitchPolicies(Run(sigs, steps).os) == Created(sigs, steps[k].allocations)
    ensures (forall j | 0 <= j < |steps| :: !steps[j].Switch?) ==> SwitchPolicies(Run(sigs, steps).os) == {}
  {
    PoliciesAreLastCreated(sigs, steps);
    forall k | LastSwitch(steps, k) ensures LastCreated(sigs, steps) == Created(sigs, steps[k].allocations) {
      LastCreatedIs(sigs, steps, k);
    }
    if forall j | 0 <= j < |steps| :: !steps[j].Switch? {
      NoneCreated(sigs, steps);
    }
  }

  /** A rule of policy n of an app is on the system iff it stands in the shaper's view of
      the run, whatever the degrader and the switch did meanwhile. */
  lemma ShaperRulesHold(sigs: AppSignatures, steps: seq<Step>, a: Artifact, app: string, n: nat)
    requires ProperRun(steps) && forall known | known in sigs :: known in APP_IDS
    requires AppKey(app) && RuleOf(a, app, n)
    ensures var view := ShaperView(sigs, steps);
            a in Run(sigs, steps).os <==> H.Stands(H.Worlds(view), view, a, app, n)
  {
    ShaperRun(sigs, steps);
    H.RunExact(ShaperView(sigs, steps), a, app, n);
  }
}
