/** The rules of server/app_qos/selective_degrader.py and what starting, stopping and
    sweeping them does to the rule table and to the operating system. */
module SelectiveRules {
  import opened Text
  import opened OsRules

  const MIN_DURATION_S := 5
  const MAX_DURATION_S := 3600
  const MIN_THROTTLE_KBPS := 32
  const MAX_IPS_PER_RULE := 32

  datatype Mode = Block | Throttle

  datatype SelectiveRule = SelectiveRule(
    id: string, appId: Option<string>, ips: seq<string>, mode: Mode, throttleKbps: Option<int>,
    startedAt: real, durationS: int, expiresAt: real, reason: string, active: bool, commandsRun: nat)

  predicate IsV6(ip: string) {
    ':' in ip
  }

  function RuleArtifacts(r: SelectiveRule): Artifacts {
    match r.mode
    case Block =>
      (if exists ip :: ip in r.ips && !IsV6(ip)
       then {Artifact(FirewallRule, SelName(FirewallRule, r.id, "TCP4")),
             Artifact(FirewallRule, SelName(FirewallRule, r.id, "UDP4"))} else {})
      + (if exists ip :: ip in r.ips && IsV6(ip)
         then {Artifact(FirewallRule, SelName(FirewallRule, r.id, "TCP6"))} else {})
    case Throttle => ThrottlePolicies(r.id, |r.ips|)
  }

  function ThrottlePolicies(id: string, n: nat): Artifacts {
    set i | 0 <= i < n :: Artifact(QosPolicy, SelName(QosPolicy, id, Decimal(i)))
  }

  lemma OneMorePolicy(id: string, n: nat)
    ensures ThrottlePolicies(id, n + 1) ==
            ThrottlePolicies(id, n) + {Artifact(QosPolicy, SelName(QosPolicy, id, Decimal(n)))}
  {
    forall a | a in ThrottlePolicies(id, n + 1)
      ensures a in ThrottlePolicies(id, n) || a == Artifact(QosPolicy, SelName(QosPolicy, id, Decimal(n)))
    {
      var i :| 0 <= i < n + 1 && a == Artifact(QosPolicy, SelName(QosPolicy, id, Decimal(i)));
    }
  }

  /** The bounds every rule is created within. */
  predicate Bounded(r: SelectiveRule) {
    && 1 <= |r.ips| <= MAX_IPS_PER_RULE
    && MIN_DURATION_S <= r.durationS <= MAX_DURATION_S
    && r.expiresAt == r.startedAt + r.durationS as real
    && (r.mode == Throttle ==> r.throttleKbps.Some? && r.throttleKbps.value >= MIN_THROTTLE_KBPS)
    && (r.mode == Block ==> r.throttleKbps.None?)
  }

  /** live is ENFORCER_MODE=powershell; in simulate mode nothing reaches the system. */
  datatype World = World(live: bool, rules: seq<SelectiveRule>, os: Artifacts)

  function Started(w: World, r: SelectiveRule): World {
    World(w.live, w.rules + [r], if w.live then w.os + RuleArtifacts(r) else w.os)
  }

  function WithoutRule(os: Artifacts, id: string): Artifacts {
    Without(Without(os, FirewallRule, SelName(FirewallRule, id, "")), QosPolicy, SelName(QosPolicy, id, ""))
  }

  function Deactivated(w: World, i: nat): World
    requires i < |w.rules|
  {
    var r := w.rules[i];
    World(w.live, w.rules[i := r.(active := false)], if w.live then WithoutRule(w.os, r.id) else w.os)
  }

  function IndexOf(rules: seq<SelectiveRule>, id: string): (i: nat)
    ensures i <= |rules|
    ensures i < |rules| ==> rules[i].id == id
    ensures forall j | 0 <= j < i :: rules[j].id != id
  {
    if rules == [] || rules[0].id == id then 0 else 1 + IndexOf(rules[1..], id)
  }

  function Stopped(w: World, id: string): World {
    var i := IndexOf(w.rules, id);
    if i < |w.rules| && w.rules[i].active then Deactivated(w, i) else w
  }

  /** stop_all ends every active rule, a sweep those whose time has come. */
  datatype Cutoff = Everything | Elapsed(now: real)

  predicate Due(r: SelectiveRule, cut: Cutoff) {
    r.active && (cut.Elapsed? ==> cut.now >= r.expiresAt)
  }

  function EndedAt(w: World, cut: Cutoff, i: nat): World
    requires i < |w.rules|
  {
    if Due(w.rules[i], cut) then Deactivated(w, i) else w
  }

  function Ended(w: World, cut: Cutoff, n: nat): (v: World)
    requires n <= |w.rules|
    ensures |v.rules| == |w.rules| && v.live == w.live
  {
    if n == 0 then w else EndedAt(Ended(w, cut, n - 1), cut, n - 1)
  }

  // ----- steps of a run, other features included -----

  datatype Step =
    | Start(rule: SelectiveRule)
    | Stop(id: string)
    | End(cut: Cutoff)
    | SwitchPriorities(created: Artifacts)             // the App Priority Switch re-applies or clears
    | Shape(pattern: Option<string>, made: Artifacts)  // the traffic shaper removes and creates

  function Apply(w: World, step: Step): World {
    match step
    case Start(r) => Started(w, r)
    case Stop(id) => Stopped(w, id)
    case End(cut) => Ended(w, cut, |w.rules|)
    case SwitchPriorities(created) => w.(os := Without(w.os, QosPolicy, "PW_") + created)
    case Shape(pattern, made) =>
      w.(os := (if pattern.Some? then Without(Without(w.os, QosPolicy, pattern.value), FirewallRule, pattern.value)
                else w.os) + made)
  }

  function Run(steps: seq<Step>): World {
    if steps == [] then World(true, [], {}) else Apply(Run(steps[..|steps| - 1]), steps[|steps| - 1])
  }

  /** Ids of the rules started since the last priority switch. */
  function Survivors(steps: seq<Step>): set<string> {
    if steps == [] then {}
    else
      var (init, last) := (Survivors(steps[..|steps| - 1]), steps[|steps| - 1]);
      if last.Start? then init + {last.rule.id} else if last.SwitchPriorities? then {} else init
  }

  predicate IsSelective(a: Artifact) {
    Matches(a, a.kind, SelPrefix(a.kind))
  }

  /** Rules are new, active and bounded; the other features use their own names. */
  ghost predicate Proper(step: Step) {
    match step
    case Start(r) => RuleId(r.id) && r.active && Bounded(r)
    case SwitchPriorities(created) => forall a | a in created :: !IsSelective(a)
    case Shape(pattern, made) =>
      && (pattern.Some? ==> Like(pattern.value, "PathWise-"))
      && (forall a | a in made :: Like(a.name, "PathWise-"))
    case _ => true
  }

  ghost predicate ProperRun(steps: seq<Step>) {
    && (forall i | 0 <= i < |steps| :: Proper(steps[i]))
    && (forall i, j | 0 <= i < j < |steps| && steps[i].Start? && steps[j].Start? ::
          steps[i].rule.id != steps[j].rule.id)
  }

  // ----- the invariant -----

  ghost predicate RulesOk(w: World) {
    && (forall i | 0 <= i < |w.rules| :: RuleId(w.rules[i].id) && Bounded(w.rules[i]))
    && (forall i, j | 0 <= i < j < |w.rules| :: w.rules[i].id != w.rules[j].id)
  }

  /** Rule i accounts for the artifact. */
  ghost predicate Owns(w: World, survivors: set<string>, i: int, a: Artifact) {
    && 0 <= i < |w.rules| && w.rules[i].active && a in RuleArtifacts(w.rules[i])
    && (a.kind == QosPolicy ==> w.rules[i].id in survivors)
  }

  ghost predicate Owned(w: World, survivors: set<string>, a: Artifact) {
    exists i :: Owns(w, survivors, i, a)
  }

  /** The selective artifacts of the system are those of the active rules: all of
      them for firewall rules, those the priority switch has not wiped for policies. */
  ghost predicate Accounted(w: World, survivors: set<string>) {
    forall a | IsSelective(a) :: a in w.os <==> Owned(w, survivors, a)
  }

  lemma ArtifactForm(r: SelectiveRule, a: Artifact) returns (suffix: string)
    requires a in RuleArtifacts(r)
    ensures a.name == SelName(a.kind, r.id, suffix) && IsSelective(a) && Like(a.name, "PW_")
  {
    if r.mode == Throttle {
      var i :| 0 <= i < |r.ips| && a == Artifact(QosPolicy, SelName(QosPolicy, r.id, Decimal(i)));
      suffix := Decimal(i);
    } else {
      suffix := if a.name == SelName(FirewallRule, r.id, "TCP4") then "TCP4"
                else if a.name == SelName(FirewallRule, r.id, "UDP4") then "UDP4" else "TCP6";
    }
    SelHasPrefix(a.kind, r.id, suffix);
  }

  /** Removing rule id's names takes a rule's artifacts iff it is that rule. */
  lemma WithoutRuleOwn(r: SelectiveRule, id: string, a: Artifact, os: Artifacts)
    requires RuleId(r.id) && RuleId(id) && a in RuleArtifacts(r)
    ensures a in WithoutRule(os, id) <==> a in os && r.id != id
  {
    var suffix := ArtifactForm(r, a);
    SelMatchesOwn(a.kind, id, r.id, suffix);
  }

  lemma StartAccounted(w: World, survivors: set<string>, r: SelectiveRule)
    requires w.live && RulesOk(w) && Accounted(w, survivors) && Proper(Start(r))
    requires forall i | 0 <= i < |w.rules| :: w.rules[i].id != r.id
    ensures RulesOk(Started(w, r)) && Accounted(Started(w, r), survivors + {r.id})
  {
    var v, s := Started(w, r), survivors + {r.id};
    forall a | IsSelective(a) ensures a in v.os <==> Owned(v, s, a) {
      if a in RuleArtifacts(r) {
        assert Owns(v, s, |w.rules|, a);
      } else if a in w.os {
        var i :| Owns(w, survivors, i, a);
        assert Owns(v, s, i, a);
      } else if Owned(v, s, a) {
        var i :| Owns(v, s, i, a);
        assert Owns(w, survivors, i, a);
      }
    }
  }

  lemma DeactivateAccounted(w: World, survivors: set<string>, i: nat)
    requires w.live && RulesOk(w) && Accounted(w, survivors) && i < |w.rules|
    ensures RulesOk(Deactivated(w, i)) && Accounted(Deactivated(w, i), survivors)
  {
    var v := Deactivated(w, i);
    forall a | IsSelective(a) ensures a in v.os <==> Owned(v, survivors, a) {
      if a in v.os {
        var j :| Owns(w, survivors, j, a);
        WithoutRuleOwn(w.rules[j], w.rules[i].id, a, w.os);
        assert Owns(v, survivors, j, a);
      }
      if Owned(v, survivors, a) {
        var j :| Owns(v, survivors, j, a);
        assert Owns(w, survivors, j, a);
        WithoutRuleOwn(w.rules[j], w.rules[i].id, a, w.os);
      }
    }
  }

  lemma EndOneAccounted(w: World, v: World, survivors: set<string>, cut: Cutoff, i: nat)
    requires w.live && RulesOk(w) && Accounted(w, survivors) && i < |w.rules| && v == EndedAt(w, cut, i)
    ensures RulesOk(v) && Accounted(v, survivors)
  {
    if Due(w.rules[i], cut) {
      DeactivateAccounted(w, survivors, i);
    }
  }

  lemma EndRulesOk(w: World, cut: Cutoff, n: nat)
    requires RulesOk(w) && n <= |w.rules|
    ensures RulesOk(Ended(w, cut, n))
  {
    EndedPrefix(w, cut, n);
  }

  lemma {:induction false} EndAccounted(w: World, survivors: set<string>, cut: Cutoff, n: nat)
    requires w.live && RulesOk(w) && Accounted(w, survivors) && n <= |w.rules|
    ensures Accounted(Ended(w, cut, n), survivors)
  {
    if n > 0 {
      EndRulesOk(w, cut, n - 1);
      EndAccounted(w, survivors, cut, n - 1);
      EndOneAccounted(Ended(w, cut, n - 1), Ended(w, cut, n), survivors, cut, n - 1);
    }
  }

  /** A priority switch takes every policy and leaves every firewall rule. */
  lemma SwitchAccounted(w: World, survivors: set<string>, created: Artifacts)
    requires Accounted(w, survivors) && Proper(SwitchPriorities(created))
    ensures Accounted(Apply(w, SwitchPriorities(created)), {})
  {
    var v := Apply(w, SwitchPriorities(created));
    forall a | IsSelective(a) ensures a in v.os <==> Owned(v, {}, a) {
      if a in v.os {
        var i :| Owns(w, survivors, i, a);
        var _ := ArtifactForm(w.rules[i], a);
        assert Owns(v, {}, i, a);
      }
      if Owned(v, {}, a) {
        var i :| Owns(v, {}, i, a);
        assert Owns(w, survivors, i, a);
      }
    }
  }

  lemma ShapeAccounted(w: World, survivors: set<string>, pattern: Option<string>, made: Artifacts)
    requires Accounted(w, survivors) && Proper(Shape(pattern, made))
    ensures Accounted(Apply(w, Shape(pattern, made)), survivors)
  {
    var v := Apply(w, Shape(pattern, made));
    forall a | IsSelective(a) ensures a in v.os <==> a in w.os {
      SelectiveIsPw(a);
      ShaperApart(a.name, if pattern.Some? then pattern.value else "");
    }
    forall a | IsSelective(a) ensures Owned(w, survivors, a) <==> Owned(v, survivors, a) {
      forall i ensures Owns(w, survivors, i, a) <==> Owns(v, survivors, i, a) {
      }
    }
  }

  lemma SelectiveIsPw(a: Artifact)
    requires IsSelective(a)
    ensures Like(a.name, "PW_")
  {
    var p := SelPrefix(a.kind);
    assert p == "PW_" + p[3..];
    LowerConcat("PW_", p[3..]);
    assert Lower(p)[..3] == Lower("PW_");
    assert Lower(a.name)[..3] == Lower(p)[..3];
  }

  /** A step keeps the rules' ids in place and adds at most the rule it starts. */
  lemma IdsPersist(w: World, step: Step)
    ensures var v := Apply(w, step);
            && v.live == w.live
            && |v.rules| == |w.rules| + (if step.Start? then 1 else 0)
            && (forall i | 0 <= i < |w.rules| :: v.rules[i].id == w.rules[i].id)
            && (step.Start? ==> v.rules[|w.rules|] == step.rule)
  {
    if step.End? {
      EndedPrefix(w, step.cut, |w.rules|);
    }
  }

  ghost predicate StartedBy(steps: seq<Step>, id: string) {
    exists k :: 0 <= k < |steps| && steps[k].Start? && steps[k].rule.id == id
  }

  lemma StartedByAppend(steps: seq<Step>, step: Step, id: string)
    ensures StartedBy(steps + [step], id) <==> StartedBy(steps, id) || (step.Start? && step.rule.id == id)
  {
    var all := steps + [step];
    assert all[|steps|] == step && forall k | 0 <= k < |steps| :: all[k] == steps[k];
  }

  lemma {:induction false} KnownIds(steps: seq<Step>)
    ensures Run(steps).live
    ensures forall i | 0 <= i < |Run(steps).rules| :: StartedBy(steps, Run(steps).rules[i].id)
  {
    if steps != [] {
      var n := |steps| - 1;
      var init, w, v := steps[..n], Run(steps[..n]), Run(steps);
      KnownIds(init);
      IdsPersist(w, steps[n]);
      assert steps == init + [steps[n]];
      forall i | 0 <= i < |v.rules| ensures StartedBy(steps, v.rules[i].id) {
        StartedByAppend(init, steps[n], v.rules[i].id);
      }
    }
  }

  /** After every run, with the features interleaved in any order. */
  lemma {:induction false} RunAccounted(steps: seq<Step>)
    requires ProperRun(steps)
    ensures RulesOk(Run(steps)) && Accounted(Run(steps), Survivors(steps))
  {
    if steps != [] {
      var n := |steps| - 1;
      var init, last := steps[..n], steps[n];
      RunAccounted(init);
      KnownIds(init);
      var w, s := Run(init), Survivors(init);
      match last {
        case Start(r) =>
          forall i | 0 <= i < |w.rules| ensures w.rules[i].id != r.id {
            var k :| 0 <= k < |init| && init[k].Start? && init[k].rule.id == w.rules[i].id;
            assert steps[k] == init[k];
          }
          StartAccounted(w, s, r);
        case Stop(id) =>
          if IndexOf(w.rules, id) < |w.rules| {
            DeactivateAccounted(w, s, IndexOf(w.rules, id));
          }
        case End(cut) =>
          EndRulesOk(w, cut, |w.rules|);
          EndAccounted(w, s, cut, |w.rules|);
        case SwitchPriorities(created) => SwitchAccounted(w, s, created);
        case Shape(pattern, made) => ShapeAccounted(w, s, pattern, made);
      }
    }
  }

  /** Some active rule creates the artifact. */
  ghost predicate OfActiveRule(w: World, a: Artifact) {
    exists i :: 0 <= i < |w.rules| && w.rules[i].active && a in RuleArtifacts(w.rules[i])
  }

  /** Whatever the other features do, the selective firewall rules on the system are
      exactly those of the active rules. */
  lemma FirewallExact(steps: seq<Step>, a: Artifact)
    requires ProperRun(steps) && IsSelective(a) && a.kind == FirewallRule
    ensures a in Run(steps).os <==> OfActiveRule(Run(steps), a)
  {
    RunAccounted(steps);
    var w, s := Run(steps), Survivors(steps);
    if OfActiveRule(w, a) {
      var i :| 0 <= i < |w.rules| && w.rules[i].active && a in RuleArtifacts(w.rules[i]);
      assert Owns(w, s, i, a);
    }
  }

  lemma {:induction false} AllSurvive(steps: seq<Step>)
    requires forall k | 0 <= k < |steps| :: !steps[k].SwitchPriorities?
    ensures forall k | 0 <= k < |steps| && steps[k].Start? :: steps[k].rule.id in Survivors(steps)
  {
    if steps != [] {
      AllSurvive(steps[..|steps| - 1]);
    }
  }

  /** The same holds for the policies as long as priorities are not switched. */
  lemma PoliciesExact(steps: seq<Step>, a: Artifact)
    requires ProperRun(steps) && IsSelective(a)
    requires forall k | 0 <= k < |steps| :: !steps[k].SwitchPriorities?
    ensures a in Run(steps).os <==> OfActiveRule(Run(steps), a)
  {
    RunAccounted(steps);
    KnownIds(steps);
    AllSurvive(steps);
    var w, s := Run(steps), Survivors(steps);
    if OfActiveRule(w, a) {
      var i :| 0 <= i < |w.rules| && w.rules[i].active && a in RuleArtifacts(w.rules[i]);
      assert Owns(w, s, i, a);
    }
  }

  // ----- what a sweep does -----

  /** The first n rules are deactivated exactly when due, the others untouched. */
  lemma {:induction false} EndedPrefix(w: World, cut: Cutoff, n: nat)
    requires n <= |w.rules|
    ensures forall j | 0 <= j < |w.rules| ::
              Ended(w, cut, n).rules[j] ==
              if j < n && Due(w.rules[j], cut) then w.rules[j].(active := false) else w.rules[j]
  {
    if n > 0 {
      EndedPrefix(w, cut, n - 1);
    }
  }

  /** A sweep at time t leaves active exactly the active rules that have not expired, and
      stop_all leaves none; nothing else of a rule changes. */
  lemma EndedExactly(w: World, t: real)
    ensures var v := Ended(w, Elapsed(t), |w.rules|).rules;
            && |v| == |w.rules|
            && forall j | 0 <= j < |v| :: v[j] == w.rules[j].(active := w.rules[j].active && t < w.rules[j].expiresAt)
    ensures var v := Ended(w, Everything, |w.rules|).rules;
            |v| == |w.rules| && forall j | 0 <= j < |v| :: v[j] == w.rules[j].(active := false)
  {
    EndedPrefix(w, Elapsed(t), |w.rules|);
    EndedPrefix(w, Everything, |w.rules|);
  }

  /** Nothing but start adds a rule, and no step changes a rule except by
      deactivating it; so a rule once inactive stays so. */
  lemma NeverReactivated(w: World, step: Step)
    ensures var v := Apply(w, step);
            && |w.rules| <= |v.rules|
            && forall j | 0 <= j < |w.rules| ::
                 v.rules[j] == w.rules[j] || (w.rules[j].active && v.rules[j] == w.rules[j].(active := false))
  {
    if step.End? {
      EndedPrefix(w, step.cut, |w.rules|);
    }
  }

  // ----- how long a rule is active -----

  /** A stop of this rule, a stop of all, or a sweep once its duration has elapsed. */
  predicate Ends(step: Step, r: SelectiveRule) {
    match step
    case Stop(id) => id == r.id
    case End(Everything) => true
    case End(Elapsed(t)) => t >= r.startedAt + r.durationS as real
    case _ => false
  }

  lemma StepEnds(w: World, step: Step, i: nat)
    requires RulesOk(w) && i < |w.rules|
    ensures var r := w.rules[i];
            && i < |Apply(w, step).rules|
            && Apply(w, step).rules[i] == r.(active := r.active && !Ends(step, r))
  {
    assert Bounded(w.rules[i]);
    if step.End? {
      EndedPrefix(w, step.cut, |w.rules|);
    } else if step.Stop? && IndexOf(w.rules, step.id) < |w.rules| {
      var k := IndexOf(w.rules, step.id);
      assert k != i ==> w.rules[k].id != w.rules[i].id;
    }
  }

  /** Some step after step k ended the rule that step k started. */
  predicate EndedSince(steps: seq<Step>, k: nat)
    requires k < |steps| && steps[k].Start?
  {
    exists j :: k < j < |steps| && Ends(steps[j], steps[k].rule)
  }

  /** Place i of the table holds the rule that step k started, active iff not ended. */
  ghost predicate KeptAt(steps: seq<Step>, k: nat, i: int)
    requires k < |steps| && steps[k].Start?
  {
    && 0 <= i < |Run(steps).rules|
    && Run(steps).rules[i] == steps[k].rule.(active := !EndedSince(steps, k))
  }

  lemma EndedSinceStep(steps: seq<Step>, k: nat)
    requires k < |steps| - 1 && steps[k].Start?
    ensures var n := |steps| - 1;
            && steps[..n][k] == steps[k]
            && (EndedSince(steps, k) <==> EndedSince(steps[..n], k) || Ends(steps[n], steps[k].rule))
  {
    var n := |steps| - 1;
    assert forall j | 0 <= j < n :: steps[..n][j] == steps[j];
    if EndedSince(steps[..n], k) {
      var j :| k < j < n && Ends(steps[..n][j], steps[k].rule);
      assert Ends(steps[j], steps[k].rule);
    }
  }

  lemma ProperInit(steps: seq<Step>)
    requires ProperRun(steps) && steps != []
    ensures ProperRun(steps[..|steps| - 1])
  {
    var init := steps[..|steps| - 1];
    assert forall j | 0 <= j < |init| :: init[j] == steps[j];
  }

  lemma StartIsKept(steps: seq<Step>)
    requires ProperRun(steps) && steps != [] && steps[|steps| - 1].Start?
    ensures KeptAt(steps, |steps| - 1, |Run(steps[..|steps| - 1]).rules|)
  {
    assert Proper(steps[|steps| - 1]);
  }

  lemma KeptStep(steps: seq<Step>, k: nat, i: nat)
    requires k < |steps| - 1 && steps[k].Start? && steps[..|steps| - 1][k] == steps[k]
    requires RulesOk(Run(steps[..|steps| - 1])) && KeptAt(steps[..|steps| - 1], k, i)
    ensures KeptAt(steps, k, i)
  {
    StepEnds(Run(steps[..|steps| - 1]), steps[|steps| - 1], i);
    EndedSinceStep(steps, k);
  }

  lemma {:induction false} StartedIsKept(steps: seq<Step>, k: nat) returns (i: nat)
    requires ProperRun(steps) && k < |steps| && steps[k].Start?
    ensures KeptAt(steps, k, i)
  {
    var init := steps[..|steps| - 1];
    if k == |steps| - 1 {
      StartIsKept(steps);
      i := |Run(init).rules|;
    } else {
      ProperInit(steps);
      i := StartedIsKept(init, k);
      RunAccounted(init);
      KeptStep(steps, k, i);
    }
  }

  /** After any run a started rule is in the table under its id alone, and is active iff
      since its start it was not stopped, nor all rules, and no sweep came once its
      duration had elapsed. */
  lemma RunActive(steps: seq<Step>, k: nat)
    requires ProperRun(steps) && k < |steps| && steps[k].Start?
    ensures var (rules, r) := (Run(steps).rules, steps[k].rule.(active := !EndedSince(steps, k)));
            r in rules && forall s | s in rules && s.id == r.id :: s == r
  {
    var i := StartedIsKept(steps, k);
    RunAccounted(steps);
    var rules := Run(steps).rules;
    forall s | s in rules && s.id == rules[i].id ensures s == rules[i] {
      var j :| 0 <= j < |rules| && rules[j] == s;
    }
  }

  /** An artifact belongs to one rule only. */
  lemma ArtifactOfOne(r: SelectiveRule, s: SelectiveRule, a: Artifact)
    requires RuleId(r.id) && RuleId(s.id) && a in RuleArtifacts(r) && a in RuleArtifacts(s)
    ensures r.id == s.id
  {
    var x := ArtifactForm(r, a);
    var y := ArtifactForm(s, a);
    SelMatchesOwn(a.kind, s.id, r.id, x);
    SelMatchesOwn(a.kind, s.id, s.id, y);
  }

  /** So the firewall rules of a block are on the system exactly from its start until it
      is ended, whatever the other features do. */
  lemma FirewallLifetime(steps: seq<Step>, k: nat, a: Artifact)
    requires ProperRun(steps) && k < |steps| && steps[k].Start?
    requires a in RuleArtifacts(steps[k].rule) && a.kind == FirewallRule
    ensures a in Run(steps).os <==> !EndedSince(steps, k)
  {
    var w, r := Run(steps), steps[k].rule;
    var _ := ArtifactForm(r, a);
    FirewallExact(steps, a);
    RunActive(steps, k);
    RunAccounted(steps);
    if OfActiveRule(w, a) {
      var i :| 0 <= i < |w.rules| && w.rules[i].active && a in RuleArtifacts(w.rules[i]);
      ArtifactOfOne(w.rules[i], r, a);
      assert w.rules[i] in w.rules;
    }
  }

  // ----- what a rule creates -----

  function PolicyOfAddress(r: SelectiveRule, i: nat): Artifact {
    Artifact(QosPolicy, "PW_SelQ_" + r.id + "_" + Decimal(i))
  }

  /** The names a rule creates: for a block two firewall rules if it has an IPv4 address
      and one if it has an IPv6 address, for a throttle one policy for each address. */
  lemma ArtifactsOf(r: SelectiveRule, a: Artifact)
    ensures r.mode == Block ==>
              (a in RuleArtifacts(r) <==>
                && a.kind == FirewallRule
                && ((a.name in {"PW_Sel_" + r.id + "_" + "TCP4", "PW_Sel_" + r.id + "_" + "UDP4"}
                     && exists ip :: ip in r.ips && ':' !in ip)
                    || (a.name == "PW_Sel_" + r.id + "_" + "TCP6" && exists ip :: ip in r.ips && ':' in ip)))
    ensures r.mode == Throttle ==>
              (a in RuleArtifacts(r) <==> exists i :: 0 <= i < |r.ips| && a == PolicyOfAddress(r, i))
  {
    if r.mode == Block {
      assert (exists ip :: ip in r.ips && !IsV6(ip)) <==> (exists ip :: ip in r.ips && ':' !in ip);
      assert (exists ip :: ip in r.ips && IsV6(ip)) <==> (exists ip :: ip in r.ips && ':' in ip);
    } else {
      if i :| 0 <= i < |r.ips| && a == Artifact(QosPolicy, SelName(QosPolicy, r.id, Decimal(i))) {
        assert a == PolicyOfAddress(r, i);
      }
      if i :| 0 <= i < |r.ips| && a == PolicyOfAddress(r, i) {
        assert a == Artifact(QosPolicy, SelName(QosPolicy, r.id, Decimal(i)));
      }
    }
  }

  /** A throttle stays listed as active after a priority switch has taken its
      policies off the system. */
  lemma SwitchStripsThrottle(r: SelectiveRule)
    requires Proper(Start(r)) && r.mode == Throttle
    ensures var w := Run([Start(r), SwitchPriorities({})]);
            w.rules == [r] && r.active && (forall a | a in RuleArtifacts(r) :: a !in w.os)
            && RuleArtifacts(r) != {}
  {
    var steps := [Start(r), SwitchPriorities({})];
    assert steps[..1] == [Start(r)];
    assert steps[..1][..0] == [];
    assert Run([Start(r)]) == Started(World(true, [], {}), r);
    forall a | a in RuleArtifacts(r) ensures a !in Run(steps).os {
      var _ := ArtifactForm(r, a);
    }
    assert Artifact(QosPolicy, SelName(QosPolicy, r.id, Decimal(0))) in RuleArtifacts(r);
  }
}
