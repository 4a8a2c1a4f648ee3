/** Runs of the traffic shaper of server/traffic_shaper.py among the other features:
    which of its rules are on the system, and what the policy list is worth. */
module ShaperRuns {
  import opened Text
  import opened OsRules
  import opened ShaperRules

  /** live is false when ENFORCER_MODE=simulate: nothing reaches the system. */
  datatype World = World(live: bool, counter: nat, policies: seq<TrafficPolicy>, os: Artifacts)

  datatype Step =
    | Throttle(app: string, id: string, createdBy: string, kbps: int,
               profile: AppProfile, resolved: nat, resolvedAgain: nat)
    | Prioritize(app: string, id: string, createdBy: string)
    | Remove(id: string)
    | RemoveAll
    | SwitchPriorities(created: Artifacts)              // the App Priority Switch re-applies or clears
    | Selective(gone: Artifacts, made: Artifacts)       // the selective degrader removes and creates

  /** The rules a throttle creates under this number. */
  function Made(step: Step, n: nat): Artifacts
    requires step.Throttle?
  {
    ThrottleArtifacts(ShaperName(step.app, n), step.profile, step.resolved, step.resolvedAgain, step.kbps)
  }

  function AllStopped(policies: seq<TrafficPolicy>): seq<TrafficPolicy> {
    seq(|policies|, i requires 0 <= i < |policies| => policies[i].(active := false))
  }

  function Apply(w: World, step: Step): World {
    match step
    case Throttle(app, id, createdBy, kbps, _, _, _) =>
      var n := w.counter + 1;
      var p := TrafficPolicy(id, app, ThrottleAction, kbps, createdBy, ShaperName(app, n), true);
      World(w.live, n, Appended(w.policies, p), if w.live then w.os + Made(step, n) else w.os)
    case Prioritize(app, id, createdBy) =>
      var n := w.counter + 1;
      var p := TrafficPolicy(id, app, PrioritizeAction, 0, createdBy, PriorityName(app, n), true);
      World(w.live, n, Appended(AppStopped(w.policies, app), p),
            if w.live then AppCleared(w.policies, app, w.os) else w.os)
    case Remove(id) =>
      var i := IndexOfActive(w.policies, id);
      if i == |w.policies| then w
      else w.(policies := w.policies[i := w.policies[i].(active := false)],
              os := if w.live then WithoutPattern(w.os, w.policies[i].qosPolicyName) else w.os)
    case RemoveAll =>
      w.(policies := AllStopped(w.policies), os := if w.live then WithoutPattern(w.os, "PathWise-") else w.os)
    case SwitchPriorities(created) => w.(os := if w.live then Without(w.os, QosPolicy, "PW_") + created else w.os)
    case Selective(gone, made) => w.(os := if w.live then (w.os - gone) + made else w.os)
  }

  function Run(steps: seq<Step>): World {
    if steps == [] then World(true, 0, [], {}) else Apply(Run(steps[..|steps| - 1]), steps[|steps| - 1])
  }

  /** Apps are registry keys; the other features touch their own names only. */
  ghost predicate Proper(step: Step) {
    match step
    case Throttle(app, _, _, _, _, _, _) => AppKey(app)
    case Prioritize(app, _, _) => AppKey(app)
    case SwitchPriorities(created) => forall a | a in created :: Like(a.name, "PW_")
    case Selective(gone, made) => forall a | a in gone + made :: Like(a.name, "PW_")
    case _ => true
  }

  ghost predicate ProperRun(steps: seq<Step>) {
    forall i | 0 <= i < |steps| :: Proper(steps[i])
  }

  // ----- the policy list -----

  /** Numbers are drawn one by one, so the list holds the latest ones in order. */
  function Number(w: World, i: int): int {
    w.counter - |w.policies| + 1 + i
  }

  predicate Named(p: TrafficPolicy, n: nat) {
    && AppKey(p.appName)
    && p.qosPolicyName == if p.action == ThrottleAction then ShaperName(p.appName, n) else PriorityName(p.appName, n)
  }

  ghost predicate ListOk(w: World) {
    && |w.policies| <= MAX_POLICIES && |w.policies| <= w.counter
    && (|w.policies| < w.counter ==> |w.policies| == MAX_POLICIES)
    && forall i | 0 <= i < |w.policies| :: Named(w.policies[i], Number(w, i))
  }

  /** The list with some policies deactivated. */
  ghost predicate SomeStopped(before: seq<TrafficPolicy>, after: seq<TrafficPolicy>) {
    && |after| == |before|
    && forall i | 0 <= i < |after| :: after[i] == before[i] || after[i] == before[i].(active := false)
  }

  lemma StoppedListOk(w: World, v: World)
    requires ListOk(w) && v.counter == w.counter && SomeStopped(w.policies, v.policies)
    ensures ListOk(v)
  {
    forall i | 0 <= i < |v.policies| ensures Named(v.policies[i], Number(v, i)) {
      assert Named(w.policies[i], Number(w, i));
    }
  }

  /** Where a policy of the grown list was before: one place further when the list was
      full. The number is the same. */
  lemma OldPlace(w: World, v: World, p: TrafficPolicy, i: nat) returns (j: nat)
    requires v.counter == w.counter + 1 && v.policies == Appended(w.policies, p) && |w.policies| <= MAX_POLICIES
    requires i < |v.policies| - 1
    ensures j < |w.policies| && v.policies[i] == w.policies[j] && Number(v, i) == Number(w, j)
  {
    j := if |v.policies| == |w.policies| then i + 1 else i;
  }

  lemma AppendedListOk(w: World, v: World, p: TrafficPolicy)
    requires ListOk(w) && v.counter == w.counter + 1 && v.policies == Appended(w.policies, p) && Named(p, v.counter)
    ensures ListOk(v)
  {
    forall i | 0 <= i < |v.policies| ensures Named(v.policies[i], Number(v, i)) {
      if i < |v.policies| - 1 {
        var j := OldPlace(w, v, p, i);
        assert Named(w.policies[j], Number(w, j));
      }
    }
  }

  lemma PrioritizeListOk(w: World, step: Step)
    requires ListOk(w) && Proper(step) && step.Prioritize?
    ensures ListOk(Apply(w, step))
  {
    var v, u := Apply(w, step), w.(policies := AppStopped(w.policies, step.app));
    StoppedListOk(w, u);
    AppendedListOk(u, v, v.policies[|v.policies| - 1]);
  }

  lemma ThrottleListOk(w: World, step: Step)
    requires ListOk(w) && Proper(step) && step.Throttle?
    ensures ListOk(Apply(w, step))
  {
    var v := Apply(w, step);
    AppendedListOk(w, v, v.policies[|v.policies| - 1]);
  }

  /** The other steps deactivate policies at most. */
  lemma OthersStop(w: World, step: Step)
    requires !step.Throttle? && !step.Prioritize?
    ensures var v := Apply(w, step); v.counter == w.counter && SomeStopped(w.policies, v.policies)
  {
  }

  lemma StepListOk(w: World, step: Step)
    requires ListOk(w) && Proper(step)
    ensures ListOk(Apply(w, step))
  {
    match step
    case Throttle(_, _, _, _, _, _, _) => ThrottleListOk(w, step);
    case Prioritize(_, _, _) => PrioritizeListOk(w, step);
    case _ =>
      OthersStop(w, step);
      StoppedListOk(w, Apply(w, step));
  }

  /** Index of policy n in the list. */
  function IndexOf(w: World, n: int): int {
    n - (w.counter - |w.policies|) - 1
  }

  /** Place i of the list holds an active throttle of the app. */
  predicate ThrottleAt(w: World, i: int, app: string) {
    && 0 <= i < |w.policies| && w.policies[i].active
    && w.policies[i].action == ThrottleAction && w.policies[i].appName == app
  }

  /** Policy n of the app is listed as an active throttle. */
  predicate ActiveThrottle(w: World, app: string, n: int) {
    ThrottleAt(w, IndexOf(w, n), app)
  }

  /** The policy has dropped out of the bounded list. */
  predicate Evicted(w: World, n: int) {
    1 <= n <= w.counter - |w.policies|
  }

  // ----- which rules are on the system -----

  /** A policy whose rules may still be there. */
  ghost predicate Kept(w: World, app: string, n: nat) {
    AppKey(app) && (ActiveThrottle(w, app, n) || Evicted(w, n))
  }

  /** Rule a belongs to policy k.1 of app k.0, which is active or dropped out. */
  ghost predicate KeptRule(w: World, a: Artifact, k: (string, nat)) {
    RuleOf(a, k.0, k.1) && Kept(w, k.0, k.1)
  }

  /** No rule outlives its policy, but by the policy's dropping out of the list. */
  ghost predicate NoOrphans(w: World) {
    forall a | a in w.os && Like(a.name, "PathWise-") :: exists k :: KeptRule(w, a, k)
  }

  lemma {:induction false} AppClearedIs(policies: seq<TrafficPolicy>, app: string, os: Artifacts)
    ensures forall a :: a in AppCleared(policies, app, os) <==>
              a in os && forall p | p in policies && p.appName == app && p.active :: !Like(a.name, p.qosPolicyName)
  {
    if policies != [] {
      var n := |policies| - 1;
      AppClearedIs(policies[..n], app, os);
      assert policies == policies[..n] + [policies[n]];
    }
  }

  /** An active policy whose pattern matches the rule. */
  ghost predicate Hits(w: World, other: string, a: Artifact, i: int) {
    0 <= i < |w.policies| && w.policies[i].appName == other && w.policies[i].active
    && Like(a.name, w.policies[i].qosPolicyName)
  }

  lemma ClearedUnlessHit(w: World, other: string, a: Artifact)
    ensures a in AppCleared(w.policies, other, w.os) <==> a in w.os && forall i :: !Hits(w, other, a, i)
  {
    AppClearedIs(w.policies, other, w.os);
    if p :| p in w.policies && p.appName == other && p.active && Like(a.name, p.qosPolicyName) {
      var i :| 0 <= i < |w.policies| && w.policies[i] == p;
      assert Hits(w, other, a, i);
    }
  }

  /** A throttle's own pattern matches all its rules. */
  lemma OwnPattern(a: Artifact, app: string, n: nat)
    requires RuleOf(a, app, n)
    ensures Like(a.name, ShaperName(app, n)) && Like(a.name, "PathWise-")
  {
    var suffix :| RuleNamed(a, app, n, suffix);
    LikeSelf(ShaperName(app, n), suffix);
    MatchedIsShaper(a.name, app, n);
  }

  /** A policy keeps its number when the list grows, or drops out of it. */
  lemma AppendKeeps(w: World, v: World, p: TrafficPolicy, app: string, n: nat)
    requires ListOk(w) && v.counter == w.counter + 1 && v.policies == Appended(w.policies, p)
    requires Kept(w, app, n)
    ensures Kept(v, app, n)
  {
    if !Evicted(w, n) {
      AppendListed(w, v, p, app, n);
    }
  }

  lemma AppendListed(w: World, v: World, p: TrafficPolicy, app: string, n: nat)
    requires |w.policies| <= w.counter && |w.policies| <= MAX_POLICIES
    requires v.counter == w.counter + 1 && v.policies == Appended(w.policies, p) && ActiveThrottle(w, app, n)
    ensures ActiveThrottle(v, app, n) || Evicted(v, n)
  {
    var i := IndexOf(w, n);
    if |w.policies| < MAX_POLICIES {
      assert IndexOf(v, n) == i && v.policies[i] == w.policies[i];
    } else if i > 0 {
      assert IndexOf(v, n) == i - 1 && v.policies[i - 1] == w.policies[i];
    }
  }

  lemma ThrottleNoOrphans(w: World, step: Step)
    requires ListOk(w) && NoOrphans(w) && step.Throttle? && Proper(step)
    ensures NoOrphans(Apply(w, step))
  {
    var v, n := Apply(w, step), w.counter + 1;
    ThrottleCreatesOwn(step.app, n, step.profile, step.resolved, step.resolvedAgain, step.kbps);
    forall a | a in v.os && Like(a.name, "PathWise-") ensures exists k :: KeptRule(v, a, k) {
      if a in w.os {
        var k :| KeptRule(w, a, k);
        AppendKeeps(w, v, v.policies[|v.policies| - 1], k.0, k.1);
        assert KeptRule(v, a, k);
      } else {
        assert ActiveThrottle(v, step.app, n);
        assert KeptRule(v, a, (step.app, n));
      }
    }
  }

  lemma ThrottleNamed(w: World, app: string, n: nat)
    requires ListOk(w) && ActiveThrottle(w, app, n)
    ensures w.policies[IndexOf(w, n)].qosPolicyName == ShaperName(app, n)
  {
    var i := IndexOf(w, n);
    assert Number(w, i) == n;
    assert Named(w.policies[i], Number(w, i));
  }

  /** An active throttle's pattern matches its rules. */
  lemma OwnHit(w: World, app: string, a: Artifact, n: nat)
    requires ListOk(w) && RuleOf(a, app, n) && ActiveThrottle(w, app, n)
    ensures Hits(w, app, a, IndexOf(w, n))
  {
    ThrottleNamed(w, app, n);
    OwnPattern(a, app, n);
  }

  /** A rule that prioritizing the app leaves was not one of an active policy of it. */
  lemma PrioritizeSpares(w: World, app: string, a: Artifact, n: nat)
    requires ListOk(w) && RuleOf(a, app, n) && ActiveThrottle(w, app, n)
    ensures a !in AppCleared(w.policies, app, w.os)
  {
    OwnHit(w, app, a, n);
    ClearedUnlessHit(w, app, a);
  }

  /** Nor is a rule that removing a policy leaves one of that policy. */
  lemma RemoveSpares(w: World, app: string, a: Artifact, n: nat)
    requires ListOk(w) && RuleOf(a, app, n) && ActiveThrottle(w, app, n)
    ensures a !in WithoutPattern(w.os, w.policies[IndexOf(w, n)].qosPolicyName)
  {
    OwnHit(w, app, a, n);
  }

  lemma StopKeeps(w: World, other: string, app: string, n: nat)
    requires Kept(w, app, n) && (app == other ==> Evicted(w, n))
    ensures Kept(w.(policies := AppStopped(w.policies, other)), app, n)
  {
  }

  lemma PrioritizeKeeps(w: World, step: Step, app: string, n: nat)
    requires ListOk(w) && step.Prioritize? && Kept(w, app, n)
    requires ActiveThrottle(w, app, n) ==> app != step.app
    ensures Kept(Apply(w, step), app, n)
  {
    var v, u := Apply(w, step), w.(policies := AppStopped(w.policies, step.app));
    StoppedListOk(w, u);
    StopKeeps(w, step.app, app, n);
    AppendKeeps(u, v, v.policies[|v.policies| - 1], app, n);
  }

  lemma PrioritizeNoOrphans(w: World, step: Step)
    requires ListOk(w) && NoOrphans(w) && step.Prioritize? && w.live
    ensures NoOrphans(Apply(w, step))
  {
    var v := Apply(w, step);
    forall a | a in v.os && Like(a.name, "PathWise-") ensures exists k :: KeptRule(v, a, k) {
      ClearedUnlessHit(w, step.app, a);
      var k :| KeptRule(w, a, k);
      if ActiveThrottle(w, k.0, k.1) && k.0 == step.app {
        PrioritizeSpares(w, step.app, a, k.1);
        assert false;
      }
      PrioritizeKeeps(w, step, k.0, k.1);
      assert KeptRule(v, a, k);
    }
  }

  lemma DeactivationKeeps(w: World, i: nat, app: string, n: nat)
    requires i < |w.policies| && Kept(w, app, n) && (Evicted(w, n) || IndexOf(w, n) != i)
    ensures Kept(w.(policies := w.policies[i := w.policies[i].(active := false)]), app, n)
  {
  }

  lemma RemoveKeeps(w: World, step: Step, app: string, n: nat)
    requires step.Remove? && Kept(w, app, n)
    requires ActiveThrottle(w, app, n) ==> IndexOf(w, n) != IndexOfActive(w.policies, step.id)
    ensures Kept(Apply(w, step), app, n)
  {
    var i := IndexOfActive(w.policies, step.id);
    if i < |w.policies| {
      DeactivationKeeps(w, i, app, n);
    }
  }

  lemma RemoveNoOrphans(w: World, step: Step)
    requires ListOk(w) && NoOrphans(w) && step.Remove? && w.live
    ensures NoOrphans(Apply(w, step))
  {
    var v := Apply(w, step);
    forall a | a in v.os && Like(a.name, "PathWise-") ensures exists k :: KeptRule(v, a, k) {
      assert a in w.os;
      var k :| KeptRule(w, a, k);
      if ActiveThrottle(w, k.0, k.1) && IndexOf(w, k.1) == IndexOfActive(w.policies, step.id) {
        RemoveSpares(w, k.0, a, k.1);
        assert false;
      }
      RemoveKeeps(w, step, k.0, k.1);
      assert KeptRule(v, a, k);
    }
  }

  lemma OtherNoOrphans(w: World, step: Step)
    requires NoOrphans(w) && Proper(step) && w.live
    requires step.RemoveAll? || step.SwitchPriorities? || step.Selective?
    ensures NoOrphans(Apply(w, step))
  {
    var v := Apply(w, step);
    forall a | a in v.os && Like(a.name, "PathWise-") ensures exists k :: KeptRule(v, a, k) {
      ShaperApart(a.name, a.name);
      var k :| KeptRule(w, a, k);
      assert KeptRule(v, a, k);
    }
  }

  /** The list holds the latest policies, up to a hundred. */
  lemma RunKeepsHundred(steps: seq<Step>)
    requires ProperRun(steps)
    ensures var w := Run(steps); |w.policies| == if w.counter < 100 then w.counter else 100
  {
    RunListOk(steps);
  }

  lemma {:induction false} RunListOk(steps: seq<Step>)
    requires ProperRun(steps)
    ensures Run(steps).live && ListOk(Run(steps))
  {
    if steps != [] {
      var n := |steps| - 1;
      RunListOk(steps[..n]);
      StepListOk(Run(steps[..n]), steps[n]);
    }
  }

  /** After every run, each PathWise rule on the system belongs to a listed active
      throttle or to a policy that has dropped out of the bounded list. */
  lemma {:induction false} RunNoOrphans(steps: seq<Step>)
    requires ProperRun(steps)
    ensures NoOrphans(Run(steps))
  {
    if steps != [] {
      var n := |steps| - 1;
      var w, step := Run(steps[..n]), steps[n];
      RunNoOrphans(steps[..n]);
      RunListOk(steps[..n]);
      match step {
        case Throttle(_, _, _, _, _, _, _) => ThrottleNoOrphans(w, step);
        case Prioritize(_, _, _) => PrioritizeNoOrphans(w, step);
        case Remove(_) => RemoveNoOrphans(w, step);
        case _ => OtherNoOrphans(w, step);
      }
    }
  }

  /** So removal by number is exact in every reachable state iff RemovalExactIff says so. */
  lemma RunNumbered(steps: seq<Step>)
    requires ProperRun(steps)
    ensures AllNumbered(Run(steps).os)
  {
    RunNoOrphans(steps);
    var w := Run(steps);
    forall a | a in w.os && Like(a.name, "PathWise-") ensures exists k :: Belongs(a, k) {
      var k :| KeptRule(w, a, k);
      assert Belongs(a, k);
    }
  }

  // ----- which rules every run leaves -----

  /** A prioritize policy's pattern matches no rule of a throttle: after the app, its
      names go on with a letter or a dash where theirs have a digit. */
  lemma PriorityMatchesNothing(app: string, m: nat, a: Artifact, other: string, n: nat)
    requires AppKey(app) && AppKey(other) && RuleOf(a, other, n)
    ensures !Like(a.name, PriorityName(app, m))
  {
    var suffix :| RuleNamed(a, other, n, suffix);
    var rest, tail := other + "-" + (Decimal(n) + suffix), app + "-" + (Decimal(m) + "");
    assert a.name == "PathWise-" + rest;
    assert PriorityName(app, m) == "PathWise-" + ("pri-" + tail);
    LikeSplit("PathWise-", "PathWise-", rest, "pri-" + tail);
    LowerConcat("pri-", tail);
    LowerFixed("pri-");
    LowerRest(app, m, "");
    LowerRest(other, n, suffix);
    assert "pri-" + tail == "pri" + "-" + tail;
    assert Lower("") == "";
    assert forall i | 0 <= i < |other| :: other[i] in other;
    DashCut("pri", other, tail, Decimal(n) + Lower(suffix));
    assert tail[0] == if app == "" then '-' else app[0];
    assert app != "" ==> app[0] in app;
    assert (Decimal(n) + Lower(suffix))[0] == Decimal(n)[0];
  }

  lemma PatternHits(p: TrafficPolicy, m: nat, a: Artifact, app: string, n: nat)
    requires Named(p, m) && AppKey(app) && RuleOf(a, app, n)
    ensures Like(a.name, p.qosPolicyName) <==> p.action == ThrottleAction && p.appName == app && Extends(n, m)
  {
    if p.action == ThrottleAction {
      var suffix :| RuleNamed(a, app, n, suffix);
      ShaperMatches(p.appName, m, app, n, suffix);
    } else {
      PriorityMatchesNothing(p.appName, m, a, app, n);
    }
  }

  /** n extends the number of the policy at place i. */
  ghost predicate ExtendsAt(w: World, i: int, n: nat) {
    Number(w, i) >= 0 && Extends(n, Number(w, i))
  }

  /** The step takes the rules of policy n of the app off the system: it removes a
      policy of that app whose number n extends. */
  ghost predicate Strips(w: World, step: Step, app: string, n: nat) {
    match step
    case Prioritize(other, _, _) => other == app && exists i :: ThrottleAt(w, i, app) && ExtendsAt(w, i, n)
    case Remove(id) => var i := IndexOfActive(w.policies, id); ThrottleAt(w, i, app) && ExtendsAt(w, i, n)
    case RemoveAll => true
    case _ => false
  }

  lemma HitIsThrottle(w: World, other: string, a: Artifact, i: int, app: string, n: nat)
    requires ListOk(w) && AppKey(app) && RuleOf(a, app, n)
    ensures Hits(w, other, a, i) <==> other == app && ThrottleAt(w, i, app) && ExtendsAt(w, i, n)
  {
    if 0 <= i < |w.policies| {
      assert Named(w.policies[i], Number(w, i));
      PatternHits(w.policies[i], Number(w, i), a, app, n);
    }
  }

  lemma RemoveStrips(w: World, step: Step, a: Artifact, app: string, n: nat)
    requires ListOk(w) && w.live && step.Remove? && AppKey(app) && RuleOf(a, app, n)
    ensures a in Apply(w, step).os <==> a in w.os && !Strips(w, step, app, n)
  {
    var i := IndexOfActive(w.policies, step.id);
    if i < |w.policies| {
      HitIsThrottle(w, w.policies[i].appName, a, i, app, n);
      assert Hits(w, w.policies[i].appName, a, i) <==> Like(a.name, w.policies[i].qosPolicyName);
    }
  }

  lemma PrioritizeStrips(w: World, step: Step, a: Artifact, app: string, n: nat)
    requires ListOk(w) && w.live && step.Prioritize? && AppKey(app) && RuleOf(a, app, n)
    ensures a in Apply(w, step).os <==> a in w.os && !Strips(w, step, app, n)
  {
    ClearedUnlessHit(w, step.app, a);
    forall i ensures Hits(w, step.app, a, i) <==> step.app == app && ThrottleAt(w, i, app) && ExtendsAt(w, i, n) {
      HitIsThrottle(w, step.app, a, i, app, n);
    }
  }

  predicate Creates(w: World, step: Step, a: Artifact) {
    step.Throttle? && a in Made(step, w.counter + 1)
  }

  lemma StepExact(w: World, step: Step, a: Artifact, app: string, n: nat)
    requires ListOk(w) && w.live && Proper(step) && AppKey(app) && RuleOf(a, app, n)
    ensures a in Apply(w, step).os <==> Creates(w, step, a) || (a in w.os && !Strips(w, step, app, n))
  {
    OwnPattern(a, app, n);
    ShaperApart(a.name, a.name);
    match step
    case Remove(_) => RemoveStrips(w, step, a, app, n);
    case Prioritize(_, _, _) => PrioritizeStrips(w, step, a, app, n);
    case _ =>
  }

  /** The worlds the steps of a run find. */
  function Worlds(steps: seq<Step>): (ws: seq<World>)
    ensures |ws| == |steps|
  {
    seq(|steps|, i requires 0 <= i < |steps| => Run(steps[..i]))
  }

  /** Step k created the rule, and none since has stripped its policy. */
  ghost predicate StandsSince(ws: seq<World>, steps: seq<Step>, a: Artifact, app: string, n: nat, k: int) {
    && 0 <= k < |steps| == |ws| && Creates(ws[k], steps[k], a)
    && forall j | k < j < |steps| :: !Strips(ws[j], steps[j], app, n)
  }

  ghost predicate Stands(ws: seq<World>, steps: seq<Step>, a: Artifact, app: string, n: nat) {
    exists k :: StandsSince(ws, steps, a, app, n, k)
  }

  lemma StandsStep(ws: seq<World>, steps: seq<Step>, w: World, step: Step, a: Artifact, app: string, n: nat)
    requires |ws| == |steps|
    ensures Stands(ws + [w], steps + [step], a, app, n) <==>
            Creates(w, step, a) || (Stands(ws, steps, a, app, n) && !Strips(w, step, app, n))
  {
    var last, ws', steps' := |steps|, ws + [w], steps + [step];
    assert ws'[last] == w && steps'[last] == step;
    if k :| StandsSince(ws', steps', a, app, n, k) {
      if k < last {
        forall j | k < j < last ensures !Strips(ws[j], steps[j], app, n) {
          assert !Strips(ws'[j], steps'[j], app, n);
        }
        assert StandsSince(ws, steps, a, app, n, k);
      }
    }
    if Creates(w, step, a) {
      assert StandsSince(ws', steps', a, app, n, last);
    }
    if k :| StandsSince(ws, steps, a, app, n, k) {
      if !Strips(w, step, app, n) {
        assert StandsSince(ws', steps', a, app, n, k);
      }
    }
  }

  lemma RunStepExact(steps: seq<Step>, a: Artifact, app: string, n: nat)
    requires steps != [] && ProperRun(steps) && AppKey(app) && RuleOf(a, app, n)
    ensures var (w, step) := (Run(steps[..|steps| - 1]), steps[|steps| - 1]);
            a in Run(steps).os <==> Creates(w, step, a) || (a in w.os && !Strips(w, step, app, n))
  {
    RunListOk(steps[..|steps| - 1]);
    StepExact(Run(steps[..|steps| - 1]), steps[|steps| - 1], a, app, n);
  }

  lemma LastWorld(steps: seq<Step>)
    requires steps != []
    ensures Worlds(steps) == Worlds(steps[..|steps| - 1]) + [Run(steps[..|steps| - 1])]
  {
    assert forall j | 0 <= j < |steps| - 1 :: steps[..|steps| - 1][..j] == steps[..j];
  }

  lemma StandsLast(steps: seq<Step>, a: Artifact, app: string, n: nat)
    requires steps != []
    ensures var (init, step) := (steps[..|steps| - 1], steps[|steps| - 1]);
            Stands(Worlds(steps), steps, a, app, n) <==>
            Creates(Run(init), step, a) || (Stands(Worlds(init), init, a, app, n) && !Strips(Run(init), step, app, n))
  {
    var init, step := steps[..|steps| - 1], steps[|steps| - 1];
    LastWorld(steps);
    assert steps == init + [step];
    StandsStep(Worlds(init), init, Run(init), step, a, app, n);
  }

  /** After every run, a rule of policy n of an app is on the system iff it has been
      created and since then neither everything nor an active policy of that app whose
      number n extends has been removed, whatever the other features did meanwhile. */
  lemma {:induction false} RunExact(steps: seq<Step>, a: Artifact, app: string, n: nat)
    requires ProperRun(steps) && AppKey(app) && RuleOf(a, app, n)
    ensures a in Run(steps).os <==> Stands(Worlds(steps), steps, a, app, n)
  {
    if steps != [] {
      RunExact(steps[..|steps| - 1], a, app, n);
      RunStepExact(steps, a, app, n);
      StandsLast(steps, a, app, n);
    }
  }

  // ----- what the listing is worth -----

  /** The step removes what the list shows at policy n's place. */
  predicate RemovesNumber(w: World, step: Step, n: nat) {
    step.Remove? && IndexOfActive(w.policies, step.id) == IndexOf(w, n)
  }

  /** Policy n is listed as active, and the step leaves it alone. */
  predicate StaysListed(w: World, step: Step, app: string, n: nat) {
    && ActiveThrottle(w, app, n)
    && !RemovesNumber(w, step, n) && !step.RemoveAll? && (step.Prioritize? ==> step.app != app)
  }

  /** A policy listed as active was so before, and the step left it alone. */
  lemma ActiveBefore(w: World, step: Step, app: string, n: nat)
    requires |w.policies| <= w.counter && n <= w.counter && ActiveThrottle(Apply(w, step), app, n)
    ensures StaysListed(w, step, app, n)
  {
    var v, i := Apply(w, step), IndexOf(w, n);
    if step.Throttle? {
      assert v.policies[IndexOf(v, n)] == w.policies[i];
    } else if step.Prioritize? {
      assert v.policies[IndexOf(v, n)] == AppStopped(w.policies, step.app)[i];
    }
  }

  lemma RunActiveBefore(steps: seq<Step>, app: string, n: nat)
    requires ProperRun(steps) && steps != [] && ActiveThrottle(Run(steps), app, n)
    requires n <= Run(steps[..|steps| - 1]).counter
    ensures StaysListed(Run(steps[..|steps| - 1]), steps[|steps| - 1], app, n)
  {
    RunListOk(steps[..|steps| - 1]);
    ActiveBefore(Run(steps[..|steps| - 1]), steps[|steps| - 1], app, n);
  }

  lemma PrefixActiveBefore(steps: seq<Step>, app: string, n: nat, m: nat)
    requires ProperRun(steps) && 0 < m <= |steps| && ActiveThrottle(Run(steps[..m]), app, n)
    requires n <= Run(steps[..m - 1]).counter
    ensures StaysListed(Run(steps[..m - 1]), steps[m - 1], app, n)
  {
    assert steps[..m][..m - 1] == steps[..m - 1];
    RunActiveBefore(steps[..m], app, n);
  }

  lemma CounterBetween(steps: seq<Step>, j: nat, m: nat)
    requires j <= m <= |steps|
    ensures Run(steps[..j]).counter <= Run(steps[..m]).counter
  {
    assert steps[..m][..j] == steps[..j];
    CounterGrows(steps[..m], j);
  }

  lemma {:induction false} ActiveBack(ws: seq<World>, steps: seq<Step>, app: string, n: nat, j: nat, m: nat)
    requires |ws| == |steps| + 1 && j < m <= |steps| && ActiveThrottle(ws[m], app, n)
    requires forall i | j <= i < m && ActiveThrottle(ws[i + 1], app, n) :: StaysListed(ws[i], steps[i], app, n)
    ensures StaysListed(ws[j], steps[j], app, n)
    decreases m
  {
    assert ActiveThrottle(ws[m - 1 + 1], app, n);
    if j < m - 1 {
      ActiveBack(ws, steps, app, n, j, m - 1);
    }
  }

  /** Every world of a run, the last one included. */
  function AllWorlds(steps: seq<Step>): (ws: seq<World>)
    ensures |ws| == |steps| + 1
  {
    Worlds(steps) + [Run(steps)]
  }

  lemma WorldAt(steps: seq<Step>, i: nat)
    requires i <= |steps|
    ensures AllWorlds(steps)[i] == Run(steps[..i])
  {
    if i == |steps| {
      assert steps[..i] == steps;
    }
  }

  lemma ListedBefore(steps: seq<Step>, app: string, n: nat, i: nat)
    requires ProperRun(steps) && i < |steps| && n <= AllWorlds(steps)[i].counter
    requires ActiveThrottle(AllWorlds(steps)[i + 1], app, n)
    ensures StaysListed(AllWorlds(steps)[i], steps[i], app, n)
  {
    WorldAt(steps, i);
    WorldAt(steps, i + 1);
    PrefixActiveBefore(steps, app, n, i + 1);
  }

  lemma CountersRise(steps: seq<Step>, j: nat, i: nat)
    requires j <= i <= |steps|
    ensures AllWorlds(steps)[j].counter <= AllWorlds(steps)[i].counter
  {
    WorldAt(steps, j);
    WorldAt(steps, i);
    CounterBetween(steps, j, i);
  }

  /** So it was ever since it got its number. */
  lemma ListedSince(steps: seq<Step>, ws: seq<World>, app: string, n: nat, j: nat)
    requires ProperRun(steps) && ws == AllWorlds(steps) && j < |steps| && n <= ws[j].counter
    requires ActiveThrottle(ws[|steps|], app, n)
    ensures StaysListed(ws[j], steps[j], app, n)
  {
    forall i | j <= i < |steps| && ActiveThrottle(ws[i + 1], app, n) ensures StaysListed(ws[i], steps[i], app, n) {
      CountersRise(steps, j, i);
      ListedBefore(steps, app, n, i);
    }
    ActiveBack(ws, steps, app, n, j, |steps|);
  }

  lemma ActiveSince(steps: seq<Step>, app: string, n: nat, j: nat)
    requires ProperRun(steps) && ActiveThrottle(Run(steps), app, n)
    requires j < |steps| && n <= Run(steps[..j]).counter
    ensures StaysListed(Run(steps[..j]), steps[j], app, n)
  {
    WorldAt(steps, j);
    ListedSince(steps, AllWorlds(steps), app, n, j);
  }

  lemma StepCounter(w: World, step: Step)
    ensures Apply(w, step).counter == if step.Throttle? || step.Prioritize? then w.counter + 1 else w.counter
  {
  }

  lemma {:induction false} CounterGrows(steps: seq<Step>, j: nat)
    requires j <= |steps|
    ensures Run(steps[..j]).counter <= Run(steps).counter
    ensures j < |steps| && steps[j].Throttle? ==> Run(steps[..j]).counter < Run(steps).counter
  {
    if j == |steps| {
      assert steps[..j] == steps;
    } else {
      var init := steps[..|steps| - 1];
      assert init[..j] == steps[..j];
      StepCounter(Run(init), steps[|steps| - 1]);
      CounterGrows(init, j);
    }
  }

  lemma CreatesItsNumber(w: World, step: Step, a: Artifact, app: string, n: nat)
    requires Proper(step) && AppKey(app) && RuleOf(a, app, n) && Creates(w, step, a)
    ensures step.app == app && n == w.counter + 1
  {
    ThrottleCreatesOwn(step.app, w.counter + 1, step.profile, step.resolved, step.resolvedAgain, step.kbps);
    RuleOfOne(a, app, n, step.app, w.counter + 1);
  }

  lemma CreatedOnce(steps: seq<Step>, a: Artifact, app: string, n: nat, k: nat, l: nat)
    requires ProperRun(steps) && AppKey(app) && RuleOf(a, app, n) && k < l < |steps|
    requires Creates(Run(steps[..k]), steps[k], a)
    ensures !Creates(Run(steps[..l]), steps[l], a)
  {
    CreatesItsNumber(Run(steps[..k]), steps[k], a, app, n);
    assert steps[..l][..k] == steps[..k];
    CounterGrows(steps[..l], k);
    if Creates(Run(steps[..l]), steps[l], a) {
      CreatesItsNumber(Run(steps[..l]), steps[l], a, app, n);
    }
  }

  /** The step removes another policy of the app, whose number n extends. */
  ghost predicate StripsByName(w: World, step: Step, app: string, n: nat) {
    step.Remove? && Strips(w, step, app, n) && !RemovesNumber(w, step, n)
  }

  /** Since its creation an active policy has been stripped by name only. */
  lemma StrippedByName(steps: seq<Step>, a: Artifact, app: string, n: nat, k: nat, j: nat)
    requires ProperRun(steps) && AppKey(app) && RuleOf(a, app, n) && k < j < |steps|
    requires Creates(Run(steps[..k]), steps[k], a) && ActiveThrottle(Run(steps), app, n)
    ensures Strips(Run(steps[..j]), steps[j], app, n) <==> StripsByName(Run(steps[..j]), steps[j], app, n)
  {
    NumberAfter(steps, a, app, n, k, j);
    ActiveSince(steps, app, n, j);
  }

  lemma OneCreation(steps: seq<Step>, a: Artifact, app: string, n: nat, k: nat, l: nat)
    requires ProperRun(steps) && AppKey(app) && RuleOf(a, app, n) && k < |steps| && l < |steps|
    requires Creates(Run(steps[..k]), steps[k], a) && Creates(Run(steps[..l]), steps[l], a)
    ensures k == l
  {
    if k < l {
      CreatedOnce(steps, a, app, n, k, l);
    } else if l < k {
      CreatedOnce(steps, a, app, n, l, k);
    }
  }

  /** A throttle listed as active still has a rule it created iff no other policy of
      its app has been removed whose number is a prefix of its own. */
  lemma ListedIffNotStripped(steps: seq<Step>, a: Artifact, app: string, n: nat, k: nat)
    requires ProperRun(steps) && AppKey(app) && RuleOf(a, app, n)
    requires k < |steps| && Creates(Run(steps[..k]), steps[k], a) && ActiveThrottle(Run(steps), app, n)
    ensures a in Run(steps).os <==> forall j | k < j < |steps| :: !StripsByName(Run(steps[..j]), steps[j], app, n)
  {
    var ws := Worlds(steps);
    RunExact(steps, a, app, n);
    forall j | k < j < |steps| ensures Strips(ws[j], steps[j], app, n) <==> StripsByName(ws[j], steps[j], app, n) {
      StrippedByName(steps, a, app, n, k, j);
    }
    if l :| StandsSince(ws, steps, a, app, n, l) {
      OneCreation(steps, a, app, n, k, l);
    }
    assert Stands(ws, steps, a, app, n) <==> StandsSince(ws, steps, a, app, n, k);
  }

  lemma NumberAfter(steps: seq<Step>, a: Artifact, app: string, n: nat, k: nat, j: nat)
    requires ProperRun(steps) && AppKey(app) && RuleOf(a, app, n) && k < j < |steps|
    requires Creates(Run(steps[..k]), steps[k], a)
    ensures n <= Run(steps[..j]).counter
  {
    CreatesItsNumber(Run(steps[..k]), steps[k], a, app, n);
    assert steps[..j][..k] == steps[..k];
    CounterGrows(steps[..j], k);
  }
}
