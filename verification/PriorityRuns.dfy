/** Per-user priority settings over the one shared enforcer
    (server/app_qos/priority_manager.py): what is in force after any run. */
module PriorityRuns {
  import opened Text
  import opened Allocation
  import opened Quality
  import opened OsRules
  import opened BandwidthEnforcer

  predicate KnownClass(c: string) {
    c == "CRITICAL" || c == "HIGH" || c == "NORMAL" || c == "LOW" || c == "BLOCKED"
  }

  predicate Acceptable(sigs: AppSignatures, priorities: Priorities) {
    forall i | 0 <= i < |priorities| :: priorities[i].0 in sigs && KnownClass(priorities[i].1)
  }

  /** Settings are accepted iff every app in them is known and every class is one of the
      five. */
  lemma AcceptableIff(sigs: AppSignatures, priorities: Priorities)
    ensures Acceptable(sigs, priorities) <==>
            forall x | x in priorities :: x.0 in sigs && x.1 in {"CRITICAL", "HIGH", "NORMAL", "LOW", "BLOCKED"}
  {
    forall i | 0 <= i < |priorities| ensures priorities[i] in priorities {
    }
  }

  function WithoutApp(priorities: Priorities, app: string): (rest: Priorities)
    ensures forall x :: x in rest <==> x in priorities && x.0 != app
  {
    if priorities == [] then []
    else (if priorities[0].0 == app then [] else [priorities[0]]) + WithoutApp(priorities[1..], app)
  }

  /** The settings of all users, what is in force, and the rules on the system. */
  datatype Managed = Managed(users: map<string, Priorities>, inForce: seq<AppAllocation>, os: Artifacts)

  datatype Step =
    | Set(user: string, priorities: Priorities, total: Option<real>)
    | RemoveApp(user: string, app: string)
    | Reset(user: string)

  function SettingsIn(users: map<string, Priorities>, user: string): Priorities {
    if user in users then users[user] else []
  }

  function Enforced(sigs: AppSignatures, mode: EnforcerMode, m: Managed, users: map<string, Priorities>,
                    allocations: seq<AppAllocation>): Managed {
    Managed(users, allocations, SwitchedOs(m.os, mode, sigs, allocations))
  }

  function Apply(sigs: AppSignatures, mode: EnforcerMode, m: Managed, step: Step): Managed {
    match step
    case Set(user, priorities, total) =>
      if !Acceptable(sigs, priorities) then m
      else Enforced(sigs, mode, m, m.users[user := priorities],
                    Allocations(Tiers(sigs), priorities, LinkMbps(total), mode != Simulate))
    case RemoveApp(user, app) =>
      var rest := WithoutApp(SettingsIn(m.users, user), app);
      Enforced(sigs, mode, m, m.users[user := rest],
               Allocations(Tiers(sigs), rest, TOTAL_LINK_MBPS, mode != Simulate))
    case Reset(user) => Enforced(sigs, mode, m, m.users - {user}, [])
  }

  function Run(sigs: AppSignatures, mode: EnforcerMode, steps: seq<Step>): Managed {
    if steps == [] then Managed(map[], [], {})
    else Apply(sigs, mode, Run(sigs, mode, steps[..|steps| - 1]), steps[|steps| - 1])
  }

  /** Settings for one app are allocated on the link the user states, on 100 Mbps if none
      is stated. */
  lemma SetAlone(sigs: AppSignatures, mode: EnforcerMode, m: Managed, user: string, app: string, total: Option<real>)
    requires app in sigs
    ensures var given := Apply(sigs, mode, m, Set(user, [(app, "CRITICAL")], total)).inForce;
            && |given| == 1 && given[0].appId == app && (given[0].enforced <==> mode != Simulate)
            && (total.Some? && total.value != 0.0 ==> given[0].allocatedMbps == Round2(0.9 * total.value))
            && (total.None? ==> given[0].allocatedMbps == 90.0)
  {
    AloneOnLink(Tiers(sigs), app, "CRITICAL", LinkMbps(total), mode != Simulate);
    LinkMbpsIs(total);
    assert Round2(0.9 * 100.0) == 90.0;
  }

  /** Removing an app forgets a stated link: what is left is allocated on 100 Mbps, even if
      the app was not set at all. */
  lemma RemovalForgetsLink(sigs: AppSignatures, mode: EnforcerMode, m: Managed, user: string, app: string)
    requires forall x | x in SettingsIn(m.users, user) :: x.0 != app
    ensures var after := Apply(sigs, mode, m, RemoveApp(user, app));
            && SettingsIn(after.users, user) == SettingsIn(m.users, user)
            && after.inForce == Allocations(Tiers(sigs), SettingsIn(m.users, user), 100.0, mode != Simulate)
  {
    NothingWithout(SettingsIn(m.users, user), app);
  }

  lemma {:induction false} NothingWithout(priorities: Priorities, app: string)
    requires forall x | x in priorities :: x.0 != app
    ensures WithoutApp(priorities, app) == priorities
  {
    if priorities != [] {
      assert priorities[0] in priorities;
      NothingWithout(priorities[1..], app);
      assert priorities == [priorities[0]] + priorities[1..];
    }
  }

  // ----- the account of one user -----

  /** Everything but settings with an unknown app or class takes effect. */
  predicate Effective(sigs: AppSignatures, step: Step) {
    step.Set? ==> Acceptable(sigs, step.priorities)
  }

  /** A user's settings after a step, whoever takes it. */
  function Own(sigs: AppSignatures, before: Priorities, step: Step, user: string): Priorities {
    if step.user != user || !Effective(sigs, step) then before
    else match step
      case Set(_, priorities, _) => priorities
      case RemoveApp(_, app) => WithoutApp(before, app)
      case Reset(_) => []
  }

  /** What a user's own operations amount to, whatever the others do. */
  function SettingsOf(sigs: AppSignatures, steps: seq<Step>, user: string): Priorities {
    if steps == [] then []
    else Own(sigs, SettingsOf(sigs, steps[..|steps| - 1], user), steps[|steps| - 1], user)
  }

  /** What step k puts in force. */
  function Puts(sigs: AppSignatures, mode: EnforcerMode, steps: seq<Step>, k: nat): seq<AppAllocation>
    requires k < |steps|
  {
    match steps[k]
    case Set(_, priorities, total) => Allocations(Tiers(sigs), priorities, LinkMbps(total), mode != Simulate)
    case RemoveApp(user, _) =>
      Allocations(Tiers(sigs), SettingsOf(sigs, steps[..k + 1], user), TOTAL_LINK_MBPS, mode != Simulate)
    case Reset(_) => []
  }

  ghost predicate LastEffective(sigs: AppSignatures, steps: seq<Step>, k: int) {
    && 0 <= k < |steps| && Effective(sigs, steps[k])
    && forall j | k < j < |steps| :: !Effective(sigs, steps[j])
  }

  ghost predicate NoneEffective(sigs: AppSignatures, steps: seq<Step>) {
    forall j | 0 <= j < |steps| :: !Effective(sigs, steps[j])
  }

  lemma StepSettings(sigs: AppSignatures, mode: EnforcerMode, m: Managed, step: Step, user: string)
    ensures SettingsIn(Apply(sigs, mode, m, step).users, user) == Own(sigs, SettingsIn(m.users, user), step, user)
  {
  }

  lemma {:induction false} RunSettings(sigs: AppSignatures, mode: EnforcerMode, steps: seq<Step>, user: string)
    ensures SettingsIn(Run(sigs, mode, steps).users, user) == SettingsOf(sigs, steps, user)
  {
    if steps != [] {
      var init, last := steps[..|steps| - 1], steps[|steps| - 1];
      RunSettings(sigs, mode, init, user);
      StepSettings(sigs, mode, Run(sigs, mode, init), last, user);
    }
  }

  lemma StepPuts(sigs: AppSignatures, mode: EnforcerMode, steps: seq<Step>)
    requires steps != [] && Effective(sigs, steps[|steps| - 1])
    ensures Run(sigs, mode, steps).inForce == Puts(sigs, mode, steps, |steps| - 1)
  {
    var n := |steps| - 1;
    assert steps[..n + 1] == steps;
    if steps[n].RemoveApp? {
      RunSettings(sigs, mode, steps[..n], steps[n].user);
    }
  }

  lemma LastEffectiveBefore(sigs: AppSignatures, mode: EnforcerMode, steps: seq<Step>, k: nat)
    requires LastEffective(sigs, steps, k) && k < |steps| - 1
    ensures LastEffective(sigs, steps[..|steps| - 1], k)
    ensures Puts(sigs, mode, steps[..|steps| - 1], k) == Puts(sigs, mode, steps, k)
  {
    var init := steps[..|steps| - 1];
    assert forall j | 0 <= j < |init| :: init[j] == steps[j];
    assert init[..k + 1] == steps[..k + 1];
  }

  lemma IneffectiveStep(sigs: AppSignatures, mode: EnforcerMode, steps: seq<Step>)
    requires steps != [] && !Effective(sigs, steps[|steps| - 1])
    ensures Run(sigs, mode, steps) == Run(sigs, mode, steps[..|steps| - 1])
  {
  }

  lemma {:induction false} LastEffectivePuts(sigs: AppSignatures, mode: EnforcerMode, steps: seq<Step>, k: nat)
    requires LastEffective(sigs, steps, k)
    ensures Run(sigs, mode, steps).inForce == Puts(sigs, mode, steps, k)
  {
    if k == |steps| - 1 {
      StepPuts(sigs, mode, steps);
    } else {
      LastEffectiveBefore(sigs, mode, steps, k);
      LastEffectivePuts(sigs, mode, steps[..|steps| - 1], k);
      IneffectiveStep(sigs, mode, steps);
    }
  }

  lemma {:induction false} NothingPut(sigs: AppSignatures, mode: EnforcerMode, steps: seq<Step>)
    requires NoneEffective(sigs, steps)
    ensures Run(sigs, mode, steps).inForce == []
  {
    if steps != [] {
      NothingPut(sigs, mode, steps[..|steps| - 1]);
      IneffectiveStep(sigs, mode, steps);
    }
  }

  /** What is in force after any run is what the last effective operation put in force,
      whichever user made it; every user's settings stay what that user made them. */
  lemma RunInForce(sigs: AppSignatures, mode: EnforcerMode, steps: seq<Step>)
    ensures NoneEffective(sigs, steps) ==> Run(sigs, mode, steps).inForce == []
    ensures forall k | LastEffective(sigs, steps, k) ::
              Run(sigs, mode, steps).inForce == Puts(sigs, mode, steps, k)
    ensures forall user :: SettingsIn(Run(sigs, mode, steps).users, user) == SettingsOf(sigs, steps, user)
  {
    if NoneEffective(sigs, steps) {
      NothingPut(sigs, mode, steps);
    }
    forall k | LastEffective(sigs, steps, k) ensures Run(sigs, mode, steps).inForce == Puts(sigs, mode, steps, k) {
      LastEffectivePuts(sigs, mode, steps, k);
    }
    forall user ensures SettingsIn(Run(sigs, mode, steps).users, user) == SettingsOf(sigs, steps, user) {
      RunSettings(sigs, mode, steps, user);
    }
  }

  lemma {:induction false} CreatedAreSwitch(sigs: AppSignatures, allocations: seq<AppAllocation>)
    ensures forall a | a in Created(sigs, allocations) :: Matches(a, QosPolicy, "PW_")
  {
    if allocations != [] {
      CreatedAreSwitch(sigs, allocations[..|allocations| - 1]);
      var app := allocations[|allocations| - 1].appId;
      if app in sigs {
        forall a | a in AppArtifacts(app, sigs[app]) ensures Matches(a, QosPolicy, "PW_") {
          var suffix := AppSuffix(app, sigs[app], a);
          assert SwitchName(app, suffix) == "PW_" + (app + "_" + suffix);
          LikeSelf("PW_", app + "_" + suffix);
        }
      }
    }
  }

  /** What the switch keeps on a system that it alone touches. */
  function PoliciesOf(sigs: AppSignatures, mode: EnforcerMode, allocations: seq<AppAllocation>): Artifacts {
    if mode.Powershell? then Created(sigs, allocations) else {}
  }

  lemma SwitchedPolicies(sigs: AppSignatures, mode: EnforcerMode, before: seq<AppAllocation>,
                         after: seq<AppAllocation>)
    ensures SwitchedOs(PoliciesOf(sigs, mode, before), mode, sigs, after) == PoliciesOf(sigs, mode, after)
  {
    CreatedAreSwitch(sigs, before);
    assert Without(Created(sigs, before), QosPolicy, "PW_") == {};
  }

  lemma StepPolicies(sigs: AppSignatures, mode: EnforcerMode, m: Managed, step: Step)
    requires m.os == PoliciesOf(sigs, mode, m.inForce)
    ensures var v := Apply(sigs, mode, m, step); v.os == PoliciesOf(sigs, mode, v.inForce)
  {
    SwitchedPolicies(sigs, mode, m.inForce, Apply(sigs, mode, m, step).inForce);
  }

  /** The policies of the switch on the system are always those in force, in the one
      mode that creates any. */
  lemma {:induction false} RunPolicies(sigs: AppSignatures, mode: EnforcerMode, steps: seq<Step>)
    ensures Run(sigs, mode, steps).os == PoliciesOf(sigs, mode, Run(sigs, mode, steps).inForce)
  {
    if steps != [] {
      var init := steps[..|steps| - 1];
      RunPolicies(sigs, mode, init);
      StepPolicies(sigs, mode, Run(sigs, mode, init), steps[|steps| - 1]);
    }
  }
}
