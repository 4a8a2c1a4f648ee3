/** The App Priority Switch: the enforcer of server/app_qos/bandwidth_enforcer.py, which
    replaces every policy named PW_* by those of the allocations in force. */
module BandwidthEnforcer {
  import opened Text
  import opened Quality
  import opened Allocation
  import opened OsRules

  /** What enforcement needs of an app signature: its tiers, how many address ranges
      it has (YouTube's extra ones included), and whether it lists a process. */
  datatype AppSignature = AppSignature(tiers: seq<QualityTier>, ranges: nat, hasProcess: bool)

  type AppSignatures = map<string, AppSignature>

  function Tiers(sigs: AppSignatures): Signatures {
    map app | app in sigs :: sigs[app].tiers
  }

  /** ENFORCER_MODE. The fourth stands for any other text, which changes nothing on the
      system but counts as enforcing; Tc runs commands for Linux only. */
  datatype EnforcerMode = Simulate | Powershell | Tc | Unknown

  const TOTAL_LINK_MBPS := 100.0

  /** total_mbps or TOTAL_LINK_MBPS: an absent or zero figure is replaced. */
  function LinkMbps(total: Option<real>): real {
    if total.Some? && total.value != 0.0 then total.value else TOTAL_LINK_MBPS
  }

  lemma LinkMbpsIs(total: Option<real>)
    ensures LinkMbps(total) == if total == None || total == Some(0.0) then 100.0 else total.value
  {
  }

  function PolicyCount(sig: AppSignature): nat {
    if sig.ranges < 8 then sig.ranges else 8
  }

  function RangePolicies(app: string, n: nat): Artifacts {
    set i | 0 <= i < n :: Artifact(QosPolicy, SwitchName(app, Decimal(i)))
  }

  lemma OneMoreRange(app: string, n: nat)
    ensures RangePolicies(app, n + 1) == RangePolicies(app, n) + {Artifact(QosPolicy, SwitchName(app, Decimal(n)))}
  {
    forall a | a in RangePolicies(app, n + 1)
      ensures a in RangePolicies(app, n) || a == Artifact(QosPolicy, SwitchName(app, Decimal(n)))
    {
      var i :| 0 <= i < n + 1 && a == Artifact(QosPolicy, SwitchName(app, Decimal(i)));
    }
  }

  function AppArtifacts(app: string, sig: AppSignature): Artifacts {
    RangePolicies(app, PolicyCount(sig))
    + (if sig.hasProcess && app != "youtube" && app != "netflix" && app != "twitch"
       then {Artifact(QosPolicy, SwitchName(app, "proc"))} else {})
  }

  function Created(sigs: AppSignatures, allocations: seq<AppAllocation>): Artifacts {
    if allocations == [] then {}
    else
      var (init, last) := (allocations[..|allocations| - 1], allocations[|allocations| - 1]);
      Created(sigs, init) + (if last.appId in sigs then AppArtifacts(last.appId, sigs[last.appId]) else {})
  }

  /** The system after the switch has re-applied these allocations, or cleared. */
  function SwitchedOs(os: Artifacts, mode: EnforcerMode, sigs: AppSignatures,
                      allocations: seq<AppAllocation>): Artifacts {
    if mode.Powershell? then Without(os, QosPolicy, "PW_") + Created(sigs, allocations) else os
  }

  class BandwidthEnforcer {
    const mode: EnforcerMode
    const os: Os
    const sigs: AppSignatures
    var activeRules: seq<AppAllocation>

    constructor (mode: EnforcerMode, os: Os, sigs: AppSignatures)
      ensures this.mode == mode && this.os == os && this.sigs == sigs && activeRules == []
    {
      this.mode, this.os, this.sigs, activeRules := mode, os, sigs, [];
    }

    /** Re-applying replaces every policy named PW_*, whoever created it, by those of
        the new allocations. */
    method ApplyPriorities(priorities: Priorities, total: Option<real>) returns (allocations: seq<AppAllocation>)
      modifies this, os
      ensures allocations == activeRules == Allocations(Tiers(sigs), priorities, LinkMbps(total), mode != Simulate)
      ensures os.artifacts == SwitchedOs(old(os.artifacts), mode, sigs, allocations)
    {
      allocations := ComputeAllocations(Tiers(sigs), priorities, LinkMbps(total), mode != Simulate);
      if mode.Powershell? {
        ApplyPowershellRules(allocations);
      }
      activeRules := allocations;
    }

    method ApplyPowershellRules(allocations: seq<AppAllocation>)
      modifies os
      ensures os.artifacts == Without(old(os.artifacts), QosPolicy, "PW_") + Created(sigs, allocations)
    {
      os.RemoveLike(QosPolicy, "PW_");
      ghost var kept := os.artifacts;
      for k := 0 to |allocations|
        invariant os.artifacts == kept + Created(sigs, allocations[..k])
      {
        assert allocations[..k + 1][..k] == allocations[..k];
        var app := allocations[k].appId;
        if app in sigs {
          CreateForApp(app, sigs[app]);
        }
      }
      assert allocations[..|allocations|] == allocations;
    }

    method CreateForApp(app: string, sig: AppSignature)
      modifies os
      ensures os.artifacts == old(os.artifacts) + AppArtifacts(app, sig)
    {
      for i := 0 to PolicyCount(sig)
        invariant os.artifacts == old(os.artifacts) + RangePolicies(app, i)
      {
        OneMoreRange(app, i);
        os.Create(QosPolicy, SwitchName(app, Decimal(i)));
      }
      if sig.hasProcess && app != "youtube" && app != "netflix" && app != "twitch" {
        os.Create(QosPolicy, SwitchName(app, "proc"));
      }
    }

    method ClearAllRules() returns (cleared: seq<string>)
      modifies this, os
      ensures activeRules == []
      ensures cleared == seq(|old(activeRules)|, i requires 0 <= i < |old(activeRules)| => old(activeRules)[i].appId)
      ensures os.artifacts == SwitchedOs(old(os.artifacts), mode, sigs, [])
    {
      var rules := activeRules;
      cleared := seq(|rules|, i requires 0 <= i < |rules| => rules[i].appId);
      if mode.Powershell? {
        os.RemoveLike(QosPolicy, "PW_");
      }
      activeRules := [];
    }
  }

  function RangePolicy(app: string, i: nat): Artifact {
    Artifact(QosPolicy, "PW_" + app + "_" + Decimal(i))
  }

  /** Which policies the switch creates for an app: one for each of its first eight
      address ranges, and one for its process unless it is mostly watched in a browser. */
  lemma PoliciesOfApp(app: string, sig: AppSignature)
    ensures forall i: nat :: RangePolicy(app, i) in AppArtifacts(app, sig) <==> i < 8 && i < sig.ranges
    ensures Artifact(QosPolicy, "PW_" + app + "_" + "proc") in AppArtifacts(app, sig) <==>
              sig.hasProcess && app !in {"youtube", "netflix", "twitch"}
  {
    forall i: nat ensures RangePolicy(app, i) in AppArtifacts(app, sig) <==> i < 8 && i < sig.ranges {
      RangePolicyIn(app, PolicyCount(sig), i);
      NotProc(app, i);
    }
    if a :| a in RangePolicies(app, PolicyCount(sig)) && a.name == SwitchName(app, "proc") {
      var i :| 0 <= i < PolicyCount(sig) && a == Artifact(QosPolicy, SwitchName(app, Decimal(i)));
      NotProc(app, i);
    }
  }

  lemma NotProc(app: string, i: nat)
    ensures SwitchName(app, Decimal(i)) != SwitchName(app, "proc")
  {
    var n := |"PW_" + app + "_"|;
    assert SwitchName(app, Decimal(i))[n..] == Decimal(i) && SwitchName(app, "proc")[n..] == "proc";
    assert Decimal(i)[0] != 'p';
  }

  lemma RangePolicyIn(app: string, n: nat, i: nat)
    ensures RangePolicy(app, i) in RangePolicies(app, n) <==> i < n
  {
    if RangePolicy(app, i) in RangePolicies(app, n) {
      var j :| 0 <= j < n && RangePolicy(app, i) == Artifact(QosPolicy, SwitchName(app, Decimal(j)));
      var k := |"PW_" + app + "_"|;
      assert SwitchName(app, Decimal(i))[k..] == Decimal(i) && SwitchName(app, Decimal(j))[k..] == Decimal(j);
      DecimalInjective(i, j);
    }
    assert RangePolicy(app, i) == Artifact(QosPolicy, SwitchName(app, Decimal(i)));
  }

  /** What it creates are the policies of the known apps that have an allocation. */
  lemma {:induction false} CreatedIs(sigs: AppSignatures, allocations: seq<AppAllocation>, a: Artifact)
    ensures a in Created(sigs, allocations) <==>
            exists x :: x in allocations && x.appId in sigs && a in AppArtifacts(x.appId, sigs[x.appId])
  {
    if allocations != [] {
      var n := |allocations| - 1;
      CreatedIs(sigs, allocations[..n], a);
      assert allocations == allocations[..n] + [allocations[n]];
    }
  }

  /** None of the switch's own policies looks selective, so a switch is one of the
      steps of SelectiveRules: it takes the selective policies and leaves the
      selective firewall rules. */
  lemma {:induction false} CreatedForSwitch(sigs: AppSignatures, allocations: seq<AppAllocation>)
    requires forall app | app in sigs :: app in APP_IDS
    ensures forall a | a in Created(sigs, allocations) ::
              a.kind == QosPolicy && Like(a.name, "PW_") && forall kind :: !Like(a.name, SelPrefix(kind))
  {
    if allocations != [] {
      CreatedForSwitch(sigs, allocations[..|allocations| - 1]);
      var app := allocations[|allocations| - 1].appId;
      if app in sigs {
        forall a | a in AppArtifacts(app, sigs[app])
          ensures a.kind == QosPolicy && Like(a.name, "PW_") && forall kind :: !Like(a.name, SelPrefix(kind))
        {
          var suffix := AppSuffix(app, sigs[app], a);
          forall kind ensures !Like(a.name, SelPrefix(kind)) {
            SwitchNotSelective(app, suffix, kind);
          }
          SwitchNotSelective(app, suffix, QosPolicy);
        }
      }
    }
  }

  lemma AppSuffix(app: string, sig: AppSignature, a: Artifact) returns (suffix: string)
    requires a in AppArtifacts(app, sig)
    ensures a == Artifact(QosPolicy, SwitchName(app, suffix))
  {
    if a == Artifact(QosPolicy, SwitchName(app, "proc")) {
      return "proc";
    }
    var i :| 0 <= i < PolicyCount(sig) && a == Artifact(QosPolicy, SwitchName(app, Decimal(i)));
    return Decimal(i);
  }
}
