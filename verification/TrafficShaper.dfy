/** The traffic shaper of server/traffic_shaper.py: numbered policies updated in place,
    their rules on the operating system, and the priority switch it drives. ShaperRuns
    says what its operations do over a run. */
module TrafficShaper {
  import opened Text
  import opened OsRules
  import opened Allocation
  import opened BandwidthEnforcer
  import opened PriorityManager
  import PriorityRuns
  import opened Quality
  import opened ShaperRules
  import opened ShaperRuns

  type Registry = map<string, AppProfile>

  /** What a throttle asks of the priority switch. */
  function Setting(app: string, kbps: int): Priorities {
    [(app, if kbps <= 10 then "BLOCKED" else "LOW")]
  }

  /** So the app is left without bandwidth, or with 0.3 of the link's 100 Mbps. */
  lemma SettingLeaves(sigs: Signatures, app: string, kbps: int, enforced: bool)
    ensures var given := Allocations(sigs, Setting(app, kbps), TOTAL_LINK_MBPS, enforced);
            && |given| == 1 && given[0].appId == app
            && given[0].allocatedMbps == if kbps <= 10 then 0.0 else 0.3
  {
    AloneOnLink(sigs, app, if kbps <= 10 then "BLOCKED" else "LOW", TOTAL_LINK_MBPS, enforced);
    assert Round2(0.003 * 100.0) == 0.3;
  }

  /** One row of get_all_policies: the creator is not among its keys. */
  datatype PolicyRow = PolicyRow(id: string, appName: string, active: bool, createdBy: Option<string>)

  /** In its one acting mode the switch is one of the steps of a proper run, and in every
      mode it spares the shaper's rules. */
  lemma SwitchIsStep(w: World, mode: EnforcerMode, sigs: AppSignatures, allocations: seq<AppAllocation>)
    requires forall app | app in sigs :: app in APP_IDS
    ensures Proper(SwitchPriorities(Created(sigs, allocations)))
    ensures w.live ==>
              SwitchedOs(w.os, mode, sigs, allocations) ==
              if mode.Powershell? then Apply(w, SwitchPriorities(Created(sigs, allocations))).os else w.os
    ensures forall a: Artifact | Like(a.name, "PathWise-") ::
              a in SwitchedOs(w.os, mode, sigs, allocations) <==> a in w.os
  {
    CreatedForSwitch(sigs, allocations);
    forall a: Artifact | Like(a.name, "PathWise-")
      ensures a in SwitchedOs(w.os, mode, sigs, allocations) <==> a in w.os
    {
      ShaperApart(a.name, a.name);
    }
  }

  /** What the shaper sees when the switch puts these allocations in force. */
  function Switched(w: World, mode: EnforcerMode, sigs: AppSignatures, allocations: seq<AppAllocation>): World {
    w.(os := SwitchedOs(w.os, mode, sigs, allocations))
  }

  class TrafficShaper {
    const live: bool  // false when ENFORCER_MODE=simulate
    const os: Os
    const registry: Registry
    const priorities: PriorityManager
    var policyCounter: nat
    var activePolicies: seq<TrafficPolicy>

    constructor (live: bool, os: Os, registry: Registry, priorities: PriorityManager)
      ensures this.live == live && this.os == os && this.registry == registry && this.priorities == priorities
      ensures policyCounter == 0 && activePolicies == []
    {
      this.live, this.os, this.registry, this.priorities := live, os, registry, priorities;
      policyCounter, activePolicies := 0, [];
    }

    ghost function Value(): World
      reads this, os
    {
      World(live, policyCounter, activePolicies, os.artifacts)
    }

    /** The shaper and the priority switch act on one system. Their modes are read
        apart: with ENFORCER_MODE unset the shaper acts and the switch simulates. */
    predicate Wired()
      reads this, priorities
    {
      priorities.enforcer.os == os
    }

    method RemoveQosPolicies(name: string)
      modifies os
      ensures os.artifacts == if live then WithoutPattern(old(os.artifacts), name) else old(os.artifacts)
    {
      if live {
        os.RemoveLike(QosPolicy, name);
        os.RemoveLike(FirewallRule, name);
      }
    }

    method CreateQosThrottle(name: string, p: AppProfile, resolved: nat, resolvedAgain: nat, kbps: int)
      modifies os
      ensures os.artifacts == if live then old(os.artifacts) + ThrottleArtifacts(name, p, resolved, resolvedAgain, kbps)
                              else old(os.artifacts)
    {
      var commands: Artifacts := {};
      if p.ownProcess {
        commands := commands + {Artifact(QosPolicy, name)};
      }
      commands := commands + PrefixPolicies(name, Min(p.ipPrefixes, 5) + Min(resolved, 8));
      var ips := Min(p.ipPrefixes, 5) + Min(resolvedAgain, 5);
      if ips > 0 {
        commands := commands + {Artifact(FirewallRule, name + "-quic")};
      }
      if kbps * 1000 <= 1000 && ips > 0 {
        commands := commands + {Artifact(FirewallRule, name + "-block")};
      }
      if live {
        os.artifacts := os.artifacts + commands;
      }
    }

    method Append(p: TrafficPolicy)
      modifies this`activePolicies
      ensures activePolicies == Appended(old(activePolicies), p)
    {
      if |activePolicies| >= MAX_POLICIES {
        activePolicies := activePolicies[1..];
      }
      activePolicies := activePolicies + [p];
    }

    /** A throttle also hands the app to the priority switch, which replaces every
        PW_ policy when it knows the app. */
    method ThrottleApp(app: string, kbps: int, createdBy: string, id: string, resolved: nat, resolvedAgain: nat)
        returns (policy: Option<TrafficPolicy>)
      requires Wired()
      modifies this, os, priorities, priorities.enforcer
      ensures policy.None? <==> app !in registry
      ensures policy.None? ==> Value() == old(Value())
      ensures policy.Some? ==>
                var throttle := Throttle(app, id, createdBy, kbps, registry[app], resolved, resolvedAgain);
                var (shaped, e) := (Apply(old(Value()), throttle), priorities.enforcer);
                && policy.value == shaped.policies[|shaped.policies| - 1]
                && policy.value == TrafficPolicy(id, app, ThrottleAction, kbps, createdBy,
                                                 ShaperName(app, old(policyCounter) + 1), true)
                && Value() == if app in e.sigs then Switched(shaped, e.mode, e.sigs, e.activeRules) else shaped
      ensures policy.Some? && app in priorities.enforcer.sigs ==>
                && priorities.userPriorities == old(priorities.userPriorities)["ibn" := Setting(app, kbps)]
                && priorities.enforcer.activeRules ==
                     Allocations(Tiers(priorities.enforcer.sigs), Setting(app, kbps), TOTAL_LINK_MBPS,
                                 priorities.enforcer.mode != Simulate)
      ensures policy.None? || app !in priorities.enforcer.sigs ==>
                && priorities.userPriorities == old(priorities.userPriorities)
                && priorities.enforcer.activeRules == old(priorities.enforcer.activeRules)
    {
      if app !in registry {
        return None;
      }
      policyCounter := policyCounter + 1;
      var name := ShaperName(app, policyCounter);
      CreateQosThrottle(name, registry[app], resolved, resolvedAgain, kbps);
      var setting := Setting(app, kbps);
      var accepted := priorities.SetPriorities("ibn", setting, None);
      assert accepted <==> app in priorities.enforcer.sigs by {
        assert setting[0].0 == app && PriorityRuns.KnownClass(setting[0].1);
      }
      var p := TrafficPolicy(id, app, ThrottleAction, kbps, createdBy, name, true);
      Append(p);
      policy := Some(p);
    }

    method PrioritizeApp(app: string, createdBy: string, id: string) returns (policy: Option<TrafficPolicy>)
      modifies this, os
      ensures policy.None? <==> app !in registry
      ensures policy.None? ==> Value() == old(Value())
      ensures policy.Some? ==>
                && Value() == Apply(old(Value()), Prioritize(app, id, createdBy))
                && policy.value == activePolicies[|activePolicies| - 1]
                && policy.value == TrafficPolicy(id, app, PrioritizeAction, 0, createdBy,
                                                 PriorityName(app, old(policyCounter) + 1), true)
    {
      if app !in registry {
        return None;
      }
      ghost var policies, rules := activePolicies, os.artifacts;
      for i := 0 to |activePolicies|
        invariant |activePolicies| == |policies| && policyCounter == old(policyCounter)
        invariant forall j | 0 <= j < |policies| ::
                    activePolicies[j] == if j < i then AppStopped(policies, app)[j] else policies[j]
        invariant os.artifacts == if live then AppCleared(policies[..i], app, rules) else rules
      {
        assert policies[..i + 1][..i] == policies[..i];
        if activePolicies[i].appName == app && activePolicies[i].active {
          RemoveQosPolicies(activePolicies[i].qosPolicyName);
          activePolicies := activePolicies[i := activePolicies[i].(active := false)];
        }
      }
      assert policies[..|policies|] == policies;
      assert activePolicies == AppStopped(policies, app);
      policyCounter := policyCounter + 1;
      var p := TrafficPolicy(id, app, PrioritizeAction, 0, createdBy, PriorityName(app, policyCounter), true);
      Append(p);
      policy := Some(p);
    }

    /** Also resets the priority switch, for every user. */
    method RemovePolicy(id: string) returns (removed: bool)
      requires Wired()
      modifies this, os, priorities, priorities.enforcer
      ensures removed <==> exists p :: p in old(activePolicies) && p.id == id && p.active
      ensures Value() == if removed
                         then Switched(Apply(old(Value()), Remove(id)),
                                       priorities.enforcer.mode, priorities.enforcer.sigs, [])
                         else old(Value())
      ensures removed ==>
                && priorities.enforcer.activeRules == []
                && priorities.userPriorities == old(priorities.userPriorities) - {"ibn"}
      ensures !removed ==>
                && priorities.enforcer.activeRules == old(priorities.enforcer.activeRules)
                && priorities.userPriorities == old(priorities.userPriorities)
    {
      var i := IndexOfActive(activePolicies, id);
      if i == |activePolicies| {
        return false;
      }
      RemoveQosPolicies(activePolicies[i].qosPolicyName);
      activePolicies := activePolicies[i := activePolicies[i].(active := false)];
      priorities.ResetAll("ibn");
      return true;
    }

    method RemoveAllPolicies()
      modifies this`activePolicies, os
      ensures Value() == Apply(old(Value()), RemoveAll)
    {
      for i := 0 to |activePolicies|
        invariant |activePolicies| == |old(activePolicies)| && os.artifacts == old(os.artifacts)
        invariant forall j | 0 <= j < |activePolicies| ::
                    activePolicies[j] == if j < i then AllStopped(old(activePolicies))[j] else old(activePolicies)[j]
      {
        if activePolicies[i].active {
          activePolicies := activePolicies[i := activePolicies[i].(active := false)];
        }
      }
      assert activePolicies == AllStopped(old(activePolicies));
      RemoveQosPolicies("PathWise-");
    }

    function GetAllPolicies(): (rows: seq<PolicyRow>)
      reads this
      ensures |rows| == |activePolicies|
      ensures forall i | 0 <= i < |rows| ::
                var p := activePolicies[i]; rows[i] == PolicyRow(p.id, p.appName, p.active, None)
    {
      seq(|activePolicies|, i requires 0 <= i < |activePolicies| reads this =>
        PolicyRow(activePolicies[i].id, activePolicies[i].appName, activePolicies[i].active, None))
    }
  }
}
