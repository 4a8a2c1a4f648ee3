/** server/app_qos/priority_manager.py: the settings of each user, and the one enforcer
    they share. PriorityRuns says what is in force after a run. */
module PriorityManager {
  import opened Text
  import opened Allocation
  import opened BandwidthEnforcer
  import opened PriorityRuns

  class PriorityManager {
    const enforcer: BandwidthEnforcer
    var userPriorities: map<string, Priorities>

    constructor (enforcer: BandwidthEnforcer)
      ensures this.enforcer == enforcer && userPriorities == map[]
    {
      this.enforcer, userPriorities := enforcer, map[];
    }

    ghost function Value(): Managed
      reads this, enforcer, enforcer.os
    {
      Managed(userPriorities, enforcer.activeRules, enforcer.os.artifacts)
    }

    /** Rejected settings change nothing; accepted ones replace what any user had in
        force before. */
    method SetPriorities(user: string, priorities: Priorities, total: Option<real>) returns (accepted: bool)
      modifies this, enforcer, enforcer.os
      ensures accepted <==> Acceptable(enforcer.sigs, priorities)
      ensures Value() == Apply(enforcer.sigs, enforcer.mode, old(Value()), Set(user, priorities, total))
    {
      for i := 0 to |priorities|
        invariant forall j | 0 <= j < i :: priorities[j].0 in enforcer.sigs && KnownClass(priorities[j].1)
      {
        if priorities[i].0 !in enforcer.sigs || !KnownClass(priorities[i].1) {
          return false;
        }
      }
      userPriorities := userPriorities[user := priorities];
      var _ := enforcer.ApplyPriorities(priorities, total);
      return true;
    }

    method RemoveAppPriority(user: string, app: string)
      modifies this, enforcer, enforcer.os
      ensures Value() == Apply(enforcer.sigs, enforcer.mode, old(Value()), RemoveApp(user, app))
    {
      var rest := WithoutApp(SettingsIn(userPriorities, user), app);
      userPriorities := userPriorities[user := rest];
      if rest != [] {
        var _ := enforcer.ApplyPriorities(rest, None);
      } else {
        var _ := enforcer.ClearAllRules();
      }
    }

    /** Resetting one user clears the enforcer for all of them. */
    method ResetAll(user: string)
      modifies this, enforcer, enforcer.os
      ensures Value() == Apply(enforcer.sigs, enforcer.mode, old(Value()), Reset(user))
    {
      userPriorities := userPriorities - {user};
      var _ := enforcer.ClearAllRules();
    }
  }
}
