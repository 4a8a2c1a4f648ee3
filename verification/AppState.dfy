/** The two routing handlers of server/main.py over the rule objects of
    server/state.py. RoutingTable says what they do to the rules. */
module AppState {
  import opened Text
  import opened RoutingTable
  import opened SteeringHistory

  class ActiveRoutingRule {
    const id: string
    const sourceLink: string
    const targetLink: string
    const trafficClasses: seq<string>
    const appliedAt: real
    const sandboxReportId: string
    var status: RuleStatus

    constructor (id: string, sourceLink: string, targetLink: string, trafficClasses: seq<string>,
                 appliedAt: real, sandboxReportId: string)
      ensures Value() == Rule(id, sourceLink, targetLink, trafficClasses, appliedAt, sandboxReportId, Active)
    {
      this.id, this.sourceLink, this.targetLink, this.trafficClasses := id, sourceLink, targetLink, trafficClasses;
      this.appliedAt, this.sandboxReportId, status := appliedAt, sandboxReportId, Active;
    }

    ghost function Value(): Rule
      reads this
    {
      Rule(id, sourceLink, targetLink, trafficClasses, appliedAt, sandboxReportId, status)
    }
  }

  datatype ApplyResult = Done(rule: ActiveRoutingRule) | Refused(error: ApplyError)

  class AppState {
    const activeLinks: seq<string>
    var routingRules: seq<ActiveRoutingRule>
    var steeringHistory: seq<SteeringEvent>  // most recent first

    constructor (activeLinks: seq<string>)
      ensures Valid() && this.activeLinks == activeLinks && routingRules == [] && steeringHistory == []
    {
      this.activeLinks, routingRules, steeringHistory := activeLinks, [], [];
    }

    ghost predicate Valid()
      reads this
    {
      forall i, j | 0 <= i < j < |routingRules| :: routingRules[i] != routingRules[j]
    }

    ghost function Rules(): (rules: seq<Rule>)
      reads this, routingRules
      ensures |rules| == |routingRules|
      ensures forall i | 0 <= i < |rules| :: rules[i] == routingRules[i].Value()
    {
      seq(|routingRules|, i requires 0 <= i < |routingRules| reads this, routingRules => routingRules[i].Value())
    }

    /** get_active_rules, up to the first rule that diverts the link. */
    method FirstDiverting(link: string) returns (rule: ActiveRoutingRule?)
      ensures rule == null <==> DivertingRule(Rules(), link).None?
      ensures rule != null ==> rule in routingRules && DivertingRule(Rules(), link) == Some(rule.Value())
    {
      for i := 0 to |routingRules|
        invariant DivertingRule(Rules(), link) == DivertingRule(Rules()[i..], link)
      {
        if routingRules[i].status == Active && routingRules[i].sourceLink == link {
          return routingRules[i];
        }
        assert Rules()[i..][1..] == Rules()[i + 1..];
      }
      return null;
    }

    method ApplyRoutingRule(source: string, target: string, trafficClasses: seq<string>, reportId: string,
                            id: string, now: real) returns (result: ApplyResult)
      requires Valid()
      modifies this
      ensures Valid()
      ensures Rules() == Applied(activeLinks, old(Rules()),
                                 Rule(id, source, target, trafficClasses, now, reportId, Active))
      ensures result.Refused? <==> Refusal(activeLinks, old(Rules()), source, target).Some?
      ensures result.Refused? ==>
                && Refusal(activeLinks, old(Rules()), source, target) == Some(result.error)
                && routingRules == old(routingRules) && steeringHistory == old(steeringHistory)
      ensures result.Done? ==> steeringHistory == Pushed(old(steeringHistory), Deployed(id, source, target))
    {
      if source == target {
        return Refused(SameLinks);
      }
      if source !in activeLinks || target !in activeLinks {
        return Refused(InvalidLink);
      }
      var existing := FirstDiverting(source);
      if existing != null {
        return Refused(AlreadyDiverted(existing.id));
      }
      var rule := new ActiveRoutingRule(id, source, target, trafficClasses, now, reportId);
      routingRules := routingRules + [rule];
      steeringHistory := Pushed(steeringHistory, Deployed(id, source, target));
      return Done(rule);
    }

    method RollbackRule(id: string) returns (found: bool)
      requires Valid()
      modifies this`steeringHistory, routingRules
      ensures Valid()
      ensures Rules() == RolledBackAt(old(Rules()), id)
      ensures var r := ActiveWithId(old(Rules()), id);
              && (found <==> r.Some?)
              && steeringHistory ==
                   if r.Some? then Pushed(old(steeringHistory), Restored(id, r.value.target, r.value.source))
                   else old(steeringHistory)
    {
      ghost var before := Rules();
      for i := 0 to |routingRules|
        invariant Rules() == before && steeringHistory == old(steeringHistory)
        invariant forall j | 0 <= j < i :: !(before[j].id == id && before[j].status == Active)
      {
        var r := routingRules[i];
        if r.id == id && r.status == Active {
          RollbackFrom(before, id, i);
          MarkRolledBack(i);
          steeringHistory := Pushed(steeringHistory, Restored(id, r.targetLink, r.sourceLink));
          return true;
        }
      }
      NothingToRollBack(before, id);
      return false;
    }

    method MarkRolledBack(i: nat)
      requires Valid() && i < |routingRules|
      modifies routingRules[i]
      ensures Rules() == old(Rules())[i := old(Rules())[i].(status := RolledBack)]
    {
      routingRules[i].status := RolledBack;
    }

    /** The links of which is_traffic_diverted_from is true. */
    method DivertedNow() returns (links: set<string>)
      ensures links == DivertedLinks(Rules())
    {
      links := {};
      ghost var rules := Rules();
      for i := 0 to |routingRules|
        invariant links == DivertedLinks(rules[..i])
      {
        assert rules[..i + 1] == rules[..i] + [rules[i]];
        if routingRules[i].status == Active {
          links := links + {routingRules[i].sourceLink};
        }
      }
      assert rules[..|rules|] == rules;
    }

    method IsTrafficDivertedFrom(link: string) returns (diverted: bool)
      ensures diverted <==> DivertedFrom(Rules(), link)
    {
      var rule := FirstDiverting(link);
      DivertingRuleIs(Rules(), link);
      diverted := rule != null;
    }

    method IsTrafficDivertedTo(link: string) returns (diverted: bool)
      ensures diverted <==> DivertedTo(Rules(), link)
    {
      ghost var rules := Rules();
      for i := 0 to |routingRules|
        invariant forall r | r in rules[..i] :: !(r.target == link && r.status == Active)
      {
        assert rules[..i + 1] == rules[..i] + [rules[i]];
        if routingRules[i].targetLink == link && routingRules[i].status == Active {
          assert rules[i] in rules;
          return true;
        }
      }
      assert rules[..|rules|] == rules;
      return false;
    }
  }
}
