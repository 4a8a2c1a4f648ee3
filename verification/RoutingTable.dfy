/** Routing rules (server/main.py, server/state.py): what the active rules amount to
    over any run of applications and rollbacks. */
module RoutingTable {
  import opened Text

  datatype RuleStatus = Active | RolledBack

  datatype Rule = Rule(
    id: string, source: string, target: string, trafficClasses: seq<string>, appliedAt: real,
    reportId: string, status: RuleStatus)

  datatype ApplyError = SameLinks | InvalidLink | AlreadyDiverted(ruleId: string)

  function ActiveRules(rules: seq<Rule>): seq<Rule> {
    if rules == [] then []
    else (if rules[0].status == Active then [rules[0]] else []) + ActiveRules(rules[1..])
  }

  /** The first active rule from a link. */
  function DivertingRule(rules: seq<Rule>, source: string): Option<Rule> {
    if rules == [] then None
    else if rules[0].status == Active && rules[0].source == source then Some(rules[0])
    else DivertingRule(rules[1..], source)
  }

  function Refusal(links: seq<string>, rules: seq<Rule>, source: string, target: string): Option<ApplyError> {
    if source == target then Some(SameLinks)
    else if source !in links || target !in links then Some(InvalidLink)
    else
      var d := DivertingRule(rules, source);
      if d.Some? then Some(AlreadyDiverted(d.value.id)) else None
  }

  function Applied(links: seq<string>, rules: seq<Rule>, r: Rule): seq<Rule> {
    if Refusal(links, rules, r.source, r.target).None? then rules + [r] else rules
  }

  /** The first active rule with the id is rolled back. */
  function RolledBackAt(rules: seq<Rule>, id: string): seq<Rule> {
    if rules == [] then []
    else if rules[0].id == id && rules[0].status == Active then [rules[0].(status := RolledBack)] + rules[1..]
    else [rules[0]] + RolledBackAt(rules[1..], id)
  }

  function ActiveWithId(rules: seq<Rule>, id: string): Option<Rule> {
    if rules == [] then None
    else if rules[0].id == id && rules[0].status == Active then Some(rules[0])
    else ActiveWithId(rules[1..], id)
  }

  /** The scan of the rollback handler, i rules in. */
  lemma {:induction false} RollbackFrom(rules: seq<Rule>, id: string, i: nat)
    requires i < |rules| && forall j | 0 <= j < i :: !(rules[j].id == id && rules[j].status == Active)
    requires rules[i].id == id && rules[i].status == Active
    ensures RolledBackAt(rules, id) == rules[i := rules[i].(status := RolledBack)]
    ensures ActiveWithId(rules, id) == Some(rules[i])
  {
    if i > 0 {
      RollbackFrom(rules[1..], id, i - 1);
    }
  }

  lemma {:induction false} NothingToRollBack(rules: seq<Rule>, id: string)
    requires forall j | 0 <= j < |rules| :: !(rules[j].id == id && rules[j].status == Active)
    ensures RolledBackAt(rules, id) == rules && ActiveWithId(rules, id) == None
  {
    if rules != [] {
      NothingToRollBack(rules[1..], id);
    }
  }

  predicate DivertedFrom(rules: seq<Rule>, link: string) {
    exists r :: r in rules && r.source == link && r.status == Active
  }

  function DivertedLinks(rules: seq<Rule>): (links: set<string>)
    ensures forall l :: l in links <==> DivertedFrom(rules, l)
  {
    set r | r in rules && r.status == Active :: r.source
  }

  predicate DivertedTo(rules: seq<Rule>, link: string) {
    exists r :: r in rules && r.target == link && r.status == Active
  }

  // ----- the active rules as a function on links -----

  function ActiveMap(rules: seq<Rule>): map<string, string> {
    if rules == [] then map[]
    else
      var (m, last) := (ActiveMap(rules[..|rules| - 1]), rules[|rules| - 1]);
      if last.status == Active then m[last.source := last.target] else m
  }

  /** Active rules join different known links, no two leave one link, and ids are
      never shared. */
  ghost predicate Ok(links: seq<string>, rules: seq<Rule>) {
    && (forall i | 0 <= i < |rules| && rules[i].status == Active ::
          rules[i].source in links && rules[i].target in links && rules[i].source != rules[i].target)
    && (forall i, j | 0 <= i < j < |rules| && rules[i].status == Active && rules[j].status == Active ::
          rules[i].source != rules[j].source)
    && (forall i, j | 0 <= i < j < |rules| :: rules[i].id != rules[j].id)
  }

  /** The active rules are a partial function without fixed points on the known
      links; the two queries give its domain and its range. */
  lemma {:induction false} ActiveMapIs(links: seq<string>, rules: seq<Rule>)
    requires Ok(links, rules)
    ensures forall r | r in rules && r.status == Active ::
              r.source in ActiveMap(rules) && ActiveMap(rules)[r.source] == r.target
    ensures forall s | s in ActiveMap(rules) :: Routes(rules, s, ActiveMap(rules)[s])
    ensures forall s | s in ActiveMap(rules) ::
              s in links && ActiveMap(rules)[s] in links && ActiveMap(rules)[s] != s
  {
    if rules != [] {
      var n := |rules| - 1;
      var init, last := rules[..n], rules[n];
      assert rules == init + [last];
      ActiveMapIs(links, init);
      forall r | r in init && r.status == Active
        ensures r.source in ActiveMap(rules) && ActiveMap(rules)[r.source] == r.target
      {
        KeptByLast(links, rules, r);
      }
      forall s | s in ActiveMap(rules) ensures Routes(rules, s, ActiveMap(rules)[s]) {
        if last.status == Active && s == last.source {
          assert last in rules;
        } else {
          assert Routes(init, s, ActiveMap(init)[s]);
        }
      }
    }
  }

  lemma KeptByLast(links: seq<string>, rules: seq<Rule>, r: Rule)
    requires Ok(links, rules) && rules != [] && r in rules[..|rules| - 1] && r.status == Active
    ensures rules[|rules| - 1].status == Active ==> rules[|rules| - 1].source != r.source
  {
    var i :| 0 <= i < |rules| - 1 && rules[i] == r;
  }

  ghost predicate Routes(rules: seq<Rule>, source: string, target: string) {
    exists r :: r in rules && r.status == Active && r.source == source && r.target == target
  }

  lemma QueriesAgree(links: seq<string>, rules: seq<Rule>, link: string)
    requires Ok(links, rules)
    ensures DivertedFrom(rules, link) <==> link in ActiveMap(rules).Keys
    ensures DivertedTo(rules, link) <==> link in ActiveMap(rules).Values
  {
    ActiveMapIs(links, rules);
    if link in ActiveMap(rules).Keys {
      assert Routes(rules, link, ActiveMap(rules)[link]);
    }
    if link in ActiveMap(rules).Values {
      var s :| s in ActiveMap(rules) && ActiveMap(rules)[s] == link;
      assert Routes(rules, s, link);
    }
    if DivertedTo(rules, link) {
      var r :| r in rules && r.target == link && r.status == Active;
      assert ActiveMap(rules)[r.source] == link;
    }
  }

  lemma {:induction false} DivertingRuleIs(rules: seq<Rule>, source: string)
    ensures DivertingRule(rules, source).None? <==> !DivertedFrom(rules, source)
  {
    if rules != [] {
      DivertingRuleIs(rules[1..], source);
      assert rules == [rules[0]] + rules[1..];
    }
  }

  /** A rule is accepted iff it leads from one known link to a different one and no active
      rule leaves its source yet; a refusal over an active rule names it. */
  lemma AcceptedIff(links: seq<string>, rules: seq<Rule>, source: string, target: string)
    ensures Refusal(links, rules, source, target).None? <==>
              source != target && source in links && target in links && !DivertedFrom(rules, source)
    ensures forall id | Refusal(links, rules, source, target) == Some(AlreadyDiverted(id)) ::
              exists r :: r in rules && r.id == id && r.source == source && r.status == Active
    ensures Refusal(links, rules, source, target) == Some(SameLinks) <==> source == target
    ensures Refusal(links, rules, source, target) == Some(InvalidLink) <==>
              source != target && !(source in links && target in links)
  {
    DivertingRuleIs(rules, source);
    DivertingRuleIn(rules, source);
  }

  lemma {:induction false} DivertingRuleIn(rules: seq<Rule>, source: string)
    ensures var d := DivertingRule(rules, source);
            d.Some? ==> d.value in rules && d.value.source == source && d.value.status == Active
  {
    if rules != [] {
      DivertingRuleIn(rules[1..], source);
      assert rules == [rules[0]] + rules[1..];
    }
  }

  // ----- runs -----

  datatype Step = Apply(rule: Rule) | Rollback(id: string)

  function Next(links: seq<string>, rules: seq<Rule>, step: Step): seq<Rule> {
    match step
    case Apply(r) => Applied(links, rules, r)
    case Rollback(id) => RolledBackAt(rules, id)
  }

  function Run(links: seq<string>, steps: seq<Step>): seq<Rule> {
    if steps == [] then [] else Next(links, Run(links, steps[..|steps| - 1]), steps[|steps| - 1])
  }

  ghost predicate FreshRules(steps: seq<Step>) {
    && (forall i | 0 <= i < |steps| && steps[i].Apply? :: steps[i].rule.status == Active)
    && (forall i, j | 0 <= i < j < |steps| && steps[i].Apply? && steps[j].Apply? ::
          steps[i].rule.id != steps[j].rule.id)
  }

  /** A rollback changes at most one status, from active to rolled back. */
  lemma {:induction false} RollbackPointwise(rules: seq<Rule>, id: string)
    ensures var after := RolledBackAt(rules, id);
            && |after| == |rules|
            && forall i | 0 <= i < |rules| ::
                 after[i] == rules[i]
                 || (rules[i].status == Active && rules[i].id == id && after[i] == rules[i].(status := RolledBack))
  {
    if rules != [] && !(rules[0].id == id && rules[0].status == Active) {
      RollbackPointwise(rules[1..], id);
    }
  }

  /** Statuses only go from active to rolled back, and rules are never removed. */
  lemma StatusesOnlyEnd(links: seq<string>, rules: seq<Rule>, step: Step)
    ensures var after := Next(links, rules, step);
            && |rules| <= |after|
            && forall i | 0 <= i < |rules| ::
                 after[i] == rules[i] || (rules[i].status == Active && after[i] == rules[i].(status := RolledBack))
  {
    if step.Rollback? {
      RollbackPointwise(rules, step.id);
    }
  }

  lemma {:induction false} KnownRules(links: seq<string>, steps: seq<Step>)
    ensures forall i | 0 <= i < |Run(links, steps)| :: AppliedBy(steps, Run(links, steps)[i].id)
  {
    if steps != [] {
      var n := |steps| - 1;
      var before, after := Run(links, steps[..n]), Run(links, steps);
      KnownRules(links, steps[..n]);
      StatusesOnlyEnd(links, before, steps[n]);
      if steps[n].Rollback? {
        RollbackPointwise(before, steps[n].id);
      }
      forall i | 0 <= i < |after| ensures AppliedBy(steps, after[i].id) {
        if i < |before| {
          assert AppliedBy(steps[..n], before[i].id);
          var k :| 0 <= k < n && steps[..n][k].Apply? && steps[..n][k].rule.id == before[i].id;
          assert steps[k] == steps[..n][k] && after[i].id == before[i].id;
        } else {
          assert steps[n].Apply? && steps[n].rule.id == after[i].id;
        }
      }
    }
  }

  ghost predicate AppliedBy(steps: seq<Step>, id: string) {
    exists k :: 0 <= k < |steps| && steps[k].Apply? && steps[k].rule.id == id
  }

  lemma ApplyOk(links: seq<string>, rules: seq<Rule>, r: Rule)
    requires Ok(links, rules) && r.status == Active
    requires forall i | 0 <= i < |rules| :: rules[i].id != r.id
    ensures Ok(links, Applied(links, rules, r))
  {
    if Refusal(links, rules, r.source, r.target).None? {
      DivertingRuleIs(rules, r.source);
      forall i | 0 <= i < |rules| && rules[i].status == Active ensures rules[i].source != r.source {
        assert rules[i] in rules;
      }
    }
  }

  lemma RollbackOk(links: seq<string>, rules: seq<Rule>, id: string)
    requires Ok(links, rules)
    ensures Ok(links, RolledBackAt(rules, id))
  {
    RollbackPointwise(rules, id);
  }

  /** Every reachable state is in order. */
  lemma {:induction false} RunOk(links: seq<string>, steps: seq<Step>)
    requires FreshRules(steps)
    ensures Ok(links, Run(links, steps))
  {
    if steps != [] {
      var n := |steps| - 1;
      var init, before := steps[..n], Run(links, steps[..n]);
      RunOk(links, init);
      if steps[n].Rollback? {
        RollbackOk(links, before, steps[n].id);
      } else {
        KnownRules(links, init);
        forall i | 0 <= i < |before| ensures before[i].id != steps[n].rule.id {
          assert AppliedBy(init, before[i].id);
          var k :| 0 <= k < |init| && init[k].Apply? && init[k].rule.id == before[i].id;
          assert steps[k] == init[k];
        }
        ApplyOk(links, before, steps[n].rule);
      }
    }
  }

  /** Applying a rule and rolling it back leaves the active function as it was. */
  lemma ApplyThenRollback(links: seq<string>, rules: seq<Rule>, r: Rule)
    requires r.status == Active && forall i | 0 <= i < |rules| :: rules[i].id != r.id
    requires Refusal(links, rules, r.source, r.target).None?
    ensures ApplyAndRollback(links, rules, r) == rules + [r.(status := RolledBack)]
    ensures ActiveMap(ApplyAndRollback(links, rules, r)) == ActiveMap(rules)
  {
    RollbackLast(rules, r);
    InactiveLast(rules, r.(status := RolledBack));
  }

  lemma InactiveLast(rules: seq<Rule>, r: Rule)
    requires r.status == RolledBack
    ensures ActiveMap(rules + [r]) == ActiveMap(rules)
  {
    assert (rules + [r])[..|rules|] == rules;
  }

  function ApplyAndRollback(links: seq<string>, rules: seq<Rule>, r: Rule): seq<Rule> {
    Next(links, Next(links, rules, Apply(r)), Rollback(r.id))
  }

  lemma {:induction false} RollbackLast(rules: seq<Rule>, r: Rule)
    requires r.status == Active && forall i | 0 <= i < |rules| :: rules[i].id != r.id
    ensures RolledBackAt(rules + [r], r.id) == rules + [r.(status := RolledBack)]
  {
    var all := rules + [r];
    if rules != [] {
      RollbackLast(rules[1..], r);
      assert all[1..] == rules[1..] + [r];
      assert all[0] == rules[0];
    }
  }

  /** Two links can divert their traffic to each other. */
  lemma TwoCyclesPossible(a: string, b: string, r: Rule, s: Rule)
    requires a != b && r.status == Active && s.status == Active
    requires r.source == a && r.target == b && s.source == b && s.target == a
    ensures var rules := Run([a, b], [Apply(r), Apply(s)]);
            rules == [r, s] && ActiveMap(rules) == map[a := b, b := a]
  {
    var steps := [Apply(r), Apply(s)];
    FirstRule([a, b], r);
    assert steps[..1] == [Apply(r)];
    SecondRule([a, b], r, s);
    assert Run([a, b], steps) == Next([a, b], [r], Apply(s));
    assert ActiveMap([r, s]) == ActiveMap([r])[b := a] by {
      assert [r, s][..1] == [r];
    }
  }

  lemma FirstRule(links: seq<string>, r: Rule)
    requires r.status == Active && r.source != r.target && r.source in links && r.target in links
    ensures Run(links, [Apply(r)]) == [r] && ActiveMap([r]) == map[r.source := r.target]
  {
    assert [Apply(r)][..0] == [];
    assert [r][..0] == [];
  }

  lemma SecondRule(links: seq<string>, r: Rule, s: Rule)
    requires s.status == Active && s.source != s.target && s.source in links && s.target in links
    requires r.source != s.source
    ensures Next(links, [r], Apply(s)) == [r, s]
  {
    assert [r][1..] == [];
    assert DivertingRule([r], s.source) == None;
    assert [r] + [s] == [r, s];
  }
}
