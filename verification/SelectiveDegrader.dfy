/** server/app_qos/selective_degrader.py: rules are started, stopped and swept in
    place. SelectiveRules says what each operation does. */
module SelectiveDegrader {
  import opened Text
  import opened OsRules
  import opened SelectiveRules

  datatype StartError = NoValidIps | TooManyIps | BadMode | BadDuration | BadRate

  datatype StartResult = Accepted(rule: SelectiveRule) | Rejected(error: StartError)

  /** The first check of start_rule that fails; ips are those that validated. */
  function Refusal(ips: seq<string>, mode: string, durationS: int, throttleKbps: Option<int>): Option<StartError> {
    if ips == [] then Some(NoValidIps)
    else if |ips| > MAX_IPS_PER_RULE then Some(TooManyIps)
    else if mode != "block" && mode != "throttle" then Some(BadMode)
    else if durationS < MIN_DURATION_S || durationS > MAX_DURATION_S then Some(BadDuration)
    else if mode == "throttle" && (throttleKbps.None? || throttleKbps.value < MIN_THROTTLE_KBPS) then Some(BadRate)
    else None
  }

  /** A rule is accepted iff it has 1 to 32 valid addresses, a known mode, a duration of 5
      seconds to an hour, and, for a throttle, a rate of at least 32. */
  lemma AcceptedIff(ips: seq<string>, mode: string, durationS: int, throttleKbps: Option<int>)
    ensures Refusal(ips, mode, durationS, throttleKbps).None? <==>
              && 1 <= |ips| <= 32 && (mode == "block" || mode == "throttle") && 5 <= durationS <= 3600
              && (mode == "throttle" ==> throttleKbps.Some? && throttleKbps.value >= 32)
    ensures Refusal(ips, mode, durationS, throttleKbps) == Some(NoValidIps) <==> ips == []
    ensures Refusal(ips, mode, durationS, throttleKbps) == Some(TooManyIps) <==> |ips| > 32
    ensures Refusal(ips, mode, durationS, throttleKbps) == Some(BadMode) <==>
              1 <= |ips| <= 32 && mode != "block" && mode != "throttle"
    ensures Refusal(ips, mode, durationS, throttleKbps) == Some(BadRate) ==>
              mode == "throttle" && 5 <= durationS <= 3600
  {
  }

  function CountV4(ips: seq<string>): nat {
    if ips == [] then 0 else CountV4(ips[..|ips| - 1]) + (if IsV6(ips[|ips| - 1]) then 0 else 1)
  }

  lemma {:induction false} CountV4Is(ips: seq<string>)
    ensures CountV4(ips) <= |ips|
    ensures CountV4(ips) > 0 <==> exists ip :: ip in ips && !IsV6(ip)
    ensures CountV4(ips) < |ips| <==> exists ip :: ip in ips && IsV6(ip)
  {
    if ips != [] {
      var n := |ips| - 1;
      CountV4Is(ips[..n]);
      assert ips == ips[..n] + [ips[n]];
      assert ips[n] in ips;
    }
  }

  /** The counter counts one command for all of a block's IPv6 addresses, but two for
      each IPv4 address, though those share two rules as well. */
  function CommandsFor(r: SelectiveRule): nat {
    match r.mode
    case Block => 2 * CountV4(r.ips) + (if CountV4(r.ips) < |r.ips| then 1 else 0)
    case Throttle => |r.ips|
  }

  ghost function V4At(ips: seq<string>): set<nat> {
    set i: nat | i < |ips| && ':' !in ips[i]
  }

  lemma {:induction false} CountV4Counts(ips: seq<string>)
    ensures CountV4(ips) == |V4At(ips)|
  {
    if ips == [] {
      assert V4At(ips) == {};
    } else {
      var rest, last := ips[..|ips| - 1], ips[|ips| - 1];
      CountV4Counts(rest);
      OneMoreV4(rest, last);
      assert ips == rest + [last];
    }
  }

  lemma OneMoreV4(rest: seq<string>, ip: string)
    ensures |V4At(rest + [ip])| == |V4At(rest)| + (if ':' in ip then 0 else 1)
  {
    assert V4At(rest + [ip]) == V4At(rest) + (if ':' in ip then {} else {|rest|});
    assert |rest| !in V4At(rest);
  }

  lemma CommandsAre(r: SelectiveRule)
    ensures r.mode == Throttle ==> CommandsFor(r) == |r.ips|
    ensures r.mode == Block ==>
              CommandsFor(r) == 2 * |V4At(r.ips)| + (if exists ip :: ip in r.ips && ':' in ip then 1 else 0)
  {
    CountV4Counts(r.ips);
    CountV4Is(r.ips);
    assert (exists ip :: ip in r.ips && IsV6(ip)) <==> (exists ip :: ip in r.ips && ':' in ip);
  }

  class SelectiveDegrader {
    const live: bool
    const os: Os
    var rules: seq<SelectiveRule>

    constructor (live: bool, os: Os)
      ensures this.live == live && this.os == os && rules == []
    {
      this.live, this.os, rules := live, os, [];
    }

    ghost function Value(): World
      reads this, os
    {
      World(live, rules, os.artifacts)
    }

    method StartRule(ips: seq<string>, mode: string, durationS: int, throttleKbps: Option<int>,
                     appId: Option<string>, reason: string, id: string, now: real) returns (result: StartResult)
      modifies this, os
      ensures result.Rejected? <==> Refusal(ips, mode, durationS, throttleKbps).Some?
      ensures result.Rejected? ==> Refusal(ips, mode, durationS, throttleKbps) == Some(result.error)
      ensures result.Rejected? ==> Value() == old(Value())
      ensures result.Accepted? ==>
                var r := result.rule;
                && Value() == Started(old(Value()), r)
                && Bounded(r) && r.active && r.id == id && r.ips == ips && r.startedAt == now
                && r.durationS == durationS && (r.mode == Block <==> mode == "block") && r.appId == appId
                && r.reason == reason && (r.mode == Throttle ==> r.throttleKbps == throttleKbps)
                && (live ==> r.commandsRun == CommandsFor(r)) && (!live ==> r.commandsRun == 0)
    {
      if ips == [] {
        return Rejected(NoValidIps);
      }
      if |ips| > MAX_IPS_PER_RULE {
        return Rejected(TooManyIps);
      }
      if mode != "block" && mode != "throttle" {
        return Rejected(BadMode);
      }
      if durationS < MIN_DURATION_S || durationS > MAX_DURATION_S {
        return Rejected(BadDuration);
      }
      if mode == "throttle" {
        if throttleKbps.None? || throttleKbps.value < MIN_THROTTLE_KBPS {
          return Rejected(BadRate);
        }
      }
      var rule := SelectiveRule(id, appId, ips, if mode == "block" then Block else Throttle,
                                if mode == "throttle" then throttleKbps else None,
                                now, durationS, now + durationS as real, reason, true, 0);
      var commandsRun := 0;
      if live {
        commandsRun := ApplyWindows(rule);
      }
      rule := rule.(commandsRun := commandsRun);
      rules := rules + [rule];
      return Accepted(rule);
    }

    method ApplyWindows(rule: SelectiveRule) returns (commandsRun: nat)
      modifies os
      ensures os.artifacts == old(os.artifacts) + RuleArtifacts(rule)
      ensures commandsRun == CommandsFor(rule)
    {
      if rule.mode == Block {
        var v4 := CountV4(rule.ips);
        CountV4Is(rule.ips);
        if v4 > 0 {
          os.Create(FirewallRule, SelName(FirewallRule, rule.id, "TCP4"));
          os.Create(FirewallRule, SelName(FirewallRule, rule.id, "UDP4"));
        }
        if v4 < |rule.ips| {
          os.Create(FirewallRule, SelName(FirewallRule, rule.id, "TCP6"));
        }
        return v4 * 2 + (if v4 < |rule.ips| then 1 else 0);
      }
      commandsRun := ApplyThrottle(rule);
    }

    method ApplyThrottle(rule: SelectiveRule) returns (commandsRun: nat)
      requires rule.mode == Throttle
      modifies os
      ensures os.artifacts == old(os.artifacts) + RuleArtifacts(rule)
      ensures commandsRun == |rule.ips|
    {
      commandsRun := 0;
      for idx := 0 to |rule.ips|
        invariant commandsRun == idx
        invariant os.artifacts == old(os.artifacts) + ThrottlePolicies(rule.id, idx)
      {
        OneMorePolicy(rule.id, idx);
        os.Create(QosPolicy, SelName(QosPolicy, rule.id, Decimal(idx)));
        commandsRun := commandsRun + 1;
      }
    }

    method Deactivate(i: nat)
      requires i < |rules|
      modifies this, os
      ensures Value() == Deactivated(old(Value()), i)
    {
      var id := rules[i].id;
      if live {
        os.RemoveLike(FirewallRule, SelName(FirewallRule, id, ""));
        os.RemoveLike(QosPolicy, SelName(QosPolicy, id, ""));
      }
      rules := rules[i := rules[i].(active := false)];
    }

    method StopRule(id: string) returns (stopped: bool)
      modifies this, os
      ensures Value() == Stopped(old(Value()), id)
      ensures stopped <==> var i := IndexOf(old(rules), id); i < |old(rules)| && old(rules)[i].active
    {
      var i := IndexOf(rules, id);
      if i == |rules| || !rules[i].active {
        return false;
      }
      Deactivate(i);
      return true;
    }

    /** The loop of stop_all, and of one turn of the sweeper. */
    method EndRules(cut: Cutoff) returns (count: nat)
      modifies this, os
      ensures Value() == Ended(old(Value()), cut, |old(rules)|)
      ensures |rules| == |old(rules)|
      ensures forall j | 0 <= j < |rules| ::
                rules[j] == old(rules)[j].(active := old(rules)[j].active && cut.Elapsed?
                                                     && cut.now < old(rules)[j].expiresAt)
      ensures count == |ActiveAt(old(rules)) - ActiveAt(rules)|
    {
      count := 0;
      ghost var before := Value();
      for i := 0 to |rules|
        invariant |rules| == |before.rules|
        invariant Value() == Ended(before, cut, i)
        invariant count == CountDue(before.rules, cut, i)
      {
        EndedPrefix(before, cut, i);
        assert rules[i] == before.rules[i];
        if Due(rules[i], cut) {
          Deactivate(i);
          count := count + 1;
        }
      }
      EndedPrefix(before, cut, |before.rules|);
      EndedCount(before.rules, rules, cut);
    }
  }

  /** The places of the active rules. */
  ghost function ActiveAt(rules: seq<SelectiveRule>): set<nat> {
    set i: nat | i < |rules| && rules[i].active
  }

  ghost function DueAt(rules: seq<SelectiveRule>, cut: Cutoff, n: nat): set<nat>
    requires n <= |rules|
  {
    set i: nat | i < n && Due(rules[i], cut)
  }

  lemma OneMoreDue(rules: seq<SelectiveRule>, cut: Cutoff, k: nat)
    requires k < |rules|
    ensures DueAt(rules, cut, k + 1) == DueAt(rules, cut, k) + (if Due(rules[k], cut) then {k} else {})
    ensures |DueAt(rules, cut, k + 1)| == |DueAt(rules, cut, k)| + (if Due(rules[k], cut) then 1 else 0)
  {
    assert DueAt(rules, cut, k + 1) == DueAt(rules, cut, k) + (if Due(rules[k], cut) then {k} else {});
    assert k !in DueAt(rules, cut, k);
  }

  lemma {:induction false} CountDueIs(rules: seq<SelectiveRule>, cut: Cutoff, n: nat)
    requires n <= |rules|
    ensures CountDue(rules, cut, n) == |DueAt(rules, cut, n)|
  {
    if n == 0 {
      assert DueAt(rules, cut, 0) == {};
    } else {
      var k := n - 1;
      CountDueIs(rules, cut, k);
      OneMoreDue(rules, cut, k);
    }
  }

  lemma EndedCount(before: seq<SelectiveRule>, after: seq<SelectiveRule>, cut: Cutoff)
    requires |after| == |before|
    requires forall j | 0 <= j < |after| :: after[j].active <==> before[j].active && !Due(before[j], cut)
    ensures CountDue(before, cut, |before|) == |ActiveAt(before) - ActiveAt(after)|
  {
    CountDueIs(before, cut, |before|);
    assert ActiveAt(before) - ActiveAt(after) == DueAt(before, cut, |before|);
  }

  function CountDue(rules: seq<SelectiveRule>, cut: Cutoff, n: nat): nat
    requires n <= |rules|
  {
    if n == 0 then 0 else CountDue(rules, cut, n - 1) + (if Due(rules[n - 1], cut) then 1 else 0)
  }
}
