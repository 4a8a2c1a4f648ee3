/** The numbered policies of server/traffic_shaper.py, and what creating and removing
    them by name pattern does to the policy list and to the operating system. */
module ShaperRules {
  import opened Text
  import opened OsRules

  /** What throttling needs of an app profile. */
  datatype AppProfile = AppProfile(ownProcess: bool, ipPrefixes: nat)

  datatype Action = ThrottleAction | PrioritizeAction

  datatype TrafficPolicy = TrafficPolicy(
    id: string, appName: string, action: Action, bandwidthKbps: int, createdBy: string,
    qosPolicyName: string, active: bool)

  const MAX_POLICIES := 100

  function Min(a: nat, b: nat): nat {
    if a <= b then a else b
  }

  // ----- the rules of one policy -----

  function PrefixPolicies(name: string, n: nat): Artifacts {
    set i | 0 <= i < n :: Artifact(QosPolicy, name + "-r" + Decimal(i))
  }

  /** resolved and resolvedAgain are the numbers of addresses the two name lookups
      of one throttle return. */
  function ThrottleArtifacts(name: string, p: AppProfile, resolved: nat, resolvedAgain: nat, kbps: int): Artifacts {
    var ips := Min(p.ipPrefixes, 5) + Min(resolvedAgain, 5);
    (if p.ownProcess then {Artifact(QosPolicy, name)} else {})
    + PrefixPolicies(name, Min(p.ipPrefixes, 5) + Min(resolved, 8))
    + (if ips > 0 then {Artifact(FirewallRule, name + "-quic")} else {})
    + (if kbps * 1000 <= 1000 && ips > 0 then {Artifact(FirewallRule, name + "-block")} else {})
  }

  /** a is one of the names a throttle numbered n of the app can create. */
  ghost predicate RuleOf(a: Artifact, app: string, n: nat) {
    exists suffix :: RuleNamed(a, app, n, suffix)
  }

  ghost predicate RuleNamed(a: Artifact, app: string, n: nat, suffix: string) {
    ShaperSuffix(suffix) && a.name == ShaperName(app, n) + suffix
  }

  lemma PrefixPolicyOwn(app: string, n: nat, count: nat, a: Artifact)
    requires a in PrefixPolicies(ShaperName(app, n), count)
    ensures RuleOf(a, app, n)
  {
    var name := ShaperName(app, n);
    var i :| 0 <= i < count && a == Artifact(QosPolicy, name + "-r" + Decimal(i));
    assert name + "-r" + Decimal(i) == name + ("-r" + Decimal(i));
    assert RuleNamed(a, app, n, "-r" + Decimal(i));
  }

  lemma ThrottleCreatesOwn(app: string, n: nat, p: AppProfile, resolved: nat, resolvedAgain: nat, kbps: int)
    ensures forall a | a in ThrottleArtifacts(ShaperName(app, n), p, resolved, resolvedAgain, kbps) :: RuleOf(a, app, n)
  {
    var name := ShaperName(app, n);
    forall a | a in ThrottleArtifacts(name, p, resolved, resolvedAgain, kbps) ensures RuleOf(a, app, n) {
      if a in PrefixPolicies(name, Min(p.ipPrefixes, 5) + Min(resolved, 8)) {
        PrefixPolicyOwn(app, n, Min(p.ipPrefixes, 5) + Min(resolved, 8), a);
      } else if a.name == name {
        assert name == name + "";
        assert RuleNamed(a, app, n, "");
      } else if a.name == name + "-quic" {
        assert RuleNamed(a, app, n, "-quic");
      } else {
        assert RuleNamed(a, app, n, "-block");
      }
    }
  }

  /** Which names a throttle creates: a policy of the policy's own name iff the app has a
      process of its own, one for each of up to 5 prefixes and 8 addresses, and, iff there
      is an address to name, the firewall rule against QUIC; the one that blocks comes on
      top for 1 kbps and less. */
  lemma ThrottleCreates(name: string, p: AppProfile, resolved: nat, resolvedAgain: nat, kbps: int)
    ensures var made := ThrottleArtifacts(name, p, resolved, resolvedAgain, kbps);
            && (Artifact(QosPolicy, name) in made <==> p.ownProcess)
            && (Artifact(FirewallRule, name + "-quic") in made <==> p.ipPrefixes + resolvedAgain > 0)
            && (Artifact(FirewallRule, name + "-block") in made <==> kbps <= 1 && p.ipPrefixes + resolvedAgain > 0)
    ensures forall i: nat ::
              PrefixPolicy(name, i) in ThrottleArtifacts(name, p, resolved, resolvedAgain, kbps) <==>
              i < Min(p.ipPrefixes, 5) + Min(resolved, 8)
  {
    var n := Min(p.ipPrefixes, 5) + Min(resolved, 8);
    assert (name + "-quic")[|name|..] == "-quic" && (name + "-block")[|name|..] == "-block";
    forall i: nat ensures PrefixPolicy(name, i) in PrefixPolicies(name, n) <==> i < n {
      PrefixPolicyIn(name, n, i);
    }
    forall i: nat ensures PrefixPolicy(name, i).name != name {
      assert |name + "-r" + Decimal(i)| > |name|;
    }
    forall a | a in PrefixPolicies(name, n) ensures a.kind == QosPolicy && a.name != name {
      var i :| 0 <= i < n && a == Artifact(QosPolicy, name + "-r" + Decimal(i));
      assert a == PrefixPolicy(name, i);
    }
  }

  function PrefixPolicy(name: string, i: nat): Artifact {
    Artifact(QosPolicy, name + "-r" + Decimal(i))
  }

  lemma PrefixPolicyIn(name: string, n: nat, i: nat)
    ensures PrefixPolicy(name, i) in PrefixPolicies(name, n) <==> i < n
  {
    if PrefixPolicy(name, i) in PrefixPolicies(name, n) {
      var j :| 0 <= j < n && PrefixPolicy(name, i) == Artifact(QosPolicy, name + "-r" + Decimal(j));
      assert (name + "-r" + Decimal(i))[|name| + 2..] == Decimal(i);
      assert (name + "-r" + Decimal(j))[|name| + 2..] == Decimal(j);
      DecimalInjective(i, j);
    }
    assert PrefixPolicy(name, i) == Artifact(QosPolicy, name + "-r" + Decimal(i));
  }

  // ----- removal -----

  /** _remove_qos_policies */
  function WithoutPattern(os: Artifacts, pattern: string): Artifacts {
    Without(Without(os, QosPolicy, pattern), FirewallRule, pattern)
  }

  /** Removing policy n of an app takes the rules of exactly those policies of that
      app whose number extends n, and nothing of the PW_ features. */
  lemma RemovalReaches(os: Artifacts, app: string, n: nat, a: Artifact, other: string, m: nat)
    requires AppKey(app) && AppKey(other) && RuleOf(a, other, m)
    ensures a in WithoutPattern(os, ShaperName(app, n)) <==> a in os && !(other == app && Extends(m, n))
  {
    var suffix :| RuleNamed(a, other, m, suffix);
    ShaperMatches(app, n, other, m, suffix);
  }

  lemma RemovalSparesOthers(os: Artifacts, app: string, n: nat, a: Artifact)
    requires Like(a.name, "PW_")
    ensures a in WithoutPattern(os, ShaperName(app, n)) <==> a in os
  {
    LikeSelf("PathWise-", app + "-" + Decimal(n));
    ShaperApart(a.name, ShaperName(app, n));
  }

  /** A rule belongs to one policy only. */
  lemma RuleOfOne(a: Artifact, app: string, n: nat, other: string, m: nat)
    requires AppKey(app) && AppKey(other) && RuleOf(a, app, n) && RuleOf(a, other, m)
    ensures app == other && n == m
  {
    var s, t: string :| RuleNamed(a, app, n, s) && RuleNamed(a, other, m, t);
    LikeSelf(ShaperName(app, n), s);
    LikeSelf(ShaperName(other, m), t);
    ShaperMatches(app, n, other, m, t);
    ShaperMatches(other, m, app, n, s);
    PrefixIffExtends(m, n);
    PrefixIffExtends(n, m);
    assert Decimal(m) <= Decimal(n) && Decimal(n) <= Decimal(m);
    DecimalInjective(m, n);
  }

  /** Every PathWise rule on the system is one of a numbered policy of some app. */
  ghost predicate AllNumbered(os: Artifacts) {
    forall a | a in os && Like(a.name, "PathWise-") :: exists k :: Belongs(a, k)
  }

  ghost predicate Belongs(a: Artifact, k: (string, nat)) {
    AppKey(k.0) && RuleOf(a, k.0, k.1)
  }

  ghost predicate HasRule(os: Artifacts, app: string, n: nat) {
    exists a :: a in os && RuleOf(a, app, n)
  }

  /** The removal takes rules of policy n only. */
  ghost predicate ExactRemoval(os: Artifacts, app: string, n: nat) {
    forall a | a in os && a !in WithoutPattern(os, ShaperName(app, n)) :: RuleOf(a, app, n)
  }

  /** Removal is exact iff no other policy of the app with rules on the system has a
      number that extends the removed one. */
  lemma RemovalExactIff(os: Artifacts, app: string, n: nat)
    requires AppKey(app) && AllNumbered(os)
    ensures ExactRemoval(os, app, n) <==> forall m: nat | HasRule(os, app, m) && Extends(m, n) :: m == n
  {
    if ExactRemoval(os, app, n) {
      forall m: nat | HasRule(os, app, m) && Extends(m, n) ensures m == n {
        var a :| a in os && RuleOf(a, app, m);
        RemovalReaches(os, app, n, a, app, m);
        RuleOfOne(a, app, n, app, m);
      }
    }
    if forall m: nat | HasRule(os, app, m) && Extends(m, n) :: m == n {
      forall a | a in os && a !in WithoutPattern(os, ShaperName(app, n)) ensures RuleOf(a, app, n) {
        MatchedIsShaper(a.name, app, n);
        var k :| Belongs(a, k);
        RemovalReaches(os, app, n, a, k.0, k.1);
        assert HasRule(os, app, k.1);
      }
    }
  }

  lemma MatchedIsShaper(name: string, app: string, n: nat)
    requires Like(name, ShaperName(app, n))
    ensures Like(name, "PathWise-")
  {
    LowerConcat("PathWise-", app + "-" + Decimal(n));
    var p, q := Lower("PathWise-"), Lower(ShaperName(app, n));
    assert p <= q && q <= Lower(name);
  }

  /** Number 12 extends number 1: removing the first policy of an app strips the
      twelfth. */
  lemma OneReachesTwelve(app: string, a: Artifact)
    requires AppKey(app) && RuleOf(a, app, 12)
    ensures a !in WithoutPattern({a}, ShaperName(app, 1)) && !RuleOf(a, app, 1)
  {
    assert DropDigits(12, 1) == DropDigits(1, 0) == 1;
    assert ExtendsBy(12, 1, 1);
    RemovalReaches({a}, app, 1, a, app, 12);
    if RuleOf(a, app, 1) {
      RuleOfOne(a, app, 1, app, 12);
    }
  }

  // ----- the policy list -----

  /** deque(maxlen=100) */
  function Appended(policies: seq<TrafficPolicy>, p: TrafficPolicy): seq<TrafficPolicy> {
    if |policies| < MAX_POLICIES then policies + [p] else policies[1..] + [p]
  }

  /** Every active policy of the app is deactivated. */
  function AppStopped(policies: seq<TrafficPolicy>, app: string): seq<TrafficPolicy> {
    seq(|policies|, i requires 0 <= i < |policies| =>
      if policies[i].appName == app && policies[i].active then policies[i].(active := false) else policies[i])
  }

  function AppCleared(policies: seq<TrafficPolicy>, app: string, os: Artifacts): Artifacts {
    if policies == [] then os
    else
      var (rest, last) := (AppCleared(policies[..|policies| - 1], app, os), policies[|policies| - 1]);
      if last.appName == app && last.active then WithoutPattern(rest, last.qosPolicyName) else rest
  }

  function IndexOfActive(policies: seq<TrafficPolicy>, id: string): (i: nat)
    ensures i <= |policies|
    ensures i < |policies| ==> policies[i].id == id && policies[i].active
    ensures forall j | 0 <= j < i :: !(policies[j].id == id && policies[j].active)
  {
    if policies == [] || (policies[0].id == id && policies[0].active) then 0
    else 1 + IndexOfActive(policies[1..], id)
  }

  /** The name a prioritize policy carries; no rule is ever created under it. */
  function PriorityName(app: string, n: nat): string {
    "PathWise-pri-" + app + "-" + Decimal(n)
  }
}
