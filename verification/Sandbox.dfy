/** The digital-twin gate of server/sandbox.py: run_sandbox_validation and its
    five stages over the two-node snapshot of a steering proposal. */
module Sandbox {
  import opened Text
  import opened Graph
  import opened LoopDetector

  datatype Criterion = EthType(ethType: string) | IpDscp(dscp: nat)

  datatype FlowBody = FlowBody(
    id: string,
    priority: int,
    timeout: int,
    isPermanent: bool,
    tableId: nat,
    port: string,
    criteria: seq<Criterion>,
    trafficClass: string)

  function LinkToNodeId(link: string): (id: Node)
    ensures id != ""
  {
    var n := Lower(link);
    if n == "fiber" || n == "fiber-primary" then "1"
    else if n == "broadband" || n == "broadband-secondary" then "2"
    else if n == "satellite" || n == "satellite-backup" then "3"
    else if n == "5g" || n == "5g-mobile" then "4"
    else if n == "wifi" then "5"
    else "1"
  }

  /** The link goes by its short or its full name, in any case. */
  predicate Called(link: string, short: string, full: string) {
    SameText(link, short) || SameText(link, full)
  }

  lemma CalledIs(link: string, short: string, full: string)
    requires Lower(short) == short && Lower(full) == full
    ensures Called(link, short, full) <==> Lower(link) == short || Lower(link) == full
  {
    LowerIs(link, short);
    LowerIs(link, full);
  }

  /** The node of every link name, and node 1 for any other text. */
  lemma NodesOfLinks(link: string)
    ensures Called(link, "broadband", "broadband-secondary") ==> LinkToNodeId(link) == "2"
    ensures Called(link, "satellite", "satellite-backup") ==> LinkToNodeId(link) == "3"
    ensures Called(link, "5g", "5g-mobile") ==> LinkToNodeId(link) == "4"
    ensures SameText(link, "wifi") ==> LinkToNodeId(link) == "5"
    ensures || LinkToNodeId(link) == "1" || Called(link, "broadband", "broadband-secondary")
            || Called(link, "satellite", "satellite-backup") || Called(link, "5g", "5g-mobile")
            || SameText(link, "wifi")
    ensures Called(link, "fiber", "fiber-primary") ==> LinkToNodeId(link) == "1"
  {
    FixedNames();
    CalledIs(link, "fiber", "fiber-primary");
    CalledIs(link, "broadband", "broadband-secondary");
    CalledIs(link, "satellite", "satellite-backup");
    CalledIs(link, "5g", "5g-mobile");
    CalledIs(link, "wifi", "wifi");
  }

  lemma FixedNames()
    ensures Lower("fiber") == "fiber" && Lower("fiber-primary") == "fiber-primary"
    ensures Lower("broadband") == "broadband" && Lower("broadband-secondary") == "broadband-secondary"
    ensures Lower("satellite") == "satellite" && Lower("satellite-backup") == "satellite-backup"
    ensures Lower("5g") == "5g" && Lower("5g-mobile") == "5g-mobile" && Lower("wifi") == "wifi"
  {
    LowerFixed("fiber");
    LowerFixed("fiber-primary");
    LowerFixed("broadband");
    LowerFixed("broadband-secondary");
    LowerFixed("satellite");
    LowerFixed("satellite-backup");
    LowerFixed("5g");
    LowerFixed("5g-mobile");
    LowerFixed("wifi");
  }

  function BuildTopologySnapshot(source: string, target: string): Topology {
    var (s, d) := (LinkToNodeId(source), LinkToNodeId(target));
    Topology([TopologyNode(s, source), TopologyNode(d, target)], [Link(s, d)])
  }

  datatype Check = Check(name: string, passed: bool)

  /** SANDBOX_MODE, with what the remote services answer in mininet mode: None is
      an unreachable Mininet server; an unreachable Batfish counts as a pass. */
  datatype Mode = Memory | Mininet(server: Option<bool>, batfish: Option<bool>)

  datatype Report = Report(passed: bool, checks: seq<Check>)

  function StageTopologySnapshot(t: Topology): Check {
    Check("topology_snapshot", t.nodes != [])
  }

  function StagePolicyCompliance(body: FlowBody): Check {
    Check("policy_compliance", 0 < body.priority <= 65535)
  }

  function StageReachabilityMemory(t: Topology, target: string): Check {
    Check("reachability", LinkToNodeId(target) in NodeIds(t))
  }

  function StagePerformanceImpact(body: FlowBody): Check {
    Check("performance_impact", true)
  }

  function BatfishAnalysis(answer: Option<bool>): Check {
    Check("batfish_analysis", answer == None || answer.value)
  }

  /** The two links name different switches of the reference topology. */
  predicate DifferentNodes(source: string, target: string) {
    LinkToNodeId(source) != LinkToNodeId(target)
  }

  /** What a pass means, in either mode. */
  predicate Accepts(mode: Mode, source: string, target: string, priority: int) {
    && 0 < priority <= 65535
    && match mode
       case Memory => DifferentNodes(source, target)
       case Mininet(server, batfish) =>
         && (if server.Some? then server.value else DifferentNodes(source, target))
         && (batfish.Some? ==> batfish.value)
  }

  /** In mininet mode an unreachable Batfish never rejects, and without either server the
      verdict is that of memory mode. */
  lemma UnreachableServers(source: string, target: string, priority: int, server: Option<bool>)
    ensures Accepts(Mininet(server, None), source, target, priority) ==
            Accepts(Mininet(server, Some(true)), source, target, priority)
    ensures !Accepts(Mininet(server, Some(false)), source, target, priority)
    ensures Accepts(Mininet(None, None), source, target, priority) == Accepts(Memory, source, target, priority)
  {
  }

  /** A walk of three nodes over one link returns to where it started. */
  lemma OneLinkHasNoCycle(s: Node, d: Node, c: seq<Node>)
    requires s != d
    ensures !IsCycle([Link(s, d)], c)
  {
    var links := [Link(s, d)];
    if |c| >= 3 && IsWalk(links, c) {
      assert Joined(links, c[0], c[1]) && Joined(links, c[1], c[2]);
      assert c[0] == c[2];
    }
  }

  /** The snapshot has one link, so its only possible loop is a self-loop. */
  lemma SnapshotLoop(source: string, target: string)
    ensures LoopFound(BuildTopologySnapshot(source, target)) <==> !DifferentNodes(source, target)
  {
    var t := BuildTopologySnapshot(source, target);
    var (s, d) := (LinkToNodeId(source), LinkToNodeId(target));
    assert t.nodes[0] in t.nodes;
    if s == d {
      assert LeadsToCycle(t.links, NodeIds(t), [s], [s]);
    } else {
      forall c ensures !IsCycle(t.links, c) {
        OneLinkHasNoCycle(s, d, c);
      }
    }
  }

  method StageLoopDetectionMemory(t: Topology) returns (check: Check)
    requires "" !in NodeIds(t) + Endpoints(t.links)
    ensures check == Check("loop_detection", !LoopFound(t))
  {
    var loopFound := DetectLoop(t);
    check := Check("loop_detection", !loopFound);
  }

  method StageLoopDetection(source: string, target: string, t: Topology, mode: Mode) returns (check: Check)
    requires t == BuildTopologySnapshot(source, target)
    ensures check.name == "loop_detection"
    ensures check.passed <==> if mode.Mininet? && mode.server.Some? then mode.server.value
                              else DifferentNodes(source, target)
  {
    SnapshotLoop(source, target);
    if mode.Mininet? && mode.server.Some? {
      return Check("loop_detection", mode.server.value);
    }
    check := StageLoopDetectionMemory(t);
  }

  /** The target is always one of the snapshot's two nodes. */
  lemma TargetInSnapshot(source: string, target: string)
    ensures StageReachabilityMemory(BuildTopologySnapshot(source, target), target).passed
  {
    var t := BuildTopologySnapshot(source, target);
    assert t.nodes[1] in t.nodes;
  }

  predicate AllPassed(checks: seq<Check>) {
    forall c | c in checks :: c.passed
  }

  lemma AllPassedAppend(checks: seq<Check>, c: Check)
    ensures AllPassed(checks + [c]) <==> AllPassed(checks) && c.passed
  {
    assert c in checks + [c];
    assert forall d | d in checks :: d in checks + [c];
  }

  method RunSandboxValidation(source: string, target: string, body: FlowBody, mode: Mode)
      returns (report: Report)
    ensures report.passed <==> Accepts(mode, source, target, body.priority)
    ensures |report.checks| == 5 && (report.passed <==> AllPassed(report.checks))
    ensures report.checks[0] == Check("topology_snapshot", true) && report.checks[1].name == "loop_detection"
    ensures mode.Memory? ==>
              && report.checks[1].passed == DifferentNodes(source, target)
              && report.checks[3] == Check("reachability", true)
    ensures report.checks[2] == Check("policy_compliance", 0 < body.priority <= 65535)
    ensures mode.Mininet? ==> report.checks[3] == Check("batfish_analysis", mode.batfish != Some(false))
    ensures report.checks[4] == Check("performance_impact", true)
  {
    var topology := BuildTopologySnapshot(source, target);
    TargetInSnapshot(source, target);
    var first := StageTopologySnapshot(topology);
    AllPassedAppend([], first);
    var checks := [] + [first];
    var loopCheck := StageLoopDetection(source, target, topology, mode);
    AllPassedAppend(checks, loopCheck);
    checks := checks + [loopCheck];
    AllPassedAppend(checks, StagePolicyCompliance(body));
    checks := checks + [StagePolicyCompliance(body)];
    var reachability := if mode.Mininet? then BatfishAnalysis(mode.batfish)
                        else StageReachabilityMemory(topology, target);
    AllPassedAppend(checks, reachability);
    checks := checks + [reachability];
    AllPassedAppend(checks, StagePerformanceImpact(body));
    checks := checks + [StagePerformanceImpact(body)];
    report := Report(AllPassed(checks), checks);
  }
}
