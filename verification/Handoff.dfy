/** Hitless handoff of server/routing.py: the sandbox verdict decides whether the
    session table and the flow tables may change. */
module Handoff {
  import opened Text
  import opened Sandbox
  import opened SessionTable
  import opened SessionManager
  import opened SdnAdapter

  function PriorityForClass(trafficClass: string): int {
    if trafficClass == "voip" then 65535
    else if trafficClass == "video" then 50000
    else if trafficClass == "critical" then 45000
    else if trafficClass == "bulk" then 10000
    else 20000
  }

  function DscpForClass(trafficClass: string): nat {
    if trafficClass == "voip" then 46
    else if trafficClass == "video" then 34
    else if trafficClass == "critical" then 26
    else 0
  }

  function ResolveNodeId(link: string): string {
    var n := Lower(link);
    if n == "fiber" || n == "fiber-primary" then "openflow:1"
    else if n == "broadband" || n == "broadband-secondary" then "openflow:2"
    else if n == "satellite" || n == "satellite-backup" then "openflow:3"
    else if n == "5g" || n == "5g-mobile" then "openflow:4"
    else if n == "wifi" then "openflow:5"
    else "openflow:1"
  }

  /** The switch of every link name, short or full and in any case. */
  lemma SwitchesOfLinks(link: string)
    ensures Called(link, "fiber", "fiber-primary") ==> ResolveNodeId(link) == "openflow:1"
    ensures Called(link, "broadband", "broadband-secondary") ==> ResolveNodeId(link) == "openflow:2"
    ensures Called(link, "satellite", "satellite-backup") ==> ResolveNodeId(link) == "openflow:3"
    ensures Called(link, "5g", "5g-mobile") ==> ResolveNodeId(link) == "openflow:4"
    ensures SameText(link, "wifi") ==> ResolveNodeId(link) == "openflow:5"
  {
    FixedNames();
    CalledIs(link, "fiber", "fiber-primary");
    CalledIs(link, "broadband", "broadband-secondary");
    CalledIs(link, "satellite", "satellite-backup");
    CalledIs(link, "5g", "5g-mobile");
    CalledIs(link, "wifi", "wifi");
  }

  /** The handoff's table of switches and the gate's table of nodes are one: two links
      share a switch iff the gate takes them for one node. */
  lemma SwitchesFollowNodes(a: string, b: string)
    ensures ResolveNodeId(a) == "openflow:" + LinkToNodeId(a)
    ensures ResolveNodeId(a) == ResolveNodeId(b) <==> !DifferentNodes(a, b)
  {
    var (x, y) := (LinkToNodeId(a), LinkToNodeId(b));
    assert ResolveNodeId(a) == "openflow:" + x && ResolveNodeId(b) == "openflow:" + y;
    assert ("openflow:" + x)[9..] == x && ("openflow:" + y)[9..] == y;
  }

  /** Traffic classes by importance; a class of no name of its own lies between. */
  function ClassRank(trafficClass: string): nat {
    if trafficClass == "voip" then 4
    else if trafficClass == "video" then 3
    else if trafficClass == "critical" then 2
    else if trafficClass == "bulk" then 0
    else 1
  }

  /** Flow priorities follow that order, within what the gate lets pass, and so do the
      code points of the three marked classes; the others are best effort. */
  lemma ClassesOrdered(a: string, b: string)
    ensures ClassRank(a) < ClassRank(b) <==> PriorityForClass(a) < PriorityForClass(b)
    ensures 0 < PriorityForClass(a) <= 65535
    ensures ClassRank(a) >= 2 ==> (DscpForClass(b) < DscpForClass(a) <==> ClassRank(b) < ClassRank(a))
    ensures DscpForClass(a) == 0 <==> ClassRank(a) < 2
    ensures PriorityForClass("voip") == 65535 && PriorityForClass("bulk") == 10000 && DscpForClass("voip") == 46
  {
  }

  /** A voice flow to the broadband link. */
  lemma VoiceFlow(flowId: string)
    ensures BuildFlowBody("broadband-secondary", "voip", flowId, 30) ==
            FlowBody(flowId, 65535, 30, false, 0, "broadband-secondary", [EthType("0x0800"), IpDscp(46)], "voip")
    ensures BuildFlowBody("wifi", "bulk", flowId, 0) ==
            FlowBody(flowId, 10000, 0, true, 0, "wifi", [EthType("0x0800"), IpDscp(0)], "bulk")
  {
  }

  function BuildFlowBody(target: string, trafficClass: string, flowId: string, timeout: int): FlowBody {
    FlowBody(flowId, PriorityForClass(trafficClass), timeout, timeout == 0, 0, target,
             [EthType("0x0800"), IpDscp(DscpForClass(trafficClass))], trafficClass)
  }

  datatype Outcome =
    | SandboxRejected(report: Report)
    | Executed(success: bool, node: string, report: Report, handoff: HandoffResult)

  /** What follows acceptance: the sessions move whatever the installation then does. */
  method MoveAndInstall(sm: SessionManager, adapter: SDNControllerAdapter, source: string, target: string,
                        body: FlowBody, now: int, odl: OdlReply, onos: OnosReply)
      returns (ok: bool, handoff: HandoffResult)
    requires sm.Valid()
    modifies sm`sessions, sm`handoffHistory, sm.repr, adapter
    ensures sm.Valid() && sm.Contents() == AfterHandoff(old(sm.Contents()), source, target, now)
    ensures sm.handoffHistory == old(sm.handoffHistory) + [handoff] && handoff.preserved
    ensures adapter.Value() == AfterUpdate(old(adapter.Value()), ResolveNodeId(target), body.id, body, 0, odl, onos)
    ensures ok <==> UpdateSucceeds(adapter.controllerType, odl, onos)
  {
    handoff := sm.MigrateSessions(source, target, now);
    ok := adapter.UpdateFlowTable(ResolveNodeId(target), body.id, body, 0, odl, onos);
  }

  /** A failed installation leaves the rollback map alone. */
  lemma FailureLeavesMap(s: State, node: string, flowId: string, body: FlowBody, table: nat,
                         odl: OdlReply, onos: OnosReply)
    requires !UpdateSucceeds(s.controllerType, odl, onos)
    ensures AfterUpdate(s, node, flowId, body, table, odl, onos).installedFlows == s.installedFlows
  {
  }

  /** What the gate's verdict says of a handoff in memory mode. */
  lemma GateSeparates(source: string, target: string, trafficClass: string)
    ensures Accepts(Memory, source, target, PriorityForClass(trafficClass)) <==> DifferentNodes(source, target)
    ensures DifferentNodes(source, target) ==> source != target && ResolveNodeId(target) != ResolveNodeId(source)
  {
    SwitchesFollowNodes(source, target);
  }

  /** The flow of an accepted handoff, and the map it leaves. */
  method InstallAccepted(sm: SessionManager, adapter: SDNControllerAdapter, source: string, target: string,
                         body: FlowBody, now: int, odl: OdlReply, onos: OnosReply, report: Report)
      returns (outcome: Outcome)
    requires sm.Valid()
    modifies sm`sessions, sm`handoffHistory, sm.repr, adapter
    ensures sm.Valid() && outcome.Executed? && outcome.node == ResolveNodeId(target)
    ensures sm.Contents() == AfterHandoff(old(sm.Contents()), source, target, now)
    ensures sm.handoffHistory == old(sm.handoffHistory) + [outcome.handoff] && outcome.handoff.preserved
    ensures adapter.Value() == AfterUpdate(old(adapter.Value()), ResolveNodeId(target), body.id, body, 0, odl, onos)
    ensures outcome.success <==> UpdateSucceeds(adapter.controllerType, odl, onos)
    ensures !outcome.success ==> adapter.installedFlows == old(adapter.installedFlows)
  {
    ghost var before := adapter.Value();
    var ok, handoff := MoveAndInstall(sm, adapter, source, target, body, now, odl, onos);
    if !ok {
      FailureLeavesMap(before, ResolveNodeId(target), body.id, body, 0, odl, onos);
    }
    return Executed(ok, ResolveNodeId(target), report, handoff);
  }

  /** Rejected handoffs change nothing. Accepted ones join different links in memory
      mode, so the table keeps every active session; the sessions have moved even
      when the flow installation then fails. */
  method ExecuteHitlessHandoff(
      sm: SessionManager, adapter: SDNControllerAdapter,
      source: string, target: string, trafficClass: string, flowId: string,
      timeout: int, mode: Mode, now: int, odl: OdlReply, onos: OnosReply)
      returns (outcome: Outcome)
    requires sm.Valid()
    modifies sm`sessions, sm`handoffHistory, sm.repr, adapter
    ensures sm.Valid()
    ensures outcome.Executed? <==> Accepts(mode, source, target, PriorityForClass(trafficClass))
    ensures mode.Memory? ==> (outcome.Executed? <==> DifferentNodes(source, target))
    ensures mode.Memory? && outcome.Executed? ==> source != target && outcome.node != ResolveNodeId(source)
    ensures outcome.Executed? ==> outcome.node == ResolveNodeId(target)
    ensures outcome.SandboxRejected? ==>
              && sm.sessions == old(sm.sessions) && sm.Contents() == old(sm.Contents())
              && sm.handoffHistory == old(sm.handoffHistory)
              && adapter.Value() == old(adapter.Value())
    ensures outcome.Executed? ==>
              && sm.Contents() == AfterHandoff(old(sm.Contents()), source, target, now)
              && sm.handoffHistory == old(sm.handoffHistory) + [outcome.handoff]
              && outcome.handoff.preserved
              && adapter.Value() == AfterUpdate(old(adapter.Value()), ResolveNodeId(target), flowId,
                                                BuildFlowBody(target, trafficClass, flowId, timeout), 0, odl, onos)
              && (outcome.success <==> UpdateSucceeds(adapter.controllerType, odl, onos))
    ensures outcome.Executed? && !outcome.success ==> adapter.installedFlows == old(adapter.installedFlows)
  {
    var body := BuildFlowBody(target, trafficClass, flowId, timeout);
    GateSeparates(source, target, trafficClass);
    var report := RunSandboxValidation(source, target, body, mode);
    if !report.passed {
      return SandboxRejected(report);
    }
    outcome := InstallAccepted(sm, adapter, source, target, body, now, odl, onos, report);
  }

  method RollbackHandoff(adapter: SDNControllerAdapter, flowId: string, deleted: bool) returns (done: bool)
    modifies adapter
    ensures adapter.Value() == AfterRollback(old(adapter.Value()), flowId, deleted)
    ensures done <==> flowId in old(adapter.installedFlows) && deleted
  {
    var asked;
    done, asked := adapter.RollbackFlow(flowId, deleted);
  }

  // ----- runs through the gate -----

  /** A step of a run in which every handoff has to pass the gate in memory mode. */
  predicate Admitted(step: Step) {
    step.Handoff? ==> DifferentNodes(step.source, step.target)
  }

  type Step = SessionTable.Step

  function GatedRun(steps: seq<Step>): seq<Step> {
    if steps == [] then []
    else GatedRun(steps[..|steps| - 1]) + (if Admitted(steps[|steps| - 1]) then [steps[|steps| - 1]] else [])
  }

  lemma GatedStep(steps: seq<Step>)
    requires steps != []
    ensures var (g, last) := (GatedRun(steps[..|steps| - 1]), steps[|steps| - 1]);
            GatedRun(steps) == if Admitted(last) then g + [last] else g
  {
    assert GatedRun(steps[..|steps| - 1]) + [] == GatedRun(steps[..|steps| - 1]);
  }

  lemma RegisteredAppend(steps: seq<Step>, step: Step, id: string)
    ensures RegisteredIn(steps + [step], id) <==> RegisteredIn(steps, id) || (step.Register? && step.id == id)
  {
    var all := steps + [step];
    assert all[|steps|] == step && forall i | 0 <= i < |steps| :: all[i] == steps[i];
  }

  /** The gate stops no registration. */
  lemma {:induction false} GateKeepsRegistrations(steps: seq<Step>, id: string)
    ensures RegisteredIn(GatedRun(steps), id) <==> RegisteredIn(steps, id)
  {
    if steps != [] {
      var (init, last) := (steps[..|steps| - 1], steps[|steps| - 1]);
      GateKeepsRegistrations(init, id);
      GatedStep(steps);
      assert steps == init + [last];
      RegisteredAppend(init, last, id);
      RegisteredAppend(GatedRun(init), last, id);
    }
  }

  lemma {:induction false} GatedFresh(steps: seq<Step>)
    requires FreshIds(steps)
    ensures FreshIds(GatedRun(steps))
  {
    if steps != [] {
      var (init, last) := (steps[..|steps| - 1], steps[|steps| - 1]);
      assert forall i | 0 <= i < |init| :: init[i] == steps[i];
      GatedFresh(init);
      GatedStep(steps);
      if last.Register? {
        GateKeepsRegistrations(init, last.id);
        assert !RegisteredIn(GatedRun(init), last.id);
      }
    }
  }

  /** The admitted handoffs that found the session on the list of their source. */
  function Hops(steps: seq<Step>, id: string): nat {
    if steps == [] then 0
    else
      var (init, last) := (steps[..|steps| - 1], steps[|steps| - 1]);
      Hops(init, id)
      + if last.Handoff? && Admitted(last) && id in Ids(On(SessionTable.Run(GatedRun(init)), last.source)) then 1 else 0
  }

  lemma CostAppend(steps: seq<Step>, step: Step, id: string)
    ensures Cost(steps + [step], id) ==
            Cost(steps, id)
            + if step.Handoff? && id in Ids(On(SessionTable.Run(steps), step.source))
              then (if step.source == step.target then 2 else 1) else 0
  {
    assert (steps + [step])[..|steps|] == steps;
  }

  /** What passes the gate joins different links, so each hop costs one. */
  lemma {:induction false} HopsCost(steps: seq<Step>, id: string)
    ensures Hops(steps, id) == Cost(GatedRun(steps), id)
  {
    if steps != [] {
      var (init, last) := (steps[..|steps| - 1], steps[|steps| - 1]);
      HopsCost(init, id);
      GatedStep(steps);
      CostAppend(GatedRun(init), last, id);
    }
  }

  /** After any run behind the gate the table holds exactly the registered sessions
      that at most one admitted handoff has found: the gate supplies the different
      links that migration needs and never checks. */
  lemma GatedLifetime(steps: seq<Step>, id: string)
    requires FreshIds(steps)
    ensures id in TrackedIds(SessionTable.Run(GatedRun(steps))) <==> RegisteredIn(steps, id) && Hops(steps, id) < 2
  {
    GatedFresh(steps);
    GateKeepsRegistrations(steps, id);
    HopsCost(steps, id);
    SessionLifetime(GatedRun(steps), id);
  }
}
