/** Deployment of a parsed intent: the second half of server/ibn_engine.py, from
    ParsedIntent to the flow table, behind the same sandbox gate. */
module IntentDeploy {
  import opened Text
  import opened Intents
  import opened Sandbox
  import opened SdnAdapter
  import Handoff

  function OrElse(a: Option<string>, b: string): string {
    if a.Some? then a.value else b
  }

  function DefaultSourceFor(target: string): (source: string)
    ensures source != target
  {
    if target == "fiber-primary" then "broadband-secondary" else "fiber-primary"
  }

  function TargetOf(p: ParsedIntent): string {
    OrElse(p.targetLink, OrElse(p.preferredLink, "broadband-secondary"))
  }

  function SourceOf(p: ParsedIntent): string {
    var target := TargetOf(p);
    var source := OrElse(p.sourceLink, DefaultSourceFor(target));
    if source == target then DefaultSourceFor(target) else source
  }

  function YangPriority(action: IntentAction): int {
    match action
    case Prioritize | PrioritizeApp | PrioritizeOver => 65000
    case Block => 0
    case Redirect => 50000
    case Deprioritize | ThrottleApp => 10000
    case _ => 20000
  }

  function DscpForAction(trafficClasses: seq<string>): nat {
    if trafficClasses == [] then 0
    else if trafficClasses[0] == "voip" then 46
    else if trafficClasses[0] == "video" then 34
    else if trafficClasses[0] == "critical" then 26
    else 0
  }

  function NodeForTarget(target: string): string {
    if target == "broadband-secondary" then "openflow:2"
    else if target == "satellite-backup" then "openflow:3"
    else if target == "5g-mobile" then "openflow:4"
    else if target == "wifi" then "openflow:5"
    else "openflow:1"
  }

  function IntentFlow(p: ParsedIntent, flowId: string): FlowBody {
    var dscp := DscpForAction(p.trafficClasses);
    FlowBody(flowId, YangPriority(p.action), 0, true, 0, TargetOf(p),
             [EthType("0x0800")] + (if dscp != 0 then [IpDscp(dscp)] else []),
             if p.trafficClasses == [] then "bulk" else p.trafficClasses[0])
  }

  datatype Outcome =
    | EmptyCommand
    | ParseFailed
    | SandboxRejected(report: Report)
    | Submitted(success: bool, report: Report)

  /** The links the parser's alias table can produce. */
  predicate Canonical(link: string) {
    link == "fiber-primary" || link == "broadband-secondary" || link == "satellite-backup" || link == "5g-mobile"
  }

  predicate CanonicalIntent(p: ParsedIntent) {
    && (p.targetLink.Some? ==> Canonical(p.targetLink.value))
    && (p.preferredLink.Some? ==> Canonical(p.preferredLink.value))
    && (p.sourceLink.Some? ==> Canonical(p.sourceLink.value))
  }

  /** The engine's own table of switches and the gate's agree on the canonical links. */
  lemma CanonicalNode(link: string)
    requires Canonical(link)
    ensures LinkToNodeId(link) == if link == "fiber-primary" then "1"
                                  else if link == "broadband-secondary" then "2"
                                  else if link == "satellite-backup" then "3" else "4"
    ensures NodeForTarget(link) == "openflow:" + LinkToNodeId(link)
  {
    LowerFixed(link);
  }

  predicate FullName(link: string) {
    Canonical(link) || link == "wifi"
  }

  /** On any other link, in particular one that goes by a short name, the tables agree
      iff the gate takes it for node 1: the engine's table knows full names only. */
  lemma NodeTablesAgreeIff(link: string)
    ensures NodeForTarget(link) == "openflow:" + LinkToNodeId(link) <==> FullName(link) || LinkToNodeId(link) == "1"
  {
    if Canonical(link) {
      CanonicalNode(link);
    } else if link == "wifi" {
      LowerFixed(link);
    } else {
      assert NodeForTarget(link)[9..] == "1";
      assert ("openflow:" + LinkToNodeId(link))[9..] == LinkToNodeId(link);
    }
  }

  /** The flow leads to the link the intent names as its target, else to the one it
      prefers, else to broadband; its source is the one the intent names, unless that is
      the target. */
  lemma FlowFollowsIntent(p: ParsedIntent, flowId: string)
    ensures var port := IntentFlow(p, flowId).port;
            && port == TargetOf(p)
            && (p.targetLink.Some? ==> port == p.targetLink.value)
            && (p.targetLink.None? && p.preferredLink.Some? ==> port == p.preferredLink.value)
            && (p.targetLink.None? && p.preferredLink.None? ==> port == "broadband-secondary")
    ensures p.sourceLink.Some? && p.sourceLink.value != TargetOf(p) ==> SourceOf(p) == p.sourceLink.value
    ensures SourceOf(p) != TargetOf(p)
    ensures IntentFlow(p, flowId).id == flowId && IntentFlow(p, flowId).isPermanent
  {
  }

  /** It is marked like a handoff of the intent's first traffic class, and unmarked where
      that is best effort. */
  lemma FlowMarked(p: ParsedIntent, flowId: string)
    ensures var flow := IntentFlow(p, flowId);
            && (p.trafficClasses != [] ==> flow.trafficClass == p.trafficClasses[0])
            && (p.trafficClasses == [] ==> flow.trafficClass == "bulk")
            && flow.criteria ==
                 if Handoff.DscpForClass(flow.trafficClass) != 0
                 then [EthType("0x0800"), IpDscp(Handoff.DscpForClass(flow.trafficClass))] else [EthType("0x0800")]
  {
  }

  /** Flow priorities: prioritize above redirect, that above the plain actions, those
      above the ones that hold back, and nothing for block. */
  function ActionRank(a: IntentAction): nat {
    match a
    case Prioritize | PrioritizeApp | PrioritizeOver => 4
    case Redirect => 3
    case EnsureLatency | EnsureJitter | EnsureLoss | EnsureBandwidth | SelectiveDegrade => 2
    case Deprioritize | ThrottleApp => 1
    case Block => 0
  }

  lemma ActionsOrdered(a: IntentAction, b: IntentAction)
    ensures ActionRank(a) < ActionRank(b) <==> YangPriority(a) < YangPriority(b)
    ensures YangPriority(Prioritize) == 65000 && YangPriority(Redirect) == 50000 && YangPriority(EnsureLatency) == 20000
    ensures YangPriority(Deprioritize) == 10000 && YangPriority(Block) == 0
  {
  }

  /** The gate stops an intent exactly when it blocks, or when its links share a
      switch; links from the alias table never do. */
  lemma GateForIntents(p: ParsedIntent)
    ensures Accepts(Memory, SourceOf(p), TargetOf(p), YangPriority(p.action)) <==>
            p.action != Block && DifferentNodes(SourceOf(p), TargetOf(p))
    ensures SourceOf(p) != TargetOf(p)
    ensures CanonicalIntent(p) ==>
              DifferentNodes(SourceOf(p), TargetOf(p)) && NodeForTarget(TargetOf(p)) != NodeForTarget(SourceOf(p))
  {
    if CanonicalIntent(p) {
      CanonicalNode(SourceOf(p));
      CanonicalNode(TargetOf(p));
    }
  }

  /** parse is what parse_intent makes of the command: None is a parse error. */
  method DeployIntent(adapter: SDNControllerAdapter, command: string, parse: Option<ParsedIntent>,
                      flowId: string, mode: Mode, odl: OdlReply, onos: OnosReply) returns (outcome: Outcome)
    modifies adapter
    ensures outcome.EmptyCommand? <==> command == ""
    ensures outcome.ParseFailed? <==> command != "" && parse.None?
    ensures outcome.Submitted? <==>
              && command != "" && parse.Some?
              && Accepts(mode, SourceOf(parse.value), TargetOf(parse.value), YangPriority(parse.value.action))
    ensures command != "" && parse.Some? && CanonicalIntent(parse.value) && mode.Memory? ==>
              (outcome.Submitted? <==> parse.value.action != Block)
    ensures !outcome.Submitted? ==> adapter.Value() == old(adapter.Value())
    ensures outcome.Submitted? ==>
              && adapter.Value() == AfterUpdate(old(adapter.Value()), NodeForTarget(TargetOf(parse.value)), flowId,
                                                IntentFlow(parse.value, flowId), 0, odl, onos)
              && (outcome.success <==> UpdateSucceeds(adapter.controllerType, odl, onos))
  {
    if command == "" {
      return EmptyCommand;
    }
    if parse.None? {
      return ParseFailed;
    }
    var p := parse.value;
    GateForIntents(p);
    var body := IntentFlow(p, flowId);
    var report := RunSandboxValidation(SourceOf(p), TargetOf(p), body, mode);
    if !report.passed {
      return SandboxRejected(report);
    }
    var ok := adapter.UpdateFlowTable(NodeForTarget(TargetOf(p)), flowId, body, 0, odl, onos);
    return Submitted(ok, report);
  }
}
