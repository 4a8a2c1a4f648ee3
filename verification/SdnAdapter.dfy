/** The SDN adapter of server/sdn_adapter.py: flow installation on OpenDaylight,
    ONOS or both, and one-click rollback. The controllers' replies are inputs; a
    refused or failed request changes no flow table. */
module SdnAdapter {
  import opened Text
  import opened Sandbox

  datatype ControllerType = Odl | Onos | Both

  /** The flow tables of the two controllers. */
  datatype Network = Network(odl: OdlFlows, onos: OnosFlows)

  type OdlFlows = map<(string, nat, string), FlowBody>  // by node, table and flow id

  type OnosFlows = map<(string, string), FlowBody>      // by device and assigned id

  datatype Entry =
    | OnOdl(node: string, table: nat)
    | OnOnos(node: string, table: nat, assignedId: string)

  datatype OdlReply = Accepted | Refused | Raised

  /** flowIds are those of a 200 or 201 response. */
  datatype OnosReply = Created(flowIds: seq<string>) | Declined | Failed

  datatype State = State(
    controllerType: ControllerType, installedFlows: map<string, Entry>, network: Network)

  predicate UsesOdl(c: ControllerType) { c == Odl || c == Both }

  predicate UsesOnos(c: ControllerType) { c == Onos || c == Both }

  /** The id that is truthy in the source: present and not empty. */
  function AssignedId(reply: OnosReply): Option<string> {
    if reply.Created? && reply.flowIds != [] && reply.flowIds[0] != "" then Some(reply.flowIds[0]) else None
  }

  function AfterOdl(s: State, node: string, flowId: string, body: FlowBody, table: nat, reply: OdlReply): State {
    if UsesOdl(s.controllerType) && reply == Accepted then
      s.(network := s.network.(odl := s.network.odl[(node, table, flowId) := body]),
         installedFlows := s.installedFlows[flowId := OnOdl(node, table)])
    else s
  }

  function AfterOnos(s: State, node: string, flowId: string, body: FlowBody, table: nat, reply: OnosReply): State {
    if UsesOnos(s.controllerType) && reply.Created? && reply.flowIds != [] then
      var stored := s.(network := s.network.(onos := s.network.onos[(node, reply.flowIds[0]) := body]));
      if AssignedId(reply).Some?
      then stored.(installedFlows := s.installedFlows[flowId := OnOnos(node, table, reply.flowIds[0])])
      else stored
    else s
  }

  function AfterUpdate(s: State, node: string, flowId: string, body: FlowBody, table: nat,
                       odl: OdlReply, onos: OnosReply): State {
    AfterOnos(AfterOdl(s, node, flowId, body, table, odl), node, flowId, body, table, onos)
  }

  predicate UpdateSucceeds(c: ControllerType, odl: OdlReply, onos: OnosReply) {
    (UsesOdl(c) && odl == Accepted) || (UsesOnos(c) && AssignedId(onos).Some?)
  }

  /** An installation succeeds iff it leaves a record of the flow, which names the node
      and the last controller that took it. */
  lemma SuccessIsRecorded(s: State, node: string, flowId: string, body: FlowBody, table: nat,
                          odl: OdlReply, onos: OnosReply)
    requires flowId !in s.installedFlows
    ensures var after := AfterUpdate(s, node, flowId, body, table, odl, onos).installedFlows;
            && (UpdateSucceeds(s.controllerType, odl, onos) <==> flowId in after)
            && (flowId in after ==>
                  after == s.installedFlows[flowId := if s.controllerType != Odl && AssignedId(onos).Some?
                                                      then OnOnos(node, table, AssignedId(onos).value)
                                                      else OnOdl(node, table)])
  {
    var after := AfterUpdate(s, node, flowId, body, table, odl, onos).installedFlows;
    assert flowId in after ==> after == s.installedFlows[flowId := after[flowId]];
  }

  /** The id is the first one listed, unless that is empty. */
  lemma AssignedIdIs(ids: seq<string>)
    ensures ids == [] || ids[0] == "" ==> AssignedId(Created(ids)) == None
    ensures ids != [] && ids[0] != "" ==> AssignedId(Created(ids)) == Some(ids[0])
    ensures AssignedId(Declined) == AssignedId(Failed) == None
  {
  }

  /** The entry is forgotten before the controller is asked to delete the flow. */
  function AfterRollback(s: State, flowId: string, deleted: bool): State {
    if flowId !in s.installedFlows then s
    else
      var entry := s.installedFlows[flowId];
      var popped := s.(installedFlows := s.installedFlows - {flowId});
      if !deleted then popped
      else match entry
        case OnOdl(node, table) =>
          popped.(network := s.network.(odl := s.network.odl - {(node, table, flowId)}))
        case OnOnos(node, _, assignedId) =>
          popped.(network := s.network.(onos := s.network.onos - {(node, assignedId)}))
  }

  class SDNControllerAdapter {
    const controllerType: ControllerType
    var installedFlows: map<string, Entry>
    var network: Network

    constructor (controllerType: ControllerType, network: Network)
      ensures Value() == State(controllerType, map[], network)
    {
      this.controllerType, installedFlows, this.network := controllerType, map[], network;
    }

    ghost function Value(): State
      reads this
    {
      State(controllerType, installedFlows, network)
    }

    method UpdateFlowTable(node: string, flowId: string, body: FlowBody, table: nat, odl: OdlReply, onos: OnosReply)
        returns (success: bool)
      modifies this
      ensures Value() == AfterUpdate(old(Value()), node, flowId, body, table, odl, onos)
      ensures success <==> UpdateSucceeds(controllerType, odl, onos)
    {
      success := false;
      if controllerType == Odl || controllerType == Both {
        if odl != Raised {
          success := odl == Accepted;
          if success {
            network := network.(odl := network.odl[(node, table, flowId) := body]);
            installedFlows := installedFlows[flowId := OnOdl(node, table)];
          }
        }
      }
      if controllerType == Onos || controllerType == Both {
        if onos.Created? && onos.flowIds != [] {
          network := network.(onos := network.onos[(node, onos.flowIds[0]) := body]);
          if onos.flowIds[0] != "" {
            success := true;
            installedFlows := installedFlows[flowId := OnOnos(node, table, onos.flowIds[0])];
          }
        }
      }
    }

    /** asked tells whether a controller was called at all; a second rollback never is. */
    method RollbackFlow(flowId: string, deleted: bool) returns (done: bool, asked: bool)
      modifies this
      ensures Value() == AfterRollback(old(Value()), flowId, deleted)
      ensures asked <==> flowId in old(installedFlows)
      ensures flowId !in installedFlows
      ensures done <==> asked && deleted
    {
      if flowId !in installedFlows {
        return false, false;
      }
      var entry := installedFlows[flowId];
      installedFlows := installedFlows - {flowId};
      if deleted {
        match entry {
          case OnOdl(node, table) =>
            network := network.(odl := network.odl - {(node, table, flowId)});
          case OnOnos(node, _, assignedId) =>
            network := network.(onos := network.onos - {(node, assignedId)});
        }
      }
      return deleted, true;
    }
  }

  // ----- what rollback undoes -----

  /** Nothing is recorded or stored yet under the ids an installation will use. */
  predicate FreshFor(s: State, node: string, flowId: string, table: nat, onos: OnosReply) {
    && flowId !in s.installedFlows
    && (node, table, flowId) !in s.network.odl
    && (onos.Created? && onos.flowIds != [] ==> (node, onos.flowIds[0]) !in s.network.onos)
  }

  /** With one controller, install then rollback restores everything. */
  lemma RollbackUndoesInstall(s: State, node: string, flowId: string, body: FlowBody, table: nat,
                              odl: OdlReply, onos: OnosReply)
    requires s.controllerType != Both && FreshFor(s, node, flowId, table, onos)
    requires UpdateSucceeds(s.controllerType, odl, onos)
    ensures AfterRollback(AfterUpdate(s, node, flowId, body, table, odl, onos), flowId, true) == s
  {
    var s1 := AfterUpdate(s, node, flowId, body, table, odl, onos);
    assert s1.installedFlows - {flowId} == s.installedFlows;
    if s.controllerType == Odl {
      assert s1.network.odl - {(node, table, flowId)} == s.network.odl;
    } else {
      assert s1.network.onos - {(node, onos.flowIds[0])} == s.network.onos;
    }
  }

  /** ONOS has stored the flow under an empty id, which the adapter takes for none. */
  predicate StoredUnnamed(onos: OnosReply) {
    onos.Created? && onos.flowIds != [] && onos.flowIds[0] == ""
  }

  /** With both controllers the OpenDaylight copy of the flow stays behind when both
      installations succeeded. Rollback restores everything iff they did not, and ONOS
      has not stored the flow without naming it. */
  lemma RollbackInBothMode(s: State, node: string, flowId: string, body: FlowBody, table: nat,
                           odl: OdlReply, onos: OnosReply)
    requires s.controllerType == Both && FreshFor(s, node, flowId, table, onos)
    requires UpdateSucceeds(Both, odl, onos)
    ensures var after := AfterRollback(AfterUpdate(s, node, flowId, body, table, odl, onos), flowId, true);
            && (odl == Accepted && AssignedId(onos).Some? ==>
                  after == s.(network := s.network.(odl := s.network.odl[(node, table, flowId) := body])))
            && (after == s <==> !(odl == Accepted && AssignedId(onos).Some?) && !StoredUnnamed(onos))
  {
    var s1 := AfterUpdate(s, node, flowId, body, table, odl, onos);
    assert s1.installedFlows - {flowId} == s.installedFlows;
    if AssignedId(onos).Some? {
      assert s1.network.onos - {(node, onos.flowIds[0])} == s.network.onos;
      assert (node, table, flowId) in s1.network.odl <==> odl == Accepted;
    } else {
      assert s1.network.odl - {(node, table, flowId)} == s.network.odl;
      assert StoredUnnamed(onos) ==> (node, "") in s1.network.onos;
    }
  }
}
