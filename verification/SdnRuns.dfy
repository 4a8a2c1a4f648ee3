/** Runs of the SDN adapter of server/sdn_adapter.py: which flows can be rolled back, and
    which copies the controllers hold, told of the steps alone. Flow ids may repeat: a
    caller can choose them (server/routing.py:67). */
module SdnRuns {
  import opened Text
  import opened Sandbox
  import opened SdnAdapter

  datatype Step =
    | Install(node: string, flowId: string, body: FlowBody, table: nat, odl: OdlReply, onos: OnosReply)
    | Rollback(flowId: string, deleted: bool)

  function Apply(s: State, step: Step): State {
    match step
    case Install(node, flowId, body, table, odl, onos) => AfterUpdate(s, node, flowId, body, table, odl, onos)
    case Rollback(flowId, deleted) => AfterRollback(s, flowId, deleted)
  }

  /** A run from empty controllers. */
  function Run(c: ControllerType, steps: seq<Step>): State {
    if steps == [] then State(c, map[], Network(map[], map[]))
    else Apply(Run(c, steps[..|steps| - 1]), steps[|steps| - 1])
  }

  // ----- what one installation comes to -----

  predicate IsInstall(steps: seq<Step>, i: int) {
    0 <= i < |steps| && steps[i].Install?
  }

  predicate PutsOdl(c: ControllerType, step: Step) {
    step.Install? && UsesOdl(c) && step.odl == Accepted
  }

  /** ONOS stores the flow and names it. */
  predicate PutsOnos(c: ControllerType, step: Step) {
    step.Install? && UsesOnos(c) && AssignedId(step.onos).Some?
  }

  function OdlKey(step: Step): (string, nat, string)
    requires step.Install?
  {
    (step.node, step.table, step.flowId)
  }

  function OnosKey(c: ControllerType, step: Step): (string, string)
    requires PutsOnos(c, step)
  {
    (step.node, AssignedId(step.onos).value)
  }

  /** What is recorded of a flow that has been installed. */
  function EntryOf(c: ControllerType, step: Step): Entry
    requires step.Install?
  {
    if PutsOnos(c, step) then OnOnos(step.node, step.table, AssignedId(step.onos).value)
    else OnOdl(step.node, step.table)
  }

  /** The step ends the record that an earlier installation of the flow has made. */
  predicate Touches(c: ControllerType, id: string, step: Step) {
    step.flowId == id && (step.Install? ==> PutsOdl(c, step) || PutsOnos(c, step))
  }

  function FirstTouch(c: ControllerType, id: string, later: seq<Step>): Option<Step> {
    if later == [] then None
    else if Touches(c, id, later[0]) then Some(later[0])
    else FirstTouch(c, id, later[1..])
  }

  /** The step that ended the record of installation i, if one did. */
  function Ending(c: ControllerType, steps: seq<Step>, i: int): Option<Step>
    requires IsInstall(steps, i)
  {
    FirstTouch(c, steps[i].flowId, steps[i + 1..])
  }

  predicate Deletes(step: Step) {
    step.Rollback? && step.deleted
  }

  /** Installation i can still be rolled back. */
  predicate Live(c: ControllerType, steps: seq<Step>, i: int) {
    IsInstall(steps, i) && (PutsOdl(c, steps[i]) || PutsOnos(c, steps[i])) && Ending(c, steps, i).None?
  }

  /** It has been rolled back, and the controller on record deleted the flow. */
  predicate RolledBack(c: ControllerType, steps: seq<Step>, i: int)
    requires IsInstall(steps, i)
  {
    Ending(c, steps, i).Some? && Deletes(Ending(c, steps, i).value)
  }

  /** A later installation has put another flow body in its place on OpenDaylight. */
  predicate Overwritten(c: ControllerType, steps: seq<Step>, i: int)
    requires IsInstall(steps, i)
  {
    exists j :: i < j < |steps| && PutsOdl(c, steps[j]) && OdlKey(steps[j]) == OdlKey(steps[i])
  }

  /** OpenDaylight holds what installation i put there. A rollback deletes it only if
      ONOS had not named the flow. */
  predicate OdlHolds(c: ControllerType, steps: seq<Step>, i: int) {
    && IsInstall(steps, i) && PutsOdl(c, steps[i]) && !Overwritten(c, steps, i)
    && (PutsOnos(c, steps[i]) || !RolledBack(c, steps, i))
  }

  predicate OnosHolds(c: ControllerType, steps: seq<Step>, i: int) {
    IsInstall(steps, i) && PutsOnos(c, steps[i]) && !RolledBack(c, steps, i)
  }

  // ----- one more step -----

  lemma {:induction false} FirstTouchAppend(c: ControllerType, id: string, later: seq<Step>, step: Step)
    ensures FirstTouch(c, id, later + [step]) ==
            if FirstTouch(c, id, later).Some? then FirstTouch(c, id, later)
            else if Touches(c, id, step) then Some(step) else None
  {
    if later == [] {
      assert later + [step] == [step] && [step][1..] == [];
    } else {
      FirstTouchAppend(c, id, later[1..], step);
      assert (later + [step])[0] == later[0] && (later + [step])[1..] == later[1..] + [step];
    }
  }

  lemma {:induction false} TouchFound(c: ControllerType, id: string, later: seq<Step>, k: nat)
    requires k < |later| && Touches(c, id, later[k])
    ensures FirstTouch(c, id, later).Some?
  {
    if !Touches(c, id, later[0]) {
      TouchFound(c, id, later[1..], k - 1);
    }
  }

  /** A record that has ended stays ended. */
  lemma EndingAppend(c: ControllerType, steps: seq<Step>, step: Step, i: nat)
    requires IsInstall(steps, i)
    ensures var all := steps + [step];
            && IsInstall(all, i) && all[i] == steps[i]
            && Ending(c, all, i) ==
               if Ending(c, steps, i).Some? then Ending(c, steps, i)
               else if Touches(c, steps[i].flowId, step) then Some(step) else None
  {
    assert (steps + [step])[i + 1..] == steps[i + 1..] + [step];
    FirstTouchAppend(c, steps[i].flowId, steps[i + 1..], step);
  }

  lemma OverwrittenAppend(c: ControllerType, steps: seq<Step>, step: Step, i: nat)
    requires IsInstall(steps, i)
    ensures var all := steps + [step];
            && IsInstall(all, i)
            && (Overwritten(c, all, i) <==>
                  Overwritten(c, steps, i) || (PutsOdl(c, step) && OdlKey(step) == OdlKey(steps[i])))
  {
    var all := steps + [step];
    assert all[|steps|] == step && forall j | 0 <= j < |steps| :: all[j] == steps[j];
    if Overwritten(c, steps, i) {
      var j :| i < j < |steps| && PutsOdl(c, steps[j]) && OdlKey(steps[j]) == OdlKey(steps[i]);
      assert all[j] == steps[j];
    }
  }

  /** What a step does to an earlier installation. */
  lemma Later(c: ControllerType, steps: seq<Step>, step: Step, i: nat)
    requires IsInstall(steps, i)
    ensures var (all, inst) := (steps + [step], steps[i]);
            && all[i] == inst
            && (Live(c, all, i) <==> Live(c, steps, i) && !Touches(c, inst.flowId, step))
            && (OdlHolds(c, all, i) <==>
                  && OdlHolds(c, steps, i) && !(PutsOdl(c, step) && OdlKey(step) == OdlKey(inst))
                  && !(Live(c, steps, i) && !PutsOnos(c, inst) && Deletes(step) && step.flowId == inst.flowId))
            && (OnosHolds(c, all, i) <==>
                  OnosHolds(c, steps, i) && !(Live(c, steps, i) && Deletes(step) && step.flowId == inst.flowId))
  {
    EndingAppend(c, steps, step, i);
    OverwrittenAppend(c, steps, step, i);
  }

  /** What it does as an installation itself. */
  lemma Newest(c: ControllerType, steps: seq<Step>, step: Step)
    ensures var (all, n) := (steps + [step], |steps|);
            && all[n] == step
            && (Live(c, all, n) <==> PutsOdl(c, step) || PutsOnos(c, step))
            && (OdlHolds(c, all, n) <==> PutsOdl(c, step))
            && (OnosHolds(c, all, n) <==> PutsOnos(c, step))
  {
    var all, n := steps + [step], |steps|;
    assert all[n + 1..] == [];
  }

  /** A live installation has not been overwritten. */
  lemma LiveHolds(c: ControllerType, steps: seq<Step>, i: nat)
    requires Live(c, steps, i)
    ensures PutsOdl(c, steps[i]) ==> OdlHolds(c, steps, i)
    ensures PutsOnos(c, steps[i]) ==> OnosHolds(c, steps, i)
  {
    if Overwritten(c, steps, i) {
      var j :| i < j < |steps| && PutsOdl(c, steps[j]) && OdlKey(steps[j]) == OdlKey(steps[i]);
      assert steps[i + 1..][j - i - 1] == steps[j];
      TouchFound(c, steps[i].flowId, steps[i + 1..], j - i - 1);
    }
  }

  // ----- the tables and the map mirror the installations -----

  ghost predicate Recorded(s: State, c: ControllerType, steps: seq<Step>) {
    && (forall i | Live(c, steps, i) :: RecordedAs(s, c, steps[i]))
    && (forall id | id in s.installedFlows :: SomeLive(c, steps, id))
  }

  predicate RecordedAs(s: State, c: ControllerType, step: Step)
    requires step.Install?
  {
    step.flowId in s.installedFlows && s.installedFlows[step.flowId] == EntryOf(c, step)
  }

  ghost predicate SomeLive(c: ControllerType, steps: seq<Step>, id: string) {
    exists i :: Live(c, steps, i) && steps[i].flowId == id
  }

  predicate StoredOdl(odl: OdlFlows, step: Step)
    requires step.Install?
  {
    OdlKey(step) in odl && odl[OdlKey(step)] == step.body
  }

  ghost predicate SomeOdl(c: ControllerType, steps: seq<Step>, k: (string, nat, string)) {
    exists i :: OdlHolds(c, steps, i) && OdlKey(steps[i]) == k
  }

  ghost predicate OdlMirrors(odl: OdlFlows, c: ControllerType, steps: seq<Step>) {
    && (forall i | OdlHolds(c, steps, i) :: StoredOdl(odl, steps[i]))
    && (forall k | k in odl :: SomeOdl(c, steps, k))
  }

  predicate StoredOnos(onos: OnosFlows, c: ControllerType, step: Step)
    requires PutsOnos(c, step)
  {
    OnosKey(c, step) in onos && onos[OnosKey(c, step)] == step.body
  }

  ghost predicate SomeOnos(c: ControllerType, steps: seq<Step>, k: (string, string)) {
    exists i :: OnosHolds(c, steps, i) && OnosKey(c, steps[i]) == k
  }

  /** An empty assigned id counts as none, and no installation answers for it. */
  ghost predicate OnosMirrors(onos: OnosFlows, c: ControllerType, steps: seq<Step>) {
    && (forall i | OnosHolds(c, steps, i) :: StoredOnos(onos, c, steps[i]))
    && (forall k | k in onos && k.1 != "" :: SomeOnos(c, steps, k))
  }

  /** The rollback map lists exactly the live installations, and the controllers hold
      exactly what the installations and their endings account for. */
  ghost predicate Mirrors(s: State, c: ControllerType, steps: seq<Step>) {
    && s.controllerType == c && Recorded(s, c, steps)
    && OdlMirrors(s.network.odl, c, steps) && OnosMirrors(s.network.onos, c, steps)
  }

  /** The controller never names two flows of a device alike. */
  ghost predicate OnosNamesOnce(c: ControllerType, steps: seq<Step>) {
    forall i, j | 0 <= i < j < |steps| && PutsOnos(c, steps[i]) && PutsOnos(c, steps[j]) ::
      OnosKey(c, steps[i]) != OnosKey(c, steps[j])
  }

  // ----- installation -----

  function OdlAfterInstall(odl: OdlFlows, c: ControllerType, step: Step): OdlFlows
    requires step.Install?
  {
    if PutsOdl(c, step) then odl[OdlKey(step) := step.body] else odl
  }

  function OnosAfterInstall(onos: OnosFlows, c: ControllerType, step: Step): OnosFlows
    requires step.Install?
  {
    if UsesOnos(c) && step.onos.Created? && step.onos.flowIds != []
    then onos[(step.node, step.onos.flowIds[0]) := step.body] else onos
  }

  lemma InstallTables(s: State, step: Step)
    requires step.Install?
    ensures Apply(s, step).network.odl == OdlAfterInstall(s.network.odl, s.controllerType, step)
    ensures Apply(s, step).network.onos == OnosAfterInstall(s.network.onos, s.controllerType, step)
    ensures Apply(s, step).controllerType == s.controllerType
  {
  }

  lemma InstallEntry(s: State, step: Step)
    requires step.Install?
    ensures Apply(s, step).installedFlows ==
            if Touches(s.controllerType, step.flowId, step)
            then s.installedFlows[step.flowId := EntryOf(s.controllerType, step)] else s.installedFlows
  {
  }

  lemma InstallRecorded(s: State, c: ControllerType, steps: seq<Step>, step: Step)
    requires s.controllerType == c && Recorded(s, c, steps) && step.Install?
    ensures Recorded(Apply(s, step), c, steps + [step])
  {
    var all, s' := steps + [step], Apply(s, step);
    InstallEntry(s, step);
    Newest(c, steps, step);
    forall i | Live(c, all, i) ensures RecordedAs(s', c, all[i]) {
      if i < |steps| {
        Later(c, steps, step, i);
      }
    }
    forall id | id in s'.installedFlows ensures SomeLive(c, all, id) {
      if Touches(c, id, step) {
        assert Live(c, all, |steps|);
      } else {
        var i :| Live(c, steps, i) && steps[i].flowId == id;
        Later(c, steps, step, i);
        assert Live(c, all, i);
      }
    }
  }

  lemma InstallOdl(odl: OdlFlows, c: ControllerType, steps: seq<Step>, step: Step)
    requires OdlMirrors(odl, c, steps) && step.Install?
    ensures OdlMirrors(OdlAfterInstall(odl, c, step), c, steps + [step])
  {
    var all, odl' := steps + [step], OdlAfterInstall(odl, c, step);
    Newest(c, steps, step);
    forall i | OdlHolds(c, all, i) ensures StoredOdl(odl', all[i]) {
      if i < |steps| {
        Later(c, steps, step, i);
      }
    }
    forall k | k in odl' ensures SomeOdl(c, all, k) {
      if PutsOdl(c, step) && k == OdlKey(step) {
        assert OdlHolds(c, all, |steps|);
      } else {
        var i :| OdlHolds(c, steps, i) && OdlKey(steps[i]) == k;
        Later(c, steps, step, i);
        assert OdlHolds(c, all, i);
      }
    }
  }

  lemma InstallOnos(onos: OnosFlows, c: ControllerType, steps: seq<Step>, step: Step)
    requires OnosMirrors(onos, c, steps) && step.Install? && OnosNamesOnce(c, steps + [step])
    ensures OnosMirrors(OnosAfterInstall(onos, c, step), c, steps + [step])
  {
    var all, onos' := steps + [step], OnosAfterInstall(onos, c, step);
    Newest(c, steps, step);
    forall i | OnosHolds(c, all, i) ensures StoredOnos(onos', c, all[i]) {
      if i < |steps| {
        Later(c, steps, step, i);
        assert PutsOnos(c, all[|steps|]) ==> OnosKey(c, all[i]) != OnosKey(c, all[|steps|]);
      }
    }
    forall k | k in onos' && k.1 != "" ensures SomeOnos(c, all, k) {
      if PutsOnos(c, step) && k == OnosKey(c, step) {
        assert OnosHolds(c, all, |steps|);
      } else {
        var i :| OnosHolds(c, steps, i) && OnosKey(c, steps[i]) == k;
        Later(c, steps, step, i);
        assert OnosHolds(c, all, i);
      }
    }
  }

  // ----- rollback -----

  lemma RollbackRecorded(s: State, c: ControllerType, steps: seq<Step>, step: Step)
    requires Recorded(s, c, steps) && step.Rollback?
    ensures Recorded(Apply(s, step), c, steps + [step])
  {
    var all, s' := steps + [step], Apply(s, step);
    forall i | Live(c, all, i) ensures RecordedAs(s', c, all[i]) {
      assert all[|steps|] == step;
      Later(c, steps, step, i);
    }
    forall id | id in s'.installedFlows ensures SomeLive(c, all, id) {
      var i :| Live(c, steps, i) && steps[i].flowId == id;
      Later(c, steps, step, i);
      assert Live(c, all, i);
    }
  }

  /** A rollback asks the controller on record to delete the flow's copy there. */
  lemma RollbackTables(s: State, c: ControllerType, steps: seq<Step>, step: Step, i: nat)
    requires Recorded(s, c, steps) && step.Rollback? && Live(c, steps, i) && steps[i].flowId == step.flowId
    ensures var (t, t', inst) := (s.network, Apply(s, step).network, steps[i]);
            && t'.odl == (if Deletes(step) && !PutsOnos(c, inst) then t.odl - {OdlKey(inst)} else t.odl)
            && t'.onos == (if Deletes(step) && PutsOnos(c, inst) then t.onos - {OnosKey(c, inst)} else t.onos)
  {
    assert RecordedAs(s, c, steps[i]);
  }

  /** Without a live installation of the flow a rollback changes nothing. */
  lemma RollbackOfNone(s: State, c: ControllerType, steps: seq<Step>, step: Step)
    requires Mirrors(s, c, steps) && step.Rollback? && !SomeLive(c, steps, step.flowId)
    ensures Mirrors(Apply(s, step), c, steps + [step])
  {
    var all := steps + [step];
    RollbackRecorded(s, c, steps, step);
    forall i | IsInstall(all, i)
      ensures IsInstall(steps, i) && all[i] == steps[i]
      ensures OdlHolds(c, all, i) <==> OdlHolds(c, steps, i)
      ensures OnosHolds(c, all, i) <==> OnosHolds(c, steps, i)
    {
      assert all[|steps|] == step;
      Later(c, steps, step, i);
    }
    forall k | k in s.network.odl ensures SomeOdl(c, all, k) {
      var i :| OdlHolds(c, steps, i) && OdlKey(steps[i]) == k;
      assert OdlHolds(c, all, i);
    }
    forall k | k in s.network.onos && k.1 != "" ensures SomeOnos(c, all, k) {
      var i :| OnosHolds(c, steps, i) && OnosKey(c, steps[i]) == k;
      assert OnosHolds(c, all, i);
    }
  }

  /** OpenDaylight holds one installation at a place. */
  lemma OdlOnce(c: ControllerType, steps: seq<Step>, i: nat, j: nat)
    requires IsInstall(steps, i) && IsInstall(steps, j) && OdlKey(steps[i]) == OdlKey(steps[j]) && i != j
    ensures !OdlHolds(c, steps, i) || !OdlHolds(c, steps, j)
  {
    if i < j {
      assert PutsOdl(c, steps[j]) ==> Overwritten(c, steps, i);
    } else {
      assert PutsOdl(c, steps[i]) ==> Overwritten(c, steps, j);
    }
  }

  /** The live installation, if OpenDaylight is on record for it, loses its copy there,
      and no other does. */
  lemma RollbackOdl(odl: OdlFlows, c: ControllerType, steps: seq<Step>, step: Step, i: nat)
    requires OdlMirrors(odl, c, steps) && step.Rollback? && Live(c, steps, i) && steps[i].flowId == step.flowId
    requires forall j | Live(c, steps, j) && steps[j].flowId == step.flowId :: j == i
    ensures OdlMirrors(if Deletes(step) && !PutsOnos(c, steps[i]) then odl - {OdlKey(steps[i])} else odl,
                       c, steps + [step])
  {
    var all := steps + [step];
    var odl' := if Deletes(step) && !PutsOnos(c, steps[i]) then odl - {OdlKey(steps[i])} else odl;
    LiveHolds(c, steps, i);
    forall j | OdlHolds(c, all, j) ensures StoredOdl(odl', all[j]) {
      assert all[|steps|] == step;
      Later(c, steps, step, j);
      if j != i && OdlKey(steps[j]) == OdlKey(steps[i]) {
        OdlOnce(c, steps, i, j);
      }
    }
    forall k | k in odl' ensures SomeOdl(c, all, k) {
      var j :| OdlHolds(c, steps, j) && OdlKey(steps[j]) == k;
      Later(c, steps, step, j);
      assert OdlHolds(c, all, j);
    }
  }

  lemma RollbackOnos(onos: OnosFlows, c: ControllerType, steps: seq<Step>, step: Step, i: nat)
    requires OnosMirrors(onos, c, steps) && OnosNamesOnce(c, steps)
    requires step.Rollback? && Live(c, steps, i) && steps[i].flowId == step.flowId
    requires forall j | Live(c, steps, j) && steps[j].flowId == step.flowId :: j == i
    ensures OnosMirrors(if Deletes(step) && PutsOnos(c, steps[i]) then onos - {OnosKey(c, steps[i])} else onos,
                        c, steps + [step])
  {
    var all := steps + [step];
    var onos' := if Deletes(step) && PutsOnos(c, steps[i]) then onos - {OnosKey(c, steps[i])} else onos;
    forall j | OnosHolds(c, all, j) ensures StoredOnos(onos', c, all[j]) {
      assert all[|steps|] == step;
      Later(c, steps, step, j);
      if PutsOnos(c, steps[i]) && OnosKey(c, steps[j]) == OnosKey(c, steps[i]) {
        assert i == j;
      }
    }
    forall k | k in onos' && k.1 != "" ensures SomeOnos(c, all, k) {
      var j :| OnosHolds(c, steps, j) && OnosKey(c, steps[j]) == k;
      Later(c, steps, step, j);
      assert OnosHolds(c, all, j);
    }
  }

  /** At most one installation of a flow is live: a later one ends its record. */
  lemma LiveOnce(c: ControllerType, steps: seq<Step>, i: nat, j: nat)
    requires Live(c, steps, i) && Live(c, steps, j) && steps[i].flowId == steps[j].flowId
    ensures i == j
  {
    var a, b := if i < j then i else j, if i < j then j else i;
    if a < b {
      assert steps[a + 1..][b - a - 1] == steps[b];
      TouchFound(c, steps[a].flowId, steps[a + 1..], b - a - 1);
    }
  }

  lemma RollbackOfLive(s: State, c: ControllerType, steps: seq<Step>, step: Step, i: nat)
    requires Mirrors(s, c, steps) && OnosNamesOnce(c, steps)
    requires step.Rollback? && Live(c, steps, i) && steps[i].flowId == step.flowId
    ensures Mirrors(Apply(s, step), c, steps + [step])
  {
    forall j | Live(c, steps, j) && steps[j].flowId == step.flowId ensures j == i {
      LiveOnce(c, steps, i, j);
    }
    RollbackRecorded(s, c, steps, step);
    RollbackTables(s, c, steps, step, i);
    RollbackOdl(s.network.odl, c, steps, step, i);
    RollbackOnos(s.network.onos, c, steps, step, i);
  }

  /** For every controller type, every outcome of every request and repeated flow ids. */
  lemma {:induction false} RunMirrors(c: ControllerType, steps: seq<Step>)
    requires OnosNamesOnce(c, steps)
    ensures Mirrors(Run(c, steps), c, steps)
  {
    if steps != [] {
      var n := |steps| - 1;
      var init, step, s := steps[..n], steps[n], Run(c, steps[..n]);
      assert steps == init + [step] && forall i | 0 <= i < n :: init[i] == steps[i];
      RunMirrors(c, init);
      if step.Install? {
        InstallTables(s, step);
        InstallRecorded(s, c, init, step);
        InstallOdl(s.network.odl, c, init, step);
        InstallOnos(s.network.onos, c, init, step);
      } else if SomeLive(c, init, step.flowId) {
        var i :| Live(c, init, i) && init[i].flowId == step.flowId;
        RollbackOfLive(s, c, init, step, i);
      } else {
        RollbackOfNone(s, c, init, step);
      }
    }
  }

  // ----- what a run leaves behind -----

  /** OpenDaylight holds the flow, and no rollback will ask for its deletion. */
  predicate OdlOrphan(s: State, k: (string, nat, string)) {
    k in s.network.odl && !(k.2 in s.installedFlows && s.installedFlows[k.2] == OnOdl(k.0, k.1))
  }

  predicate Names(e: Entry, k: (string, string)) {
    e.OnOnos? && e.node == k.0 && e.assignedId == k.1
  }

  ghost predicate OnosOrphan(s: State, k: (string, string)) {
    k in s.network.onos && forall id | id in s.installedFlows :: !Names(s.installedFlows[id], k)
  }

  /** The record ended in a rollback that failed, or in another installation. */
  predicate EndedBadly(c: ControllerType, steps: seq<Step>, i: int)
    requires IsInstall(steps, i)
  {
    Ending(c, steps, i).Some? && !Deletes(Ending(c, steps, i).value)
  }

  /** Installation i put a flow on OpenDaylight that nothing has replaced, and either ONOS
      named it too, or its record ended badly. */
  predicate StrandsOdl(c: ControllerType, steps: seq<Step>, i: int) {
    && IsInstall(steps, i) && PutsOdl(c, steps[i]) && !Overwritten(c, steps, i)
    && (PutsOnos(c, steps[i]) || EndedBadly(c, steps, i))
  }

  predicate StrandsOnos(c: ControllerType, steps: seq<Step>, i: int) {
    IsInstall(steps, i) && PutsOnos(c, steps[i]) && EndedBadly(c, steps, i)
  }

  /** The holder of a place is the one on record for it, if it is live and not ONOS's. */
  lemma OdlOnRecord(s: State, c: ControllerType, steps: seq<Step>, i: nat)
    requires Recorded(s, c, steps) && OdlHolds(c, steps, i) && StoredOdl(s.network.odl, steps[i])
    ensures OdlOrphan(s, OdlKey(steps[i])) <==> StrandsOdl(c, steps, i)
  {
    var inst := steps[i];
    if Live(c, steps, i) {
      assert RecordedAs(s, c, inst);
    } else if inst.flowId in s.installedFlows {
      var j :| Live(c, steps, j) && steps[j].flowId == inst.flowId;
      assert RecordedAs(s, c, steps[j]);
      LiveHolds(c, steps, j);
      if OdlKey(steps[j]) == OdlKey(inst) {
        OdlOnce(c, steps, i, j);
      }
    }
  }

  /** An entry that names an ONOS flow is that of the live installation that put it there. */
  lemma NamedByLive(s: State, c: ControllerType, steps: seq<Step>, id: string, i: nat)
    requires Recorded(s, c, steps) && OnosNamesOnce(c, steps) && OnosHolds(c, steps, i)
    requires id in s.installedFlows && Names(s.installedFlows[id], OnosKey(c, steps[i]))
    ensures Live(c, steps, i)
  {
    var j :| Live(c, steps, j) && steps[j].flowId == id;
    assert RecordedAs(s, c, steps[j]);
    assert PutsOnos(c, steps[j]) && OnosKey(c, steps[j]) == OnosKey(c, steps[i]);
    assert i == j;
  }

  lemma OnosOnRecord(s: State, c: ControllerType, steps: seq<Step>, i: nat)
    requires Recorded(s, c, steps) && OnosNamesOnce(c, steps)
    requires OnosHolds(c, steps, i) && StoredOnos(s.network.onos, c, steps[i])
    ensures OnosOrphan(s, OnosKey(c, steps[i])) <==> StrandsOnos(c, steps, i)
  {
    var k := OnosKey(c, steps[i]);
    if Live(c, steps, i) {
      assert RecordedAs(s, c, steps[i]) && Names(s.installedFlows[steps[i].flowId], k);
    } else {
      forall id | id in s.installedFlows ensures !Names(s.installedFlows[id], k) {
        if Names(s.installedFlows[id], k) {
          NamedByLive(s, c, steps, id, i);
        }
      }
    }
  }

  /** After any run a controller holds a flow that no rollback will delete iff some
      installation put it there whose record ended in a failed rollback or in another
      installation of the flow, or, for OpenDaylight, whose record names ONOS. */
  lemma LeftBehindIff(c: ControllerType, steps: seq<Step>)
    requires OnosNamesOnce(c, steps)
    ensures forall k :: OdlOrphan(Run(c, steps), k) <==> exists i :: StrandsOdl(c, steps, i) && OdlKey(steps[i]) == k
    ensures forall k: (string, string) | k.1 != "" ::
              OnosOrphan(Run(c, steps), k) <==> exists i :: StrandsOnos(c, steps, i) && OnosKey(c, steps[i]) == k
  {
    var s := Run(c, steps);
    RunMirrors(c, steps);
    forall i | OdlHolds(c, steps, i) ensures OdlOrphan(s, OdlKey(steps[i])) <==> StrandsOdl(c, steps, i) {
      OdlOnRecord(s, c, steps, i);
    }
    forall i | OnosHolds(c, steps, i) ensures OnosOrphan(s, OnosKey(c, steps[i])) <==> StrandsOnos(c, steps, i) {
      OnosOnRecord(s, c, steps, i);
    }
    forall k ensures OdlOrphan(s, k) <==> exists i :: StrandsOdl(c, steps, i) && OdlKey(steps[i]) == k {
      if OdlOrphan(s, k) {
        var i :| OdlHolds(c, steps, i) && OdlKey(steps[i]) == k;
        assert StrandsOdl(c, steps, i);
      }
      if i :| StrandsOdl(c, steps, i) && OdlKey(steps[i]) == k {
        assert OdlHolds(c, steps, i);
      }
    }
    forall k: (string, string) | k.1 != ""
      ensures OnosOrphan(s, k) <==> exists i :: StrandsOnos(c, steps, i) && OnosKey(c, steps[i]) == k
    {
      if OnosOrphan(s, k) {
        var i :| OnosHolds(c, steps, i) && OnosKey(c, steps[i]) == k;
        assert StrandsOnos(c, steps, i);
      }
      if i :| StrandsOnos(c, steps, i) && OnosKey(c, steps[i]) == k {
        assert OnosHolds(c, steps, i);
      }
    }
  }

  /** Installing a flow again, at another place or on ONOS, strands the OpenDaylight flow
      on record, and rolling back then does not reach it. */
  lemma ReinstallStrands(s: State, node: string, flowId: string, body: FlowBody, table: nat,
                         odl: OdlReply, onos: OnosReply, was: (string, nat, string))
    requires was in s.network.odl && was.2 == flowId
    requires flowId in s.installedFlows && s.installedFlows[flowId] == OnOdl(was.0, was.1)
    requires UpdateSucceeds(s.controllerType, odl, onos) && (node, table) != (was.0, was.1)
    ensures var again := AfterUpdate(s, node, flowId, body, table, odl, onos);
            OdlOrphan(again, was) && forall deleted :: OdlOrphan(AfterRollback(again, flowId, deleted), was)
  {
    InstallTables(s, Install(node, flowId, body, table, odl, onos));
    InstallEntry(s, Install(node, flowId, body, table, odl, onos));
  }
}
