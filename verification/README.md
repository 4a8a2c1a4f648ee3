# PathWise AI: a verified model of the controller core

PathWise AI is a single-process SD-WAN controller. This project models the in-memory state
machines and algorithms under `server/` and proves what they keep over every input and every run.

| part | files | about |
|---|---|---|
| digital-twin gate | `Graph`, `LoopDetector`, `Sandbox` | the depth-first loop detector finds exactly the cycles of the proposed topology; what a sandbox pass means |
| hitless handoff | `SessionTable`, `SessionManager`, `SdnAdapter`, `SdnRuns`, `Handoff`, `Intents`, `IntentDeploy` | session migration, flow installation and rollback, and their composition behind the gate |
| audit log | `JsonText`, `AuditChain`, `Audit`, `AuditDoubles`, `AuditPayloads`, `AuditEdits` | the hash chain, its verifier, what tampering does to the verdict, and which entries can be taken for others |
| telemetry | `Wire`, `Starlink` | the hand-written Protocol Buffers reader and a printer that it inverts |
| app QoS | `Quality`, `Allocation`, `BandwidthEnforcer`, `PriorityRuns`, `PriorityManager` | bandwidth shares, rounding, quality tiers, the shared enforcer |
| operating system rules | `OsRules`, `SelectiveRules`, `SelectiveDegrader`, `ShaperRules`, `ShaperRuns`, `TrafficShaper`, `OneSystem` | three features that create named rules and remove them by wildcard |
| run-long state machines | `IntentRuns`, `IntentEngine`, `SteeringHistory`, `RoutingTable`, `AppState`, `Lockout`, `Auth` | intents with auto-steering, routing rules, account lockout |

`Text` holds strings: ASCII lower-casing, the `-like` match and decimal numerals.

Objects that the program updates in place are classes whose methods are proved against functions on
values; the properties of runs are lemmas about those functions. Most run results compare two
independent accounts: the whole table against the life of one session (`SessionTable.RunAgrees`), the
controllers' flow tables against what each installation comes to (`SdnRuns.RunMirrors`), the rules on the
system against the active rules (`SelectiveRules.RunAccounted`), and against the steps that made and
stripped them (`ShaperRuns.RunExact`).

Clocks, generated ids, controller replies, name lookups and password checks are parameters. Times,
percentages and metrics are reals. The standard behind `Wire` is the Protocol Buffers encoding guide,
sections "Base 128 Varints", "Message Structure" and "Packed Repeated Fields".

## Where the code and its comments differ

The model follows the code. The lemmas that say what it does instead:

- `server/session_manager.py:145` promises preserved sessions. A migrated session is never `ACTIVE`
  again, so a second handoff off its new link drops it while `preserved` stays true
  (`HandoffLoses`, `SessionLifetime`, `MigrateSessions`).
- `server/audit.py:121` says that deleting any entry breaks the chain. Deleting the last entries does
  not, and verification starts at "genesis" even after eviction, so a log that has evicted always
  fails (`DeletionIsReported`, `VerdictAfterRun`).
- `server/audit.py:45` says that modifying any entry breaks the chain. Edits to another entry that the
  program can hold (ids and times without bars, scores and changes as they are printed) are all noticed
  iff the genuine entry is not confusable (`EveryEditNoticed`, `EndPinsDown`). A bar in the event type,
  actor or link makes it confusable. When all bars are in `details`, it is so iff `details` starts with
  a printed change and a bar or holds two between bars (`ConfusableDetails`): the null of details
  `null|hello` can move into the validation result (`NullHello`), details `a|b` are safe
  (`HarmlessDetails`).
- `server/app_qos/selective_degrader.py:14-16` says that a cleanup of one feature never touches
  another's rules. That holds for firewall rules (`FirewallExact`) and fails for QoS policies: the
  priority switch removes `PW_*`, which matches `PW_SelQ_*` (`SwitchStripsThrottle`); `RunAccounted`
  says exactly which policies survive.
- Removing shaper policy 1 of an app also strips policies 10 to 19, 100 and so on of that app
  (`RemovalExactIff`, `OneReachesTwelve`), which stay listed as active (`ListedIffNotStripped`). The list
  keeps 100 policies, and only those that drop out of it can leave rules behind (`RunNoOrphans`).
- `server/app_qos/signatures.py:316` says that class LOW forces YouTube to 144p. On a link of 100 Mbps that
  is not overbooked it leaves 0.3 Mbps, which is 240p; 144p takes demands of about 1.017 to 3.158 times
  the link (`LowStreaming`).
- Deleting an intent never removes its traffic policies: the rows it searches have no creator
  (`DeleteIntent`).
- With both SDN controllers, rollback leaves the OpenDaylight copy behind (`RollbackInBothMode`), and a
  flow whose deletion failed can no longer be rolled back. A flow id that a caller uses again
  for another place (`server/routing.py:67`) strands the first flow (`ReinstallStrands`). Nothing else stays behind
  (`LeftBehindIff`).

## Model

| member | source | states |
|---|---|---|
| LoopDetector.BuildAdjacency | server/sandbox.py:455-462 | the table has the listed nodes and all link endpoints as keys, and lists v under u exactly when some link joins them in either direction |
| LoopDetector.Search.Dfs | server/sandbox.py:467-479 | True exhibits a cycle that a listed node leads to; False leaves the stack as it was and the node finished |
| LoopDetector.Trail.ClosesCycle | server/sandbox.py:470-477 | a neighbour on the stack other than the caller closes a self-loop or a simple cycle of at least three nodes |
| LoopDetector.Trail.Exhausted | server/sandbox.py:478-486 | when every listed node is finished no cycle is reachable from them, because finishing order is an elimination order |
| LoopDetector.DetectLoop | server/sandbox.py:453-491 | for every topology and every visiting order: loop_found iff a self-loop or a simple cycle of at least three nodes is reachable from a listed node |
| LoopDetector.LoopFoundIffCycle | server/sandbox.py:453-491 | when all link endpoints are listed, that is iff the undirected graph has such a cycle at all |
| Sandbox.SnapshotLoop | server/sandbox.py:431-444 | the snapshot of a proposal has a loop iff both links map to one node id |
| Sandbox.StageLoopDetection | server/sandbox.py:609-622 | the stage passes on Mininet's word when its server answers, else iff the links map to different nodes |
| Sandbox.TargetInSnapshot | server/sandbox.py:502-508 | the memory-mode reachability stage can never fail |
| Sandbox.RunSandboxValidation | server/sandbox.py:589-645 | in memory mode the sandbox passes iff the links map to different node ids and 0 < priority <= 65535; in mininet mode the remote verdicts replace the first and add to it; five named checks in order, each with its own verdict |
| Sandbox.NodesOfLinks | server/sandbox.py:421-428 | the five nodes by link name, short or full and in any case; node 1 for any other text |
| Sandbox.UnreachableServers | server/sandbox.py:540-586 | an unreachable Batfish never rejects, and with no server reachable the mininet verdict is that of memory mode |
| SessionManager.SessionManager.RegisterSession | server/session_manager.py:93-110 | appends a new active session to its link's list and changes no other |
| SessionManager.SessionManager.GetActiveSessions | server/session_manager.py:112-115 | the link's active sessions, in list order, each object once |
| SessionManager.SessionManager.MoveEach | server/session_manager.py:158-191 | every listed object is migrated with its carried state untouched and appended to the target list in order |
| SessionManager.SessionManager.DropInactive | server/session_manager.py:193-197 | the source list ends empty |
| SessionManager.SessionManager.MigrateSessions | server/session_manager.py:142-218 | the new table, for any two links, equal ones included; all active sessions count as migrated, none as dropped, preserved is true |
| SessionTable.RunAgrees | server/session_manager.py:88-110 | after any run of registrations and handoffs the table holds exactly the sessions whose own life story says so: under the link, state, carried fields and migration time it says, and nowhere twice |
| SessionTable.ActiveOfConcat | server/session_manager.py:112-115 | active sessions are listed in their order |
| SessionTable.HandoffLoses | server/session_manager.py:193-197 | a handoff between different links loses exactly the source's non-active sessions; a handoff of a link to itself loses its whole list |
| SessionTable.HandoffTotal | server/session_manager.py:193-210 | the number of tracked sessions drops by exactly the number of sessions lost |
| SessionTable.FirstHandoffSurvived | server/session_manager.py:158-197 | in the table after any run, a handoff to a different link moves an active session of its source with its carried state to the end of the target list, and loses exactly the others |
| SessionTable.SessionLifetime | server/session_manager.py:142-218 | after any run a registered session is in the table iff no handoff has found it there, or a single one to a different link |
| SessionTable.GoneForGood | server/session_manager.py:193-197 | a registered session that has left the table never comes back |
| SdnAdapter.SDNControllerAdapter.UpdateFlowTable | server/sdn_adapter.py:202-232 | flow tables and rollback map after every combination of replies, and when installation counts as successful |
| SdnAdapter.SDNControllerAdapter.RollbackFlow | server/sdn_adapter.py:234-252 | the entry is forgotten whatever the controller answers; an unknown flow is refused without asking a controller |
| SdnAdapter.SuccessIsRecorded | server/sdn_adapter.py:202-232 | installing a new flow succeeds iff it leaves a record, which names the node and the last controller that took the flow |
| SdnAdapter.AssignedIdIs | server/sdn_adapter.py:139-144 | the id ONOS assigns is the first it lists; an empty one counts as none |
| SdnAdapter.RollbackUndoesInstall | server/sdn_adapter.py:202-252 | with one controller, rollback after the installation of a fresh flow restores controller and map |
| SdnAdapter.RollbackInBothMode | server/sdn_adapter.py:212-225 | with both, rollback restores everything iff not both installations succeeded and ONOS did not store the flow under an empty id; after two successes exactly the OpenDaylight copy stays |
| SdnRuns.RunMirrors | server/sdn_adapter.py:202-252 | over any run, for every controller type and every outcome of every request, flow ids used again included, the map lists exactly the installations that no later step on the flow has ended, and the controllers hold exactly those that were neither deleted nor overwritten |
| SdnRuns.LeftBehindIff | server/sdn_adapter.py:202-252 | after any run a controller holds a flow that no rollback will delete iff an installation put it there that was ended by a failed rollback or by another installation of the flow, or OpenDaylight holds it and the record names ONOS |
| SdnRuns.ReinstallStrands | server/sdn_adapter.py:212-225 | installing a recorded flow again elsewhere strands the OpenDaylight copy, rolled back or not |
| Handoff.ExecuteHitlessHandoff | server/routing.py:65-131 | a rejected handoff changes neither sessions nor flows; in memory mode an accepted one joins different links and installs its flow at the target's switch, not the source's; after acceptance the sessions have moved even if the installation fails, which leaves the rollback map alone |
| Handoff.SwitchesOfLinks | server/routing.py:28-38 | the switch of every link name, short or full and in any case, as literal openflow ids |
| Handoff.SwitchesFollowNodes | server/routing.py:28-38 | two links share a switch iff the gate takes them for one node |
| Handoff.ClassesOrdered | server/routing.py:19-25 | flow priorities and code points rise with the class: voip, video, critical, unnamed, bulk |
| Handoff.VoiceFlow | server/routing.py:41-62 | two flow bodies in full |
| Handoff.RollbackHandoff | server/routing.py:134-136 | succeeds iff the flow is on record and the controller deletes it |
| Handoff.GatedLifetime | server/routing.py:83-108 | after any run behind the gate the table holds exactly the registered sessions that at most one admitted handoff has found there, so the gate supplies the different links that migration never checks |
| IntentDeploy.DefaultSourceFor | server/ibn_engine.py:852-856 | the default source differs from the target |
| IntentDeploy.CanonicalNode | server/ibn_engine.py:843-849 | on the canonical links the engine's switch table agrees with the gate's |
| IntentDeploy.NodeTablesAgreeIff | server/ibn_engine.py:843-849 | on any other link the two tables agree iff the gate takes it for node 1: the engine's knows no short names and no other case |
| IntentDeploy.FlowFollowsIntent | server/ibn_engine.py:859-867 | the flow leads to the intent's target, else its preferred link, else broadband, and the source is the intent's own unless that is the target |
| IntentDeploy.FlowMarked | server/ibn_engine.py:886-890 | it is marked like a handoff of the intent's first traffic class |
| IntentDeploy.ActionsOrdered | server/ibn_engine.py:893-903 | flow priorities rise with the action: block, hold back, plain, redirect, prioritize |
| IntentDeploy.GateForIntents | server/ibn_engine.py:859-903 | an intent passes the memory-mode gate iff it does not block and its links map to different nodes; canonical links always do, and their flow goes to another switch than the source's |
| IntentDeploy.DeployIntent | server/ibn_engine.py:1028-1128 | which outcome each command has; for canonical links the flow table is reached iff the action is not block, and is unchanged otherwise |
| AuditChain.VerifyIntegrity | server/audit.py:118-151 | the reported faults, in order, are those of the entries; valid iff every entry carries the right checksum and reference |
| AuditChain.AuditLog.LogEvent | server/audit.py:57-88 | the log is always the last 10000 entries of the chain of everything logged |
| AuditChain.SameEndSameLog | server/audit.py:118-151 | two verified logs with one last checksum are equal, or two different links of them share a checksum |
| Audit.PayloadInjective | server/audit.py:47-53 | the twelve-field payload determines every field and the previous checksum, if one of two entries has no bar, or if neither has one outside details |
| Audit.PayloadJoins | server/audit.py:47-53 | the payload is the twelve parts in the source's order with bars between them |
| JsonText.ChangesEndAtBars | server/audit.py:50-51 | a printed change, null or an object, followed by a bar is never a prefix of another: bars occur inside its quotes only |
| AuditDoubles.BarsMakePayloadsAmbiguous | server/audit.py:47-53 | every entry of the program with a bar in event type, actor or link shares all its payloads with a different entry of the program |
| AuditPayloads.DoubleIff | server/audit.py:47-53 | an entry of the program shares its payloads with a different one iff it is confusable: such a bar, printed scores inside the validation result, or another cut of the last four fields in which both changes are printed ones |
| AuditPayloads.PayloadPinsDown | server/audit.py:47-53 | so the payload pins an entry down among the entries of the program iff it is not confusable |
| AuditEdits.ConfusableDetails | server/audit.py:50-52 | an entry without bars outside details is confusable iff its details start with a printed change and a bar, or hold two between bars |
| AuditEdits.HarmlessDetails | server/audit.py:52 | details without bars, or with neither a brace nor the letter n, do not make it so |
| AuditEdits.NullHello | server/audit.py:50-52 | a concrete pair: the null at the start of details, with its bar, can move to the end of the validation result |
| Audit.SameEndUnlessConfused | server/audit.py:42-54 | two verified logs ending in one checksum are equal, or exhibit a collision of the hash or two different entries with one payload |
| Audit.SameEnd | server/audit.py:42-54 | two verified logs ending in one checksum are equal entry by entry, or exhibit a collision of the hash: if one of them has no bars, whatever the other contains, or if neither has bars outside details |
| AuditEdits.EndPinsDown | server/audit.py:42-54 | the last checksum pins a verified log down among all verified logs of the program, up to collisions, iff none of its entries is confusable |
| Audit.EditIsReported | server/audit.py:118-151 | any edit of one entry is reported exactly once, at that entry, or exhibits a collision, unless the payload stays the same |
| AuditEdits.EveryEditNoticed | server/audit.py:118-151 | every edit of an entry of a verified log to another entry of the program is noticed so iff the genuine entry is not confusable; otherwise some such edit passes verification |
| Audit.DeletionIsReported | server/audit.py:118-151 | whatever the entries contain, deleting one is reported exactly twice, at the entry that takes its place, unless it was the last, or exhibits a collision |
| Audit.TruncationIsReported | server/audit.py:128-145 | a log without its first entries is reported exactly twice, at its oldest surviving entry, or exhibits a collision |
| Audit.VerdictAfterRun | server/audit.py:38-88 | whatever is logged, after at most 10000 log_event calls the log verifies; after more it is reported exactly twice at index 0, or exhibits a collision |
| Wire.DecodeVarint | server/collectors/starlink_stub.py:206-217 | the base-128 value at the position, and the position after it, for every byte string, truncated ones included |
| Wire.VarintRoundTrip | server/collectors/starlink_stub.py:206-217 | decoding an encoded number of any size gives it back and stops after it |
| Wire.ReadNext | server/collectors/starlink_stub.py:145-197 | one field by wire type, and the index after it; wire types 3, 4, 6 and 7 stop the reader |
| Wire.FieldsRoundTrip | server/collectors/starlink_stub.py:142-197 | printing any fields numbered 1 to 15 and reading them back gives the same fields |
| Wire.TagBytes | server/collectors/starlink_stub.py:145-197 | the printed bytes of one field of each wire type, the guide's varint 300 among them |
| Wire.ReadBackIff | server/collectors/starlink_stub.py:145-147 | a field printed with the standard varint tag is read back iff its number is at most 15, for every wire type and content |
| Starlink.UnpackFloats | server/collectors/starlink_stub.py:171-173 | the whole four-byte groups of the payload, a short rest ignored |
| Starlink.PackRoundTrip | server/collectors/starlink_stub.py:171-173 | unpacking a packed list of floats gives the list |
| Starlink.ParseInner | server/collectors/starlink_stub.py:157-189 | the four lists after folding every field of the submessage over them, later fields replacing earlier ones |
| Starlink.ParseHistoryResponse | server/collectors/starlink_stub.py:123-203 | total on every byte string: the history that the response's fields describe, if it has latencies |
| Starlink.ShortDataIsEmpty | server/collectors/starlink_stub.py:135-136 | the early return for fewer than four bytes changes no result |
| Starlink.HistoryRoundTrip | server/collectors/starlink_stub.py:123-203 | a printed response whose field 7 holds the four lists once each, among any other one-byte-tag fields on both levels, is read back as exactly those lists |
| Quality.PredictQuality | server/app_qos/signatures.py:339-380 | the prediction for every tier table and bandwidth, unknown apps and empty tables included |
| Quality.FindWorst | server/app_qos/signatures.py:364 | the first tier with the least minimum |
| Quality.BestTierIs | server/app_qos/signatures.py:355-360 | the chosen tier is the affordable one with the largest minimum; none iff none is affordable |
| Quality.PredictedShows | server/app_qos/signatures.py:355-380 | the prediction shows the affordable tier that needs most, with its score and bounds; below all tiers the least demanding one and its minimum |
| Quality.ScoreBelow | server/app_qos/signatures.py:362-368 | below all tiers the score is the whole part of that tier's score times the share of its minimum that is met |
| Quality.Round2Near | server/app_qos/bandwidth_enforcer.py:129 | rounding moves a figure by at most half a hundredth and keeps it non-negative |
| Quality.RoundHalfEvenIs | server/app_qos/bandwidth_enforcer.py:129 | the nearest integer, and of two nearest the even one |
| Quality.MoreBandwidthNoWorse | server/app_qos/signatures.py:339-380 | for tables whose scores rise with their minimum the predicted score never falls when the bandwidth rises, below the lowest tier too |
| Quality.ShippedTablesRise | server/app_qos/signatures.py:45-91 | all six shipped tables are such tables |
| Allocation.ComputeAllocations | server/app_qos/bandwidth_enforcer.py:100-137 | each app's rounded share, percentage and predicted quality, in dictionary order |
| Allocation.AloneOnLink | server/app_qos/signatures.py:298-324 | alone on the link an app gets 90, 60, 30, 0.3 or 0 per cent of it by its class, rounded, and 30 for an unknown class |
| Allocation.RankIsPct | server/app_qos/signatures.py:298-324 | CRITICAL over HIGH over NORMAL and unknown classes over LOW over BLOCKED: a higher class has the larger percentage |
| Allocation.DemandMet | server/app_qos/bandwidth_enforcer.py:125-129 | a demand that fits the link is met in full, up to rounding |
| Allocation.AllBlocked | server/app_qos/bandwidth_enforcer.py:113-114 | the early return is taken iff every app is blocked |
| Allocation.NothingToShare | server/app_qos/bandwidth_enforcer.py:114-123 | it agrees with the general formula, whatever the scale |
| Allocation.SharesConserve | server/app_qos/bandwidth_enforcer.py:125-129 | the exact shares sum to min(1, total percentage) times the link |
| Allocation.RoundedTotal | server/app_qos/bandwidth_enforcer.py:125-129 | n rounded allocations miss that sum by at most 0.005 n, so never exceed the link by more |
| Allocation.AllocationsOrdered | server/app_qos/bandwidth_enforcer.py:125-129 | allocations are non-negative and ordered like the ranks of their classes |
| Allocation.RaisingClass | server/app_qos/bandwidth_enforcer.py:108-137 | raising one app to a class of higher or equal rank never lowers its own bandwidth and never raises another's |
| Allocation.RaisingClassQuality | server/app_qos/bandwidth_enforcer.py:108-137 | the same for the predicted score, through scaling, rounding and tier lookup |
| Allocation.LowStreaming | server/app_qos/signatures.py:313-316 | a streaming app of class LOW on 100 Mbps is predicted to drop to 144p iff 0.295 times the demands exceeds 0.3 and 0.095 times them does not; when they fit the link it gets 0.3 Mbps and 240p |
| BandwidthEnforcer.BandwidthEnforcer.ApplyPriorities | server/app_qos/bandwidth_enforcer.py:56-73 | the allocations in force, marked as enforced unless simulated; in powershell mode the system's policies named PW_* are replaced by theirs, whoever created them, and in the other modes stay as they are |
| BandwidthEnforcer.BandwidthEnforcer.ApplyPowershellRules | server/app_qos/bandwidth_enforcer.py:166-233 | which policies are removed and created |
| BandwidthEnforcer.BandwidthEnforcer.ClearAllRules | server/app_qos/bandwidth_enforcer.py:75-90 | nothing stays in force, and in powershell mode no policy named PW_* stays on the system |
| BandwidthEnforcer.CreatedForSwitch | server/app_qos/bandwidth_enforcer.py:186-231 | every policy the switch creates matches PW_* and none looks selective |
| BandwidthEnforcer.CreatedIs | server/app_qos/bandwidth_enforcer.py:188-191 | the policies created are those of the known apps that have an allocation |
| BandwidthEnforcer.PoliciesOfApp | server/app_qos/bandwidth_enforcer.py:199-231 | one policy for each of an app's first eight address ranges, and one for its process unless the app is youtube, netflix or twitch |
| BandwidthEnforcer.LinkMbpsIs | server/app_qos/bandwidth_enforcer.py:61 | an absent or zero figure for the link stands for 100 Mbps |
| PriorityManager.PriorityManager.SetPriorities | server/app_qos/priority_manager.py:48-76 | one Set step: settings with an unknown app or class change nothing; others replace what any user had in force |
| PriorityManager.PriorityManager.RemoveAppPriority | server/app_qos/priority_manager.py:84-97 | one RemoveApp step: the user's remaining settings are what is in force, for all users |
| PriorityManager.PriorityManager.ResetAll | server/app_qos/priority_manager.py:100-105 | one Reset step: resetting one user clears the shared enforcer |
| PriorityRuns.AcceptableIff | server/app_qos/priority_manager.py:60-68 | settings are accepted iff every app is known and every class one of the five |
| PriorityRuns.SetAlone | server/app_qos/priority_manager.py:71-73 | what is set is allocated on the link the user states, on 100 Mbps otherwise |
| PriorityRuns.RemovalForgetsLink | server/app_qos/priority_manager.py:84-97 | removing an app, even one that was not set, re-allocates the rest on 100 Mbps whatever link was stated before |
| PriorityRuns.RunInForce | server/app_qos/priority_manager.py:48-105 | after any run what is in force is what the last accepted operation put in force, whichever user made it, while every user's recorded settings stay that user's own |
| PriorityRuns.RunPolicies | server/app_qos/bandwidth_enforcer.py:166-233 | on a system that only the switch touches, its policies are always exactly those of the allocations in force in powershell mode, and none in the others |
| OsRules.SelMatchesOwn | server/app_qos/selective_degrader.py:291-301 | a selective rule's wildcard matches its own names and no other rule's |
| OsRules.NamesAre | server/app_qos/selective_degrader.py:256-283 | literal names of the three features |
| OsRules.SwitchNotSelective | server/app_qos/bandwidth_enforcer.py:207-223 | no known app's policy name starts like a selective one |
| OsRules.ShaperMatches | server/traffic_shaper.py:413-424 | the wildcard of policy n of an app matches a rule of policy m of another iff the apps are equal and the digits of m start with those of n |
| OsRules.ShaperApart | server/traffic_shaper.py:457 | names and wildcards of the shaper and of the PW_ features never match each other |
| Text.PrefixIffExtends | server/traffic_shaper.py:413-424 | one numeral is a prefix of another iff dropping digits of the larger number gives the smaller |
| Text.LikeIs | server/traffic_shaper.py:413-424 | a wildcard matches what starts with its text in any case |
| Text.DecimalReads | server/traffic_shaper.py:457 | numerals are decimal, without leading zeros |
| SelectiveDegrader.SelectiveDegrader.StartRule | server/app_qos/selective_degrader.py:125-176 | the first failing check refuses and changes nothing; otherwise one bounded active rule carrying every argument is added with its artifacts |
| SelectiveDegrader.AcceptedIff | server/app_qos/selective_degrader.py:136-152 | a rule is accepted iff it has 1 to 32 addresses, a known mode, a duration of 5 to 3600 seconds and, for a throttle, a rate of at least 32 |
| SelectiveDegrader.CommandsAre | server/app_qos/selective_degrader.py:249-288 | the counter counts two for each IPv4 address of a block and one for all IPv6 ones, or one for each address of a throttle |
| SelectiveRules.ArtifactsOf | server/app_qos/selective_degrader.py:246-288 | the exact names a rule creates |
| SelectiveDegrader.SelectiveDegrader.ApplyWindows | server/app_qos/selective_degrader.py:246-288 | the artifacts created and the command counter |
| SelectiveDegrader.SelectiveDegrader.StopRule | server/app_qos/selective_degrader.py:179-187 | stops the rule iff it is known and active, and removes its artifacts |
| SelectiveDegrader.SelectiveDegrader.EndRules | server/app_qos/selective_degrader.py:190-197 | stop_all and one sweep: the active rules that have expired are deactivated, all of them for stop_all, and the count is that of the rules that changed |
| SelectiveRules.EndedExactly | server/app_qos/selective_degrader.py:209-213 | after a sweep at t a rule is active iff it was and t < expires_at, after stop_all none is; nothing else of a rule changes |
| SelectiveRules.NeverReactivated | server/app_qos/selective_degrader.py:179-213 | no step changes a rule except by deactivating it |
| SelectiveRules.RunActive | server/app_qos/selective_degrader.py:179-213 | after any run a started rule is active iff since its start it was not stopped, nor all rules, and no sweep came at or after started_at + duration_s |
| SelectiveRules.FirewallLifetime | server/app_qos/selective_degrader.py:179-301 | so the firewall rules of a block are on the system from its start exactly until then, whatever the other features do |
| SelectiveRules.RunAccounted | server/app_qos/selective_degrader.py:125-301 | in any run with other features interleaved, the selective artifacts are those of the active rules, except policies started before the last priority switch; all rules stay within the bounds on duration, addresses and rate |
| SelectiveRules.FirewallExact | server/app_qos/selective_degrader.py:14-16 | the selective firewall rules are always exactly those of the active rules |
| SelectiveRules.PoliciesExact | server/app_qos/selective_degrader.py:14-16 | so are the selective policies while priorities are not switched |
| SelectiveRules.SwitchStripsThrottle | server/app_qos/bandwidth_enforcer.py:179-184 | a priority switch takes every policy of an active throttle, which stays listed as active |
| TrafficShaper.TrafficShaper.CreateQosThrottle | server/traffic_shaper.py:334-410 | the rules one throttle creates |
| TrafficShaper.TrafficShaper.ThrottleApp | server/traffic_shaper.py:445-488 | one throttle step of ShaperRuns, which lists a policy with the arguments and the next number, followed, when the priority switch knows the app, by what the switch does in its own mode; unknown apps change nothing |
| TrafficShaper.SettingLeaves | server/traffic_shaper.py:465 | the switch then leaves the app nothing for 10 kbps and less, else 0.3 Mbps |
| TrafficShaper.TrafficShaper.PrioritizeApp | server/traffic_shaper.py:491-526 | one prioritize step: every active policy of the app is ended and its wildcard removed |
| TrafficShaper.TrafficShaper.RemovePolicy | server/traffic_shaper.py:529-552 | one remove step if an active policy has the id, and then the priority switch is reset for every user, in its own mode; else nothing changes |
| TrafficShaper.TrafficShaper.RemoveAllPolicies | server/traffic_shaper.py:555-570 | one remove-all step: no policy stays active and no PathWise rule stays on the system |
| TrafficShaper.TrafficShaper.GetAllPolicies | server/traffic_shaper.py:611-626 | one row for each policy with its id, app and active flag, none with a creator |
| ShaperRules.ThrottleCreatesOwn | server/traffic_shaper.py:352-397 | every rule of a throttle is named after its policy |
| ShaperRules.ThrottleCreates | server/traffic_shaper.py:345-397 | which names a throttle creates and when: its process policy, up to 5 + 8 prefix policies, the QUIC rule, and the blocking rule for 1 kbps and less |
| ShaperRules.RemovalReaches | server/traffic_shaper.py:413-424 | removing policy n deletes exactly the rules of policies of the same app whose digits start with those of n |
| ShaperRules.RemovalSparesOthers | server/traffic_shaper.py:413-424 | it deletes nothing of the PW_ features |
| ShaperRules.RemovalExactIff | server/traffic_shaper.py:413-424 | removal deletes only its own policy's rules iff no other number of the app that extends n has rules on the system |
| ShaperRules.OneReachesTwelve | server/traffic_shaper.py:413-424 | a concrete case in which it does not |
| ShaperRuns.RunNumbered | server/traffic_shaper.py:352-397 | RemovalExactIff applies to every reachable state: each PathWise rule on the system belongs to a numbered policy |
| ShaperRuns.RunKeepsHundred | server/traffic_shaper.py:445-526 | the list holds the latest hundred policies |
| ShaperRuns.RunExact | server/traffic_shaper.py:413-570 | after any run with the other features interleaved, a rule of policy n of an app is on the system iff it was created and since then not everything, and no active policy of that app whose number n extends, has been removed |
| ShaperRuns.RunNoOrphans | server/traffic_shaper.py:445-570 | each such rule belongs to a policy still listed as active, or to one that dropped out of the list of 100 |
| ShaperRuns.ListedIffNotStripped | server/traffic_shaper.py:529-552 | a throttle listed as active still has its rules iff no other policy of its app has been removed whose number is a prefix of its own |
| ShaperRuns.PriorityMatchesNothing | server/traffic_shaper.py:515 | the name a prioritize policy carries never matches a rule |
| TrafficShaper.SwitchIsStep | server/app_qos/bandwidth_enforcer.py:179-184 | in powershell mode the priority switch is one of the other steps of such a run, in the others it changes nothing, and it always leaves the shaper's rules alone |
| OneSystem.DegraderPw | server/app_qos/selective_degrader.py:246-301 | every operation of the degrader creates and removes PW_ names only |
| OneSystem.ShapeStepsShape | server/traffic_shaper.py:413-570 | every operation of the shaper acts on the system as removals by pattern and creations |
| OneSystem.ShaperRun | server/traffic_shaper.py:445-570 | every run of the real operations of the three features is a proper run of ShaperRuns |
| OneSystem.DegraderRun | server/app_qos/selective_degrader.py:125-213 | it also has the rules and artifacts of the run of SelectiveRules that it shows the degrader |
| OneSystem.DegraderRunProper | server/app_qos/selective_degrader.py:14-16 | and that run is a proper one: the other features touch their own names only |
| OneSystem.FirewallHolds | server/app_qos/selective_degrader.py:14-16 | so whatever the three features do together, the selective firewall rules are those of the active rules |
| OneSystem.PoliciesHold | server/app_qos/bandwidth_enforcer.py:179-184 | a selective policy is on the system iff it is of an active rule that some step started after which no step switched priorities |
| OneSystem.SwitchPoliciesHold | server/app_qos/bandwidth_enforcer.py:166-233 | the PW_ policies that are not selective are exactly those the last switch of priorities created, and none before the first |
| OneSystem.DegraderSelective | server/app_qos/selective_degrader.py:246-301 | no operation of the degrader touches any other policy |
| OneSystem.NoOrphansHolds | server/traffic_shaper.py:445-570 | each PathWise rule belongs to a policy listed as active or dropped out of the list |
| OneSystem.ShaperRulesHold | server/traffic_shaper.py:413-570 | and RunExact says which PathWise rules are there |
| IntentRuns.BestLinkIs | server/ibn_engine.py:624-632 | the minimum-metric link under the threshold, the excluded one aside; none iff there is none |
| IntentRuns.HealthiestLinkIs | server/ibn_engine.py:635-641 | a link of greatest predicted health other than the excluded one |
| IntentRuns.BestIsFirst | server/ibn_engine.py:624-632 | of equal minima the first listed |
| IntentRuns.HealthiestIsFirst | server/ibn_engine.py:635-641 | of equally healthy links the first listed |
| IntentRuns.SteeringSound | server/ibn_engine.py:733-783 | every auto-steer has different ends and an undiverted source; for ENSURE intents the target is the minimum-metric link under the threshold if there is one, else the healthiest other |
| IntentRuns.EnsureSteers | server/ibn_engine.py:739-749 | an ENSURE intent steers from the first link over its threshold, iff that is undiverted and another link is under it or has a prediction |
| IntentRuns.PrioritizeSteers | server/ibn_engine.py:751-755 | a Prioritize intent steers from the healthiest other link to the preferred one, iff there is one and it is undiverted |
| IntentRuns.RedirectSteers | server/ibn_engine.py:757-759 | a Redirect intent steers exactly from its source to its target, iff both are named, differ, and the source is undiverted |
| IntentRuns.BlockSteers | server/ibn_engine.py:761-763 | a Block intent steers from the link to avoid to the healthiest other one, iff there is one and the link is undiverted |
| IntentRuns.OthersNeverSteer | server/ibn_engine.py:657-664 | the other actions are never violated and never steer |
| IntentRuns.SteerSettles | server/ibn_engine.py:699-715 | once the source of a steer is diverted the steer is not repeated, and a Redirect or Block intent is no longer violated |
| IntentRuns.ViolatedIff | server/ibn_engine.py:665-715 | what breaks each kind of intent, in its own fields: over the threshold, health below 40 or 60, or a source not diverted |
| IntentRuns.ChecksCount | server/ibn_engine.py:717-725 | a check counts a violation iff the intent is live and violated, and a steer iff also more than 30 seconds have gone by and there is somewhere to steer |
| IntentRuns.ChecksJudge | server/ibn_engine.py:717-730 | which status a check leaves |
| IntentRuns.RecordedIs | server/ibn_engine.py:765-783 | the recorded event names the intent, its new count, the ends of the steer, and a time between the cooldown check and its new mark |
| IntentRuns.PauseThenResume | server/ibn_engine.py:598-611 | pausing and resuming a live intent makes it active and changes no count |
| IntentRuns.AbsorbingStates | server/ibn_engine.py:581-651 | DELETED is never left in any run, PAUSED only by resume or delete |
| IntentRuns.SteersAreViolations | server/ibn_engine.py:717-725 | in any run the steer count rises by no more than the violation count |
| IntentRuns.SteerRate | server/ibn_engine.py:721-725 | in a window of T seconds an intent steers at most 1 + T/30 times |
| IntentEngine.FindBestLinkForMetric | server/ibn_engine.py:624-632 | computes the link that BestLinkIs is about |
| IntentEngine.FindHealthiestLink | server/ibn_engine.py:635-641 | computes the link that HealthiestLinkIs is about |
| IntentEngine.IsViolated | server/ibn_engine.py:665-715 | violated iff some link breaks the intent's condition, the preferred link alone counting when one is set |
| IntentEngine.ChooseRoute | server/ibn_engine.py:735-763 | the source and target each kind of intent steers between |
| IntentEngine.IntentEngine.CheckIntentCompliance | server/ibn_engine.py:648-730 | the intent's new state, the cooldown entries of others unchanged, and the event recorded in the application's history iff the steer count rose, from a link that no active routing rule leaves to a different one |
| IntentEngine.IntentEngine.AutoSteerForIntent | server/ibn_engine.py:733-783 | counts and records one event iff there is a route from an undiverted link to another |
| IntentEngine.IntentEngine.PauseIntent | server/ibn_engine.py:598-603 | an unknown id is refused; the first intent with the id is paused unless deleted; all others unchanged |
| IntentEngine.IntentEngine.ResumeIntent | server/ibn_engine.py:606-611 | an unknown id is refused; the first intent with the id is resumed iff paused; all others unchanged |
| IntentEngine.IntentEngine.DeleteIntent | server/ibn_engine.py:581-595 | an unknown id is refused; the first intent with the id is deleted, and no traffic policy and no rule of its own is removed |
| RoutingTable.ActiveMapIs | server/state.py:127-128 | the active rules are a partial function on the known links without fixed points |
| RoutingTable.AcceptedIff | server/main.py:408-415 | a rule is accepted iff it joins two different known links and no active rule leaves its source; a refusal over an active rule names it |
| SteeringHistory.PushedKeeps | server/state.py:110 | a new event comes first and the latest 199 others stay in order |
| RoutingTable.QueriesAgree | server/state.py:136-146 | the two diverted queries give its domain and its range |
| RoutingTable.RunOk | server/main.py:402-487 | every state reached by applications and rollbacks is one of these |
| RoutingTable.StatusesOnlyEnd | server/main.py:470-487 | rules are never removed, and statuses only go from active to rolled back |
| RoutingTable.ApplyThenRollback | server/main.py:402-487 | rolling back a rule just applied restores the active function |
| RoutingTable.TwoCyclesPossible | server/main.py:408-415 | two links can divert their traffic to each other |
| AppState.AppState.ApplyRoutingRule | server/main.py:402-447 | the first failing check refuses and changes nothing; otherwise one active rule and one event are added |
| AppState.AppState.RollbackRule | server/main.py:470-487 | the first active rule with the id is rolled back and recorded, else nothing changes |
| AppState.AppState.DivertedNow | server/state.py:136-140 | the links of which the query is true |
| AppState.AppState.IsTrafficDivertedFrom | server/state.py:136-140 | true iff an active rule leaves the link |
| AppState.AppState.IsTrafficDivertedTo | server/state.py:142-146 | true iff an active rule leads to the link |
| Lockout.AttemptKeepsOk | server/auth.py:116-140 | an account is locked iff five failures are on record, kept by every attempt; success clears the record |
| Lockout.LockHolds | server/auth.py:116-124 | for thirty minutes a locked account refuses every attempt of any run, right or wrong, and none changes it |
| Lockout.RefusedIff | server/auth.py:116-124 | an attempt is refused with the account untouched and the password unchecked iff the account is locked and now < locked_at + 1800 |
| Lockout.CheckedOtherwise | server/auth.py:116-140 | otherwise an active account logs in iff the password is right; a wrong one is one failure more, or the first after an elapsed lock, and the fifth locks |
| Lockout.InactiveNever | server/auth.py:126-127 | an inactive account never logs in and collects no failures |
| Lockout.EveryLockEnds | server/auth.py:116-119 | after any run of attempts the right password logs an active account in thirty minutes after the last of them |
| Lockout.UnlockOpens | server/auth.py:173-179 | an unlocked account has all five attempts again |
| Lockout.GuessRate | server/auth.py:24-140 | without a success or an unlock, the failed checks of one account in T seconds number at most 5 (1 + floor(T/1800)) |
| Auth.UserStore.Login | server/auth.py:108-142 | outcome and new state of the first account with the address, all other accounts unchanged |
| Auth.UserStore.UnlockUser | server/auth.py:173-179 | the account with the id is unlocked with no failures on record, all others unchanged |

## Left out

- HTTP handlers other than the two for routing rules, WebSockets, SQL routers, reports, alerts, role checks and encryption.
- `validate_steering` (randomised checks), prediction models, simulators and the other collectors; health scores and metrics are inputs.
- The regular-expression intent parser; a parsed intent is an input. `create_intent`'s one-shot execution is left out too.
- The Linux (tc, iptables) commands: in tc mode the model says only that no Windows rule changes. Operating system commands succeed, and a failed one would leave rules behind.
- Environment settings other than ENFORCER_MODE and SANDBOX_MODE have their defaults; TOTAL_LINK_MBPS is 100.
- Floating-point effects: times, shares and metrics are reals, and rounding is to nearest, ties to even.
- Lower-casing and `-like` are ASCII only; PowerShell wildcard characters do not occur in the names.
- `_validate_ips` and the domain lookups: the validated addresses and the numbers of resolved ones are inputs.
- NETCONF submission and the YANG payload of `deploy_intent`, and the text of reports, log lines and violation details.
- Audit events are not recorded by the routing and shaper methods of this model; `AuditLog` stands alone.
- `snapshot_sessions`, whose result the handoff does not use.
- Rules of the degrader and policies of the shaper are values in a list, so the sharing of a returned rule with the table is not captured.
- DetectLoop: node ids are not empty, as in the source, where they are numerals; the empty string is the search's marker for no parent.
- MigrateSessions: one reading of the clock stands for the reading made for each session, and the branch for a failing move is left out, because nothing in it can fail.
- UpdateFlowTable: a refused or failed request is taken not to change the controller, and so is an ONOS answer that lists no flow id.
- RunMirrors: the controller is taken to name no two flows of one device alike. An ONOS id that is the empty string counts as none, as in the source; no statement is made about flows stored under it.
- LeftBehindIff: likewise, the controller names no two flows of one device alike.
- ParseHistoryResponse: floats are their four bytes; the field walk that both loops of the parser repeat is one method, `ReadNext`.
- LogEvent: entries hold the text their payload shows, so an absent value and the text None are the same entry here.
- DoubleIff: a free field holds any text. The texts of the two scores are a parameter of which only the absence of bars is used, and number texts inside changes may be any without bars and quotes.
- OneSystem: all three features act, so ENFORCER_MODE is powershell. In the other modes only the shaper may act, and ShaperRuns describes it.
- SwitchStripsThrottle: the system has one store of policies; the switch's removal of `PW_*` (`server/app_qos/bandwidth_enforcer.py:83` and `:181`) names no store, and is taken to reach the policies that are created in ActiveStore.
- ExecuteHitlessHandoff: the handler for an exception in the sandbox is left out, because the sandbox raises none here.
