# k8zner: a verified model of the operator's control loop

k8zner is a Kubernetes operator that runs clusters of Talos nodes on Hetzner Cloud. This project
models the part of it whose mistakes are expensive: the loop that creates, heals, scales and removes
nodes, the state machine that provisions a cluster, the address plan, and the two merges that build
configuration.

## How the model is built

- **Steps.** What the operator does to one role's node list and to the outside world is a sequence
  of steps: an upsert of a list entry, a swap-removal, or a recorded call (`steps.dfy`). Each step is
  what the status mutex makes atomic. A foreign call to Hetzner, Talos or Kubernetes is an outcome
  chosen in advance by the environment, so a theorem over all outcomes is a theorem over all failure
  patterns.
- **Slices and pointers.** The node list is a backing array plus a length; a node pointer is an index
  into the array that was the backing array when the pointer was taken. Appends write in place while
  there is room and move the list otherwise, so pointers can come to refer to other nodes, as they do
  in the original.
- **Two levels.** The operator's methods are methods over a mutable class (`node_group.dfy`) or over
  mutable status objects. Each is proved to take exactly the steps, or to reach exactly the state,
  that a specification function gives; the theorems are lemmas about those functions.
- **Worlds.** `fleet.dfy` reads the recorded calls as a world of running servers and registered
  nodes, `control_plane_healing.dfy` reads them as an etcd membership.
- **Time** is a clock reading passed in, in nanoseconds.

Files follow the program: `nodes`, `steps`, `node_group`, `interleaving` (the list and goroutines);
`provisioning`, `attempt_results`, `attempt_order`, `fleet` (one server); `health`, `rebuilt_lists`
(the list of a pass); `healing`, `drained_replacements`, `healing_progress`, `worker_scale_up`,
`worker_scale_down`, `worker_reconcile`, `worker_pass`, `worker_bounds` (workers);
`control_plane_healing`, `skipped_removals`, `control_plane_scale_up`, `control_plane_pass`; `stuck_nodes`, `node_verifier`; `phase_history`, `addon_installer`,
`phase_machine`, `provisioning_status`; `status_persistence`; `cidr`, `network`, `node_pool`;
`chart_values`, `chart_paths`, `config_patch`; `sequences` (helpers).

## Assumptions about the environment

They are stated as predicates and appear only where a theorem needs them.

- A failed create call left no server behind, clean-up deletions succeed, and Talos clients are
  present (`Fleet.Clean`, `WorkerReconcile.CleanAnswers`).
- Generated names are fresh and distinct (`Healing.FreshNames`, `Interleaving.Distinct`).
- Between two passes servers may vanish and nodes may register, but nobody else starts a server or
  drops the node object of a running one (`WorkerReconcile.EnvironmentStep`).
- A status update that fails with an error other than a conflict did not land, and a re-read after
  a conflict returns the object as it then is, although the operator reads through a client cache
  (`StatusPersistence.Round`).
- A configuration whose application failed was not applied: only an applied one is recorded, and
  only a recorded one makes its node an etcd member (`Provisioning.ConfigureSteps`,
  `ControlPlaneHealing.EtcdStep`).
- The health check of a pass sees exactly the nodes registered at that time
  (`WorkerReconcile.Sound`).

## Where the code does not do what its comments or design say

Each of these is a theorem with the exact condition, or a concrete case.

- Healing drains only workers past the threshold: true for every failure pattern if and only if
  fewer than two workers are past it, or the last of them is further from the end of the list than
  there are others (`DrainedReplacements.HealingIsExact`). Otherwise the last pointer can come to
  refer to a fresh replacement. The cap does not matter: with the cap of one that the operator ships
  with, a replacement that failed does not count (`Healing.OnlyPastThresholdIsFalse`). Which turn of
  a run meets a replacement is exact too (`DrainedReplacements.TurnDrainsReplacementIff`).
- Scale-down drops from the list the first workers of its selection, not the ones whose servers it
  deleted; the two agree exactly when no failed removal precedes a successful one
  (`WorkerScaleDown.DropsWhatItDeletes`). "Newest by name" is by position in the list.
- The guard against duplicate creation cannot fire on a list the health check has rebuilt
  (`Health.GuardNeverFiresAfterRebuild`); a control plane that missed its deadline is created again
  (`ControlPlaneScaleUp.TimedOutControlPlaneIsDuplicated`).
- Removing the etcd member is best effort. When it is skipped, the quorum gate keeps the quorum at
  every moment of every such replacement exactly for even sizes
  (`SkippedRemovals.GateCoversSkippedRemoval`); with an odd size exactly when more nodes are ready
  than the gate asks for (`SkippedRemovals.QuorumCanBeLostIff`).
- Verified phases do not only move forward: a node being drained that Kubernetes still reports ready
  goes back to Ready (`NodeVerifier.ChangesGoForward`).
- Verifying a node without a public address records its private address as the public one
  (`NodeVerifier.ChangeKeepsIdentity`).
- Addons comes after Cilium: some run enters it without Cilium if and only if the CLI bootstrapped
  the cluster, Cilium is missing, and the phase is Infrastructure, Image, Compute or unknown, which
  is reset to Infrastructure (`PhaseMachine.SkipsCNIIff`, `PhaseMachine.ResetSkipsCNI`).
- An empty phase with a nil bootstrap field panics (`PhaseMachine.PanicsIff`).
- `persistClusterStatus` re-reads addons into a value it drops (`StatusPersistence.OnlyOneCarriesAddons`).
- A deleted or half-created pool re-issues held addresses (`NodePool.ReuseIsExact`).

## Model

| member | source | states |
|---|---|---|
| Nodes.UpsertEntry | internal/operator/controller/node_status.go:44-107 | an upsert changes the entry of its own key and no other |
| Nodes.UpsertKeepsUnique | internal/operator/controller/node_status.go:44-107 | an upsert keeps names unique and adds at most its own name |
| Nodes.SwapRemoveEntry | internal/operator/controller/node_status.go:156-175 | a swap-removal makes exactly its own key disappear, although it moves the last entry |
| Nodes.SwapRemoveKeepsUnique | internal/operator/controller/node_status.go:156-175 | a swap-removal keeps names unique and removes at most its own name |
| Nodes.TransitionTimeIsLatestChange | internal/operator/controller/node_status.go:60-98 | after any history of updates PhaseTransitionTime is the time of the latest phase change |
| Nodes.LatestValuesStay | internal/operator/controller/node_status.go:60-98 | after any history of updates a node is healthy exactly when the last one made it Ready, and carries the latest server id and addresses given |
| Steps.RunRefinesList | internal/operator/controller/node_status.go:44-175 | however appends and removals use the backing array, the slice's contents follow the plain list, and the recorded calls follow the steps |
| NodeGroups.NodeGroup.UpdateNodePhase | internal/operator/controller/node_status.go:44-107 | updates or appends in place and is exactly one upsert step |
| NodeGroups.NodeGroup.RemoveNodeFromStatus | internal/operator/controller/node_status.go:156-175 | overwrites with the last entry, truncates, and is exactly one removal step |
| Interleaving.EntryAfterRun | internal/operator/controller/node_status.go:44-175 | a name's final entry depends only on the steps that concern it, in their order |
| Interleaving.Confluent | internal/operator/controller/reconcile_scaling_workers.go:147-243 | every complete interleaving of owned scripts ends, up to order and clock readings, with the entries of running them one after another |
| Interleaving.EarlierEntriesUntouched | internal/operator/controller/node_status.go:44-175 | steps about new names leave the earlier entries as a prefix of the list |
| Provisioning.HandleProvisioningFailure | internal/operator/controller/server_provisioning.go:388-402 | marks the node failed, deletes its server whatever the answer, drops its entry, in this order |
| Provisioning.ProvisionServer | internal/operator/controller/server_provisioning.go:221-301 | the steps of every outcome of creating a server; succeeds exactly when address and server id were obtained |
| Provisioning.ConfigureNode | internal/operator/controller/reconcile_scaling_workers.go:248-286 | the steps of every outcome of configuring a node, for both roles; success exactly when configured or without Talos clients |
| Provisioning.WaitForReady | internal/operator/controller/reconcile_scaling_cp.go:294-330 | a worker that misses its deadline is cleaned up, a control plane is kept |
| Provisioning.ProvisionAndConfigureNode | internal/operator/controller/server_provisioning.go:321-385 | takes the steps of a whole attempt and succeeds exactly when both halves do |
| AttemptResults.AttemptEntry | internal/operator/controller/server_provisioning.go:221-402 | the list entry every outcome of an attempt leaves behind |
| AttemptOrder.AttemptAscends | internal/operator/controller/server_provisioning.go:221-402 | an attempt marks its phases in the order of a node's life, each once, with every call between the phases it belongs to |
| AttemptOrder.AttemptVisits | internal/operator/controller/server_provisioning.go:221-402 | which phases an attempt goes through, by how far its calls let it come; Failed exactly when it is given up |
| AttemptOrder.AppliedIff | internal/operator/controller/reconcile_scaling_workers.go:248-318 | when a configuration is applied, and that a node becomes ready only with one |
| AttemptOrder.DrainAscends | internal/operator/controller/reconcile_healing.go:71-163 | marked Draining while drained, marked DeletingServer while node object and then server are deleted, stopped there by a refusal |
| AttemptOrder.RemovalAscends | internal/operator/controller/reconcile_healing.go:19-100 | a control plane is marked RemovingFromEtcd while its member goes, and DeletingServer before anything of it is deleted |
| Fleet.AttemptPresence | internal/operator/controller/server_provisioning.go:321-402 | with clean failures, a server survives an attempt exactly when the worker became ready, or the control plane was configured; the node is registered exactly on success |
| Fleet.WorldByName | internal/operator/controller/reconcile_scaling_workers.go:131-318 | what happens to a server and its node object follows from the steps that concern its name |
| Healing.HealingSparesBystanders | internal/operator/controller/reconcile_scaling_workers.go:41-77 | for every failure pattern and budget, every step of the healing loop concerns a worker that was pointed at on entry or was created by the loop |
| Healing.HealingActsOnPastThreshold | internal/operator/controller/reconcile_scaling_workers.go:21-77 | drains and deletions hit only workers past the threshold at entry or created in the call, and every other entry is unchanged |
| Healing.BystanderKeepsEntry | internal/operator/controller/reconcile_healing.go:125-163 | a worker that is neither keeps its list entry as it was |
| Healing.PointersAfterReplace | internal/operator/controller/reconcile_healing.go:125-134 | after one replacement the remaining pointers hold doomed workers or the fresh node |
| Healing.LastPointerMeetsReplacement | internal/operator/controller/reconcile_healing.go:125-185 | a pointer to the last entry comes to hold the replacement made for an earlier one |
| Healing.ReplacementIsDrained | internal/operator/controller/reconcile_scaling_workers.go:41-77 | with two unhealthy workers, the last of them at the end of the list, the node of the first replacement is drained whenever the second turn comes: with a cap of one after a failed attempt, with a larger cap always |
| Healing.OnlyPastThresholdIsFalse | internal/operator/controller/reconcile_scaling_workers.go:41-77 | a concrete list where the loop, with the operator's own cap of one, drains a node that was neither listed nor unhealthy |
| DrainedReplacements.ReplacementWrites | internal/operator/controller/reconcile_healing.go:125-185 | a replacement writes the slot of a later pointer only when its own attempt lands there, and shortens the list by at most one |
| DrainedReplacements.HarmsVictims | internal/operator/controller/reconcile_healing.go:71-163 | a node is drained, or its node object deleted, only if it is the one whose turn it is; every node whose turn comes is drained |
| DrainedReplacements.TurnDrainsReplacementIff | internal/operator/controller/reconcile_scaling_workers.go:41-77 | in any run a turn drains a replacement if and only if an earlier turn dropped its worker and made an attempt that landed in the slot of this turn's pointer |
| DrainedReplacements.HealingIsExact | internal/operator/controller/reconcile_scaling_workers.go:41-77 | for every cap, every failure pattern drains only workers past the threshold, and deletes only their node objects, if and only if fewer than two are past it or the index of the last one plus their number is at most the length of the list |
| Healing.PointersAreExact | internal/operator/controller/node_status.go:391-402 | the pointers found are increasing and are exactly the workers past the threshold |
| Healing.FindUnhealthyNodes | internal/operator/controller/node_status.go:391-402 | returns exactly those pointers, into the current backing array, and changes no entry |
| Healing.DrainAndDeleteWorker | internal/operator/controller/reconcile_healing.go:137-163 | reads the name through the pointer before every call and takes the drain and deletion steps of that one worker |
| Healing.DeleteNodeAndServer | internal/operator/controller/reconcile_healing.go:71-100 | stops when the node object cannot be deleted, goes on when the server cannot |
| Healing.ReplaceWorker | internal/operator/controller/reconcile_healing.go:125-134 | drain, delete, drop the entry, then a whole attempt under a new name |
| Healing.ReplaceUnhealthyWorkers | internal/operator/controller/reconcile_scaling_workers.go:41-77 | takes the steps of the healing loop and never replaces more than the cap |
| HealingProgress.HealingDrainsFirst | internal/operator/controller/reconcile_healing.go:137-163 | in the healing loop nothing of a node is deleted before it was drained, except a server that failed while it was created |
| HealingProgress.ReplaceSwaps | internal/operator/controller/reconcile_healing.go:125-185 | a replacement that succeeds leaves the world with the fresh registered server in the place of the old one |
| HealingProgress.HealingSwaps | internal/operator/controller/reconcile_scaling_workers.go:41-77 | with every call succeeding the loop replaces the node of each turn, for min(cap, pointers) turns |
| HealingProgress.HealingReplaces | internal/operator/controller/reconcile_scaling_workers.go:21-77 | with room in the list and every call succeeding, healing replaces exactly the first workers past the threshold, up to the cap |
| WorkerScaleUp.ScaleUpIsConfluent | internal/operator/controller/reconcile_scaling_workers.go:131-244 | any schedule of both phases ends with the entries, up to order and clock readings, of creating the workers one by one; names stay unique and earlier entries untouched |
| WorkerScaleUp.OwnInScaleUp | internal/operator/controller/reconcile_scaling_workers.go:147-217 | whatever the schedule, each worker's steps are its own attempt from start to end |
| WorkerScaleUp.ScaleUpKeepsServersRegistered | internal/operator/controller/reconcile_scaling_workers.go:131-318 | after a scale-up the new servers are exactly the workers that became ready, and every server has its node |
| WorkerScaleUp.ScaleUpNeverOvershoots | internal/operator/controller/reconcile_scaling_workers.go:131-244 | at no moment are there more servers than before plus requested |
| WorkerScaleUp.RunGoroutines | internal/operator/controller/reconcile_scaling_workers.go:155-217 | executing a schedule step by step on the shared list is its interleaving |
| WorkerScaleUp.ScaleUpWorkers | internal/operator/controller/reconcile_scaling_workers.go:131-244 | takes both phases' steps and reports success exactly when every requested worker succeeded |
| WorkerScaleDown.SelectWorkersForRemoval | internal/operator/controller/reconcile_scaling_workers.go:410-441 | exactly min(count, n) distinct workers, none healthy while an unhealthy one is left out, unhealthy front to back, healthy back to front |
| WorkerScaleDown.SelectionIsRight | internal/operator/controller/reconcile_scaling_workers.go:410-441 | the selection has that order and leaves no better candidate out |
| WorkerScaleDown.DropsAsManyAsItDeletes | internal/operator/controller/reconcile_scaling_workers.go:332-345 | as many entries are dropped as workers were removed |
| WorkerScaleDown.DropsWhatItDeletes | internal/operator/controller/reconcile_scaling_workers.go:332-345 | the dropped entries are those of the removed workers if and only if no failed removal precedes a successful one |
| WorkerScaleDown.WrongEntryDropped | internal/operator/controller/reconcile_scaling_workers.go:332-345 | a failure followed by a success drops the entry of the worker that still runs |
| WorkerScaleDown.AllSucceed | internal/operator/controller/reconcile_scaling_workers.go:332-345 | with deletions succeeding, min(cap, selected) workers are removed |
| HealingProgress.DownDrainsFirst | internal/operator/controller/reconcile_scaling_workers.go:355-406 | scaling down drains every worker before it deletes anything of it |
| Health.BuildNodeGroupStatus | internal/operator/controller/reconcile_health.go:72-128 | a new list with one phaseless entry per node, and the ready and unhealthy counts that add up to it |
| Health.CountWorkersInEarlyProvisioning | internal/operator/controller/node_status.go:380-388 | the number of entries in the seven provisioning phases |
| Health.GuardNeverFiresAfterRebuild | internal/operator/controller/reconcile_health.go:72-128 | on a rebuilt list no worker counts as provisioning |
| RebuiltLists.SickNodesAreFound | internal/operator/controller/reconcile_health.go:72-128 | healing points at exactly the registered nodes whose Ready condition has not been true for longer than the threshold |
| RebuiltLists.PeerIsFirstReady | internal/operator/controller/reconcile_health.go:72-128 | the etcd peer is asked at the internal address of the first ready node that has one |
| RebuiltLists.NodeIsReachedAt | internal/operator/controller/reconcile_health.go:72-128 | a registered node keeps its server id and is reached at its external address, or else its internal one |
| RebuiltLists.ReadyNodesAreCounted | internal/operator/controller/reconcile_health.go:72-128 | the ready count is the number of nodes whose Ready condition is true |
| RebuiltLists.EarlyIsBeforeReady | internal/operator/controller/node_status.go:360-388 | the guard counts exactly the phases from creation up to readiness |
| WorkerReconcile.ReplaceKeepsTracked | internal/operator/controller/reconcile_healing.go:125-185 | one replacement keeps every running server listed and registered |
| WorkerReconcile.HealingKeepsTracked | internal/operator/controller/reconcile_scaling_workers.go:41-77 | so does the whole loop, whatever its pointers come to hold |
| WorkerReconcile.DownKeepsRegistered | internal/operator/controller/reconcile_scaling_workers.go:332-406 | scale-down stops exactly the removed workers' servers and keeps the rest registered |
| WorkerReconcile.DownUnregisters | internal/operator/controller/reconcile_scaling_workers.go:355-406 | with node objects found and deleted, exactly the removed workers leave Kubernetes too |
| WorkerReconcile.PassKeepsCovered | internal/operator/controller/reconcile_scaling_workers.go:21-38 | a whole pass ends with every running worker server registered |
| WorkerReconcile.PassNeverOvershoots | internal/operator/controller/reconcile_scaling_workers.go:80-126 | whenever a pass scales up, the running servers stay at or below the desired count at every moment |
| WorkerReconcile.WorkersNeverLost | internal/operator/controller/reconcile_phases.go:295-318 | over any run of passes and environment steps every running worker server is a registered node |
| WorkerReconcile.RunNeverOvershoots | internal/operator/controller/reconcile_phases.go:295-318 | over any run with a fixed desired count no scale-up takes the running count above it |
| WorkerPass.ScaleDownConverges | internal/operator/controller/reconcile_scaling_workers.go:110-122 | with deletions succeeding and nobody in early provisioning, the list a pass leaves is shorter by min(cap, excess), lacks exactly the workers whose servers are gone, and never goes below desired |
| WorkerPass.ScaleDownChoosesWell | internal/operator/controller/reconcile_scaling_workers.go:321-441 | with deletions succeeding the workers that leave the list are well chosen at any cap: unhealthy before healthy, unhealthy front to back, healthy back to front |
| WorkerPass.RemoveWorkersFromStatus | internal/operator/controller/reconcile_scaling_workers.go:444-462 | keeps exactly the entries not named, in order, in a list of their own |
| WorkerPass.WithoutEntry | internal/operator/controller/reconcile_scaling_workers.go:454-461 | the entries that remain are exactly those not named |
| WorkerPass.DecommissionWorker | internal/operator/controller/reconcile_scaling_workers.go:355-406 | a failed server deletion is an error, a failed node deletion is not |
| WorkerPass.ScaleDownWorkers | internal/operator/controller/reconcile_scaling_workers.go:321-352 | what is called, which entries are dropped, and that success means enough were removed |
| WorkerPass.ScaleWorkers | internal/operator/controller/reconcile_scaling_workers.go:80-126 | skips while workers are provisioning, else scales towards the desired count; the list, the calls and the requeue of each case |
| WorkerPass.ReconcileWorkers | internal/operator/controller/reconcile_scaling_workers.go:21-38 | heals first, then scales what healing left, and requeues when scaling asks for it or a worker was unhealthy |
| WorkerPass.RunPass | internal/operator/controller/reconcile_phases.go:299-310 | rebuild, heal, scale: the list it leaves, its requeue, and its calls, which are the ones the fleet theorems speak about |
| WorkerPass.WhenToScale | internal/operator/controller/reconcile_scaling_workers.go:80-126 | a pass leaves the list and the world alone while anybody is being provisioned or a shortage lacks its prerequisites; when it asks to come back |
| WorkerPass.RequeuedUnlessIdle | internal/operator/controller/reconcile_scaling_workers.go:21-38 | a pass asks for no other one exactly when it found nothing to do, and then did nothing |
| WorkerBounds.ReplaceIsListed | internal/operator/controller/reconcile_healing.go:125-185 | at every moment of a replacement every running server is in the list |
| WorkerBounds.PassIsBounded | internal/operator/controller/reconcile_scaling_workers.go:21-126 | at every moment of a pass, healing and scaling, at most max(registered at its start, desired) workers run, whatever fails |
| WorkerBounds.RunIsBounded | internal/operator/controller/reconcile_phases.go:295-318 | so at every moment of every pass of a run with a fixed desired count |
| WorkerBounds.ExcessDisappears | internal/operator/controller/reconcile_scaling_workers.go:80-126 | after k undisturbed passes the registered count is max(desired, initial - k * cap) |
| WorkerBounds.ScalingFills | internal/operator/controller/reconcile_scaling_workers.go:80-126 | with fewer workers than desired and every call succeeding, scaling adds exactly the missing number of servers, each registered |
| WorkerBounds.WorkersConverge | internal/operator/controller/reconcile_phases.go:295-318 | over undisturbed passes the registered count reaches the desired one: a shortage in one pass, an excess by the cap per pass |
| ControlPlaneHealing.HealingKeepsQuorum | internal/operator/controller/reconcile_healing.go:19-68 | for every cluster size, at every moment of a replacement the live voters are a majority, whatever fails after the member was removed |
| SkippedRemovals.SkippedRemoval | internal/operator/controller/reconcile_healing.go:42-67 | without the removal the joiner makes total + 1 members, and the quorum holds exactly when twice the surviving voters exceed that |
| SkippedRemovals.SkippedRemovalIff | internal/operator/controller/reconcile_healing.go:19-68 | a cluster is quorate at every moment of every replacement whose removal is skipped, whatever else fails, if and only if twice the voters without the victim exceed total + 1 |
| SkippedRemovals.QuorumCanBeLostIff | internal/operator/controller/reconcile_scaling_cp.go:77-98 | given the node list, every such cluster is safe if and only if the size is even or more nodes are ready than total / 2 + 1 |
| SkippedRemovals.GateCoversSkippedRemoval | internal/operator/controller/reconcile_scaling_cp.go:77-98 | over all clusters of a size, the gate alone guarantees that exactly for even sizes |
| SkippedRemovals.QuorumLost | internal/operator/controller/reconcile_healing.go:42-67 | three control planes, two ready, no removal: quorate before, not after |
| SkippedRemovals.QuorumCanBeLost | internal/operator/controller/reconcile_healing.go:42-67 | a concrete such case exists |
| ControlPlaneHealing.ReadyCount | internal/operator/controller/reconcile_health.go:105-122 | the ready count of a uniquely named list is the number of ready names |
| ControlPlaneHealing.FindHealthyControlPlaneIP | internal/operator/controller/cluster_state.go:27-34 | the private address of the first healthy control plane that has one |
| ControlPlaneHealing.RemoveFromEtcd | internal/operator/controller/reconcile_healing.go:34-68 | removes the first member that matches by name or address, and nothing when any obstacle arises |
| ControlPlaneHealing.ReplaceControlPlane | internal/operator/controller/reconcile_healing.go:19-31 | member first, then node object, server, entry and a new attempt |
| ControlPlaneHealing.ReplaceUnhealthyCPIfNeeded | internal/operator/controller/reconcile_scaling_cp.go:68-126 | acts on the first node past the threshold, and with fewer ready nodes than a majority leaves list and calls as they were; requeue and error of each case |
| ControlPlaneScaleUp.ConfiguredServersArePreserved | internal/operator/controller/reconcile_scaling_cp.go:285-330 | for every count, schedule and failure pattern no server is deleted after its configuration was applied |
| ControlPlaneScaleUp.OneJoinerAtATime | internal/operator/controller/reconcile_scaling_cp.go:197-232 | at every moment at most one control plane is configured and not ready |
| ControlPlaneScaleUp.StopsAtFirstFailure | internal/operator/controller/reconcile_scaling_cp.go:215-222 | servers that arrive after the first configure failure are not touched |
| ControlPlaneScaleUp.ScaleUpControlPlanes | internal/operator/controller/reconcile_scaling_cp.go:139-239 | succeeds exactly when every requested control plane was created and configured |
| ControlPlaneScaleUp.ConfigureServers | internal/operator/controller/reconcile_scaling_cp.go:198-238 | the sequential half, with its early return |
| ControlPlaneScaleUp.WorldAfterCPScaleUp | internal/operator/controller/reconcile_scaling_cp.go:139-330 | which servers stand and which nodes are registered afterwards, including servers whose turn never came |
| ControlPlaneScaleUp.SurplusIffUnlistedServer | internal/operator/controller/reconcile_scaling_cp.go:38-61 | after a scale-up that reached its goal there are too many servers if and only if there was one more server than listed nodes |
| ControlPlaneScaleUp.TimedOutControlPlaneIsDuplicated | internal/operator/controller/reconcile_scaling_cp.go:28-40 | two passes around a control plane that misses its deadline end with one server more than desired |
| ControlPlaneScaleUp.ReconcileControlPlanes | internal/operator/controller/reconcile_scaling_cp.go:21-48 | guard, scale-up, single-node exemption or replacement: list, calls, and requeue and error of each case |
| ControlPlanePass.PassKeepsQuorum | internal/operator/controller/reconcile_scaling_cp.go:21-126 | a pass that scales nothing up keeps etcd quorate at every moment, whatever fails, when the member is removed or the size is even; the operator's own check is all that is needed |
| ControlPlanePass.WhenToWait | internal/operator/controller/reconcile_scaling_cp.go:21-98 | a pass touches nothing during a provisioning, without prerequisites, with a single node, without a ready majority, or without a node past the threshold |
| ControlPlanePass.WhenToReplace | internal/operator/controller/reconcile_scaling_cp.go:68-126 | otherwise a pass with its nodes complete replaces the first node past the threshold |
| ControlPlanePass.RequeuedUnlessIdle | internal/operator/controller/reconcile_scaling_cp.go:21-126 | a pass that asks for no other and reports no error did nothing; one that fails started a replacement that failed |
| ControlPlanePass.RemovedIff | internal/operator/controller/reconcile_healing.go:34-68 | exactly when the etcd member is removed, and that it is the first match by name or address |
| ControlPlanePass.MemberGoesFirst | internal/operator/controller/reconcile_healing.go:19-68 | the removal of the member is the first call of a replacement |
| ControlPlanePass.MemberIsReplaced | internal/operator/controller/reconcile_healing.go:19-100 | with every call succeeding the fresh node takes the place of the old one among members and voters |
| ControlPlanePass.ServerIsReplaced | internal/operator/controller/reconcile_healing.go:19-100 | and among servers and registered nodes |
| ControlPlanePass.PassFills | internal/operator/controller/reconcile_scaling_cp.go:21-65 | with fewer control planes than desired and every call succeeding, a pass adds exactly the missing number, each registered |
| StuckNodes.TransitionTimeInList | internal/operator/controller/node_status.go:60-98 | however other nodes' updates interleave, an added node carries the time of its latest phase change |
| StuckNodes.CleanupIsExact | internal/operator/controller/cluster_controller.go:350-358 | after check and clean-up the entries left are exactly those not over their phase timeout |
| StuckNodes.CleanupDeletes | internal/operator/controller/node_status.go:235-264 | each stuck node's server is deleted once, in list order, and no other |
| StuckNodes.CheckStuckNodes | internal/operator/controller/node_status.go:179-222 | the names of the nodes over the timeout of their phase, in order |
| StuckNodes.StuckIff | internal/operator/controller/node_status.go:17-30 | after how long in which phase a node is stuck: five, ten or fifteen minutes |
| StuckNodes.CleanUpStuckNodes | internal/operator/controller/cluster_controller.go:350-358 | the same for both roles, although the second list was checked before the first was edited; each role's deletions are those of its own stuck nodes |
| NodeVerifier.ChangesGoForward | internal/operator/controller/node_status.go:325-358 | a change raises the rank unless it returns an unhealthy, draining or removing node to Ready; failed nodes never change |
| NodeVerifier.ReadyAndFailedAreExact | internal/operator/controller/node_state_verifier.go:42-137 | in terms of what the probes answer, when a node is found ready and when it is found failed |
| NodeVerifier.FoundPhasesAreExact | internal/operator/controller/node_state_verifier.go:42-137 | for each phase, exactly which answers of Kubernetes, Talos and the cloud lead to it |
| NodeVerifier.FindingsAreRecorded | internal/operator/controller/node_status.go:268-358 | a finding is recorded exactly when it lies ahead or is Ready or Failed; the change makes the node healthy exactly in Ready |
| NodeVerifier.ChangeKeepsIdentity | internal/operator/controller/node_status.go:279-311 | a change keeps name, server id and private address, and records as public the address the node was reached at |
| NodeVerifier.AtMostEightChanges | internal/operator/controller/node_status.go:268-358 | over any run of observations a node between creation and readiness changes at most eight times and ends in that range or failed |
| NodeVerifier.EightChangesHappen | internal/operator/controller/node_state_verifier.go:90-137 | observations exist that move a node through all of them |
| NodeVerifier.PassesKeepNames | internal/operator/controller/node_status.go:268-320 | verification keeps the list's length and names |
| NodeVerifier.VerifyNodes | internal/operator/controller/node_status.go:268-320 | looks at the entries one by one in the list it edits, on any list |
| NodeVerifier.VerifyEachIsSeparate | internal/operator/controller/node_status.go:268-320 | on a uniquely named list that leaves every entry as looking at it alone would |
| PhaseHistory.HistoryIsTimeline | internal/operator/controller/reconcile_phases.go:23-66 | after any recordings only the last record is open, each ends when the next starts, PhaseStartedAt is the last start, and LastErrors are the last ten errors in order |
| PhaseHistory.TransitionKeepsTimeline | internal/operator/controller/reconcile_phases.go:23-43 | a transition opens one record without an error and rewrites nothing of the earlier ones but their end |
| PhaseHistory.ErrorTouchesOpenRecord | internal/operator/controller/reconcile_phases.go:46-66 | an error is written to the open record alone |
| PhaseHistory.RoundingIsNearest | internal/operator/controller/reconcile_phases.go:30-31 | recorded durations are within half a second and symmetric in sign |
| PhaseHistory.PhaseLog.RecordPhaseTransition | internal/operator/controller/reconcile_phases.go:23-43 | closes what is open and opens one record |
| PhaseHistory.PhaseLog.RecordPhaseError | internal/operator/controller/reconcile_phases.go:46-66 | blames what is open and keeps the last ten errors |
| AddonInstaller.EnabledSteps | internal/addons/steps.go:34-66 | exactly the enabled addons, in strictly ascending order |
| AddonInstaller.EnabledAreDistinct | internal/addons/steps.go:14-24 | their names differ from each other and from Cilium |
| AddonInstaller.SelectedAreAskedFor | internal/addons/steps.go:34-66 | each switch of the configuration selects its own addon |
| AddonInstaller.CallTouchesFirstMissing | internal/operator/controller/reconcile_addons.go:281-337 | a call installs the first missing step or raises its retry count by one, and touches no other addon |
| AddonInstaller.InstallsInOrder | internal/operator/controller/reconcile_addons.go:274-352 | over any run the installed steps are a prefix, as long as the number of successes |
| AddonInstaller.CompleteIffAllInstalled | internal/operator/controller/reconcile_addons.go:339-351 | Complete is reached exactly when all steps are installed |
| AddonInstaller.CallsToComplete | internal/operator/controller/reconcile_addons.go:274-352 | it takes exactly one call per step, one per failure, and one more |
| AddonInstaller.BackoffGrows | internal/operator/controller/reconcile_addons.go:356-365 | waiting times stay between ten seconds and a minute and never shrink |
| AddonInstaller.TotalWaitIs | internal/operator/controller/reconcile_addons.go:354-365 | the waits are ten seconds, thirty, then a minute for every further failure |
| PhaseMachine.PanicsIff | internal/operator/controller/cluster_controller.go:410-421 | a reconcile panics exactly on an empty phase with a nil bootstrap field, and none leaves an empty phase, so only a first one can |
| PhaseMachine.ReconcileAdvances | internal/operator/controller/cluster_controller.go:394-460 | a reconcile keeps the cluster on its legal path, moves it at most one place, keeps the history equal to the path so far, and has Cilium installed wherever it is needed |
| PhaseMachine.RunsFollowThePath | internal/operator/controller/reconcile_phases.go:70-240 | so does every run from the empty phase |
| PhaseMachine.ChangesAreFew | internal/operator/controller/reconcile_phases.go:70-240 | each phase change moves one place on, so a run of any length makes at most as many as its path has steps |
| PhaseMachine.MovesOnIff | internal/operator/controller/cluster_controller.go:394-460 | a cluster on its path moves on exactly when the work of its phase is done, for every phase |
| PhaseMachine.ReachesComplete | internal/operator/controller/cluster_controller.go:394-460 | with every call succeeding a cluster is complete after its phases before Addons, one reconcile per addon and one more, and no sooner |
| PhaseMachine.OffPathReturns | internal/operator/controller/cluster_controller.go:425-460 | an unknown phase starts over; the phase of earlier versions is left when its work is done |
| PhaseMachine.OverdueIff | internal/operator/controller/cluster_controller.go:462-501 | after how many minutes in which phase an error is recorded |
| PhaseMachine.ErrorsAreRecorded | internal/operator/controller/cluster_controller.go:394-501 | a reconcile records exactly the errors it meets: an overrun phase, a failed installation |
| PhaseMachine.StatusesAreSound | internal/operator/controller/reconcile_addons.go:75-337 | over any run an addon is healthy exactly when installed, carries its order, and counts its failures until then |
| PhaseMachine.AddonsWithoutCiliumIff | internal/operator/controller/cluster_controller.go:394-460 | one reconcile enters Addons without Cilium exactly from a finished Compute phase of a CLI-bootstrapped cluster that has none |
| PhaseMachine.SkipsCNIIff | internal/operator/controller/cluster_controller.go:394-460 | some run enters Addons without Cilium if and only if the CLI bootstrapped the cluster, Cilium is missing, and the phase is unknown, Infrastructure, Image or Compute |
| PhaseMachine.ResetSkipsCNI | internal/operator/controller/cluster_controller.go:455-459 | from an unknown phase a CLI-bootstrapped cluster reaches Addons without Cilium in four reconciles |
| ProvisioningStatus.ClusterStatus.CheckPhaseTimeout | internal/operator/controller/cluster_controller.go:474-501 | records one error exactly when the phase runs longer than twice its expected duration |
| ProvisioningStatus.ClusterStatus.ReconcileInfrastructurePhase | internal/operator/controller/reconcile_phases.go:70-135 | opens the history when it is empty and goes on to Image when the infrastructure exists or was made |
| ProvisioningStatus.ClusterStatus.InstallAndWaitForCNI | internal/operator/controller/reconcile_addons.go:75-123 | Cilium is recorded as installing before it is ready and as installed after |
| ProvisioningStatus.ClusterStatus.InstallNextAddon | internal/operator/controller/reconcile_addons.go:274-352 | the new status, history and phase of a call, and the backoff after a failure |
| ProvisioningStatus.ClusterStatus.ReconcileWithStateMachine | internal/operator/controller/cluster_controller.go:394-460 | in place, one reconcile of the state machine, panic included |
| StatusPersistence.AllOrNothing | internal/operator/controller/cluster_controller.go:300-334 | success means exactly one write landed, on the version last read, with the caller's status and the first addons that are not nil; anything else means none |
| StatusPersistence.FewRereads | internal/operator/controller/cluster_controller.go:303-318 | for either writer, a successful write follows fewer re-reads than there are attempts |
| StatusPersistence.FirstVerdictDecides | internal/operator/controller/cluster_controller.go:300-334 | the outcome of any run: the first attempt that is not a conflict with a working re-read decides it |
| StatusPersistence.OwnStatusIsKept | internal/operator/controller/node_status.go:118-152 | the writer that only refreshes the version leaves the caller's status as it was |
| StatusPersistence.OnlyOneCarriesAddons | internal/operator/controller/node_status.go:140-146 | after a conflict one writer saves the addons it re-read, the other saves none |
| StatusPersistence.UpdateStatusWithRetry | internal/operator/controller/cluster_controller.go:300-334 | three attempts of the protocol that fills in addons |
| StatusPersistence.PersistClusterStatus | internal/operator/controller/node_status.go:118-152 | three attempts of the protocol that only refreshes the version |
| Cidr.SubnetIsInside | internal/config/cidr.go:18-64 | every numbered subnet exists, is a proper network inside its parent, and nothing wraps at 32 bits |
| Cidr.SubnetsAreDisjoint | internal/config/cidr.go:18-64 | two numbered subnets of a prefix share no address |
| Cidr.SubnetsCover | internal/config/cidr.go:18-64 | every address of a prefix lies in the numbered subnet computed for it |
| Cidr.HostIsInside | internal/config/cidr.go:74-115 | a host number is accepted exactly when it fits, and the address lies that far into the network |
| Cidr.HostFromEnd | internal/config/cidr.go:91-98 | negative host numbers count from the end and fail exactly when they reach before the start |
| Network.NetworkConfig.CalculateSubnets | internal/config/network.go:27-49 | given ranges stay, missing ones are cut from the network; succeeds exactly when they fit; what an early failure leaves |
| Network.RangesArePartOfNetwork | internal/config/network.go:51-95 | the node, service and pod ranges lie in the network and do not meet |
| Network.RoleSubnetsExist | internal/config/network.go:97-132 | role subnets use six more bits than the node range and exist exactly for networks of length at most 23 |
| Network.RolesAreApart | internal/config/network.go:134-153 | control planes, load balancers, autoscaler and worker pools 0 to 60 have disjoint subnets |
| Network.RolesLieInOrder | internal/config/network.go:97-153 | the role subnets lie in the node range in order and without gaps, the autoscaler's at its end |
| Network.UnknownRoleFails | internal/config/network.go:134-153 | any other role is an error |
| Network.PastTheLastPool | internal/config/network.go:134-153 | pool 61 gets the autoscaler's subnet, later pools an error |
| NodePool.AddressIsInside | internal/provisioning/compute/pool.go:71-99 | an address lies in its role's subnet at host number 2 or later |
| NodePool.AddressesAreConsecutive | internal/provisioning/compute/pool.go:71-99 | a pool's addresses are consecutive from host 2 on; control-plane pools lie ten hosts apart |
| NodePool.AddressesAreDistinct | internal/provisioning/compute/pool.go:71-99 | over all pools and indexes of a pass no address is handed out twice |
| NodePool.PoolsFitIsExact | internal/provisioning/compute/pool.go:78-85 | control-plane hosts differ if and only if no pool reaches the hosts of a later pool in use |
| NodePool.TenFit | internal/provisioning/compute/pool.go:78-85 | pools of at most ten nodes satisfy that |
| NodePool.ReuseIsExact | internal/provisioning/compute/pool.go:48-69 | a re-run hands out a held address if and only if a server holds an index at or beyond the number of servers |
| NodePool.GrowingPoolsReuseNothing | internal/provisioning/compute/pool.go:48-99 | runs that only grow a pool and never partially fail reuse no address, in whatever order servers are listed |
| NodePool.DeletedServerCausesReuse | internal/provisioning/compute/pool.go:48-69 | after the middle of three servers was deleted the replacement gets the last one's address |
| NodePool.PlanPool | internal/provisioning/compute/pool.go:55-138 | existing names first, then fresh ones, each with the address of its index; no plan when any address fails |
| ChartValues.ConvertIsHomomorphic | internal/addons/helm/values.go:25-64 | ToMap of a merge is the merge of the ToMaps if and only if no nil map overrides a map with entries |
| ChartValues.ConvertIsIdempotent | internal/addons/helm/values.go:91-142 | converting twice is converting once |
| ChartValues.MergeIsAssociative | internal/addons/helm/values.go:15-51 | three layers regroup if and only if nowhere a non-map between two maps hides entries of the first that the last lacks |
| ChartValues.LayersRegroup | internal/addons/helm/renderer.go:84-90 | so they regroup whenever no path goes map, something else, map |
| ChartValues.GroupingMatters | internal/addons/helm/values.go:15-51 | a scalar between two maps makes the grouping matter |
| ChartValues.DeepMergeTwoMaps | internal/addons/helm/values.go:25-51 | in any iteration order, the right-biased merge |
| ChartValues.DeepMerge | internal/addons/helm/values.go:16-22 | later layers win, from an empty map on |
| ChartValues.MergeCustomValues | internal/addons/helm/values.go:147-152 | the merge of both, the shortcut for no custom values included |
| ChartValues.ToMap | internal/addons/helm/values.go:91-97 | the plain map of the converted entries |
| ChartValues.ConvertToInterface | internal/addons/helm/values.go:102-142 | the converted value, for each kind of map and slice |
| ChartPaths.ConvertKeepsEveryPath | internal/addons/helm/values.go:91-142 | at every path the flattened value has the keys, the length or the leaf of the original |
| ChartPaths.ConvertIsDetermined | internal/addons/helm/values.go:91-142 | it is the only value of plain maps and untyped slices that does |
| ChartPaths.MergeAtPath | internal/addons/helm/values.go:25-51 | what every path of a merge leads to: the override where it says anything but a map on the way, else both maps together or whatever is there |
| ChartPaths.LastWordWins | internal/addons/helm/values.go:16-22 | among any number of layers the last one that says anything but a map at a path decides it |
| ConfigPatch.DeepMerge | internal/platform/talos/config.go:229-243 | either map possibly nil: the destination ends as the patch of the two values whatever the key order, the source still stands for its value, and only maps of the destination that a map of the source is laid over are written |
| ConfigPatch.MergeKey | internal/platform/talos/config.go:230-241 | one key: two maps merge in place, anything else is stored, the source's own map included |
| ConfigPatch.PatchIsMergeIff | internal/platform/talos/config.go:227-243 | the patch is the right-biased merge of the chart values if and only if no nil map meets a map |
| ConfigPatch.NilActsAsEmpty | internal/platform/talos/config.go:227-243 | where nothing panics a nil map acts as an empty one on either side |
| ConfigPatch.UnsharedIsApart | internal/platform/talos/config.go:215-225 | a freshly parsed configuration and a patch that shares no map with it meet the condition on sharing of the merge |

## Left out

- Hetzner, Talos, Kubernetes, S3, Cloudflare and SSH clients: each call is an outcome of the environment.
- Timers, tickers, backoff waits and contexts: time is a clock reading passed in; the steps of one attempt, and one check of a list, share a reading.
- Events, metrics, logging, command line, terminal interface and cost rendering: no state the properties rest on.
- PhaseReason, UnhealthyReason, LastHealthCheck and other message texts: written, never read by the modelled code; the texts of the recorded phase-timeout errors are shortened to one constant.
- Cordoning, pod eviction and the retries inside them: one recorded drain per node.
- The calls that persist the status between the steps of a script: their protocol is modelled in `status_persistence.dfy`, their effect on a script is none.
- The nil checks on the cloud client in scaling: `Reconcile` ensures it before it reconciles.
- A cluster object deleted or paused, credentials, server types, labels and placement groups: inputs of foreign calls.
- The growth policy of Go's append beyond "a larger array": nothing proved depends on it.
- The overall cluster phase, its conditions, and the infrastructure, addon and connectivity probes: independent fields computed from counts and probes.
- `ensureWorkersReady`: the addons phase takes the readiness of workers as an answer; the scale-up it may start is `WorkerScaleUp.ScaleUpWorkers`.
- YAML and CIDR text parsing, chart download and rendering, per-addon value builders: parsed trees and prefixes come in.
- The parallel tasks of a pool and their result maps: only names and addresses are planned.
- Aliasing between the inputs and the result of the copying merge: `ChartValues` works on values; aliasing is modelled for the in-place merge.
- Spec validation, wizard, version tables, generated deep copies, keys and certificates: easy or out of reach.
- Provisioning.ConfigureNode: one method covers the worker and the control-plane variant, which differ only in what a missed deadline does.
- ConfigPatch.DeepMerge: excludes an entry laid over a nil map, which panics, and a written map that the source or a second path of the destination reaches, where the outcome depends on the key order or a cycle arises; every other map may be shared.
