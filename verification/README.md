# Verified model of the SQL Server operator's protocols

The operator keeps SQL Server availability groups, scheduled backups, permissions and certificates in the state that
Kubernetes objects describe. This project models the parts of it whose correctness depends on more than one function, and
proves what they promise over every input, every failure and every run.

Three layers, and the quoting of T-SQL names (`Quoting`), which is pure:

- **Controllers** (`AgReconciler`, `RoutingLabels`, `Permissions`, `CertificateMesh`, `Retention`, `BackupReconcilers`)
  are imperative, as their source is: classes whose methods change servers, pods and stored objects in place, with the
  same loops, early returns and dropped errors. Every method is proved against the value-level pass, or the relation
  between old and new state, that the protocol theorems speak of.
- **Effects** (`FencingEffects`, `FailoverEffects`, `ReconcileEffects`, `BackupProgress`) say exactly when a pass acts and
  what it leaves in every field, in terms of the stored fields and the outcomes of its calls, and that work goes on.
- **Protocols** (`AgModel`, `Convergence`, `AgRuns`, `FailoverRuns`, `ReconcileOrder`, `ReconcileConvergence`, `LeaseRace`,
  `FailoverInterplay`, `Backups`, `BackupRuns`) are those passes as functions, and whole runs in which passes, persisted stages and an
  environment interleave in any order.

Conventions of the model:

- Every SQL command and API call has an outcome of its own: sets of names for which a call fails, and flags for single
  calls. A failed command or write has no effect.
- Time is a whole number of nanoseconds that never goes back. A stored `metav1.Time` keeps whole seconds and a stored
  `MicroTime` microseconds, so distances between stored times are stated with the cooldown cut to whole seconds.
- A pass keeps its working copy of the status apart from the stored one; a status write that is lost leaves only the
  working copy changed.
- A pass reads current state. Manual failovers and single backups are split into their persisted stages, between which
  everything else may happen, a restart included.
- Replica names are distinct and not empty, and there are at least two replicas, as the validating webhook demands
  (`api/v1alpha1/availabilitygroup_webhook.go:88-112`).
- Logs of commands, recorded fencings, failovers, acquisitions, creations and outcomes are kept beside the state. No code
  reads them; the properties speak of them.

Where the code and its comments or documentation differ, the model follows the code:

- The comment at `internal/controller/ag_fencing.go:142` leaves storing a corrected primary to the caller, which returns
  before any status write. `ReconcileOrder.StaleCorrected` says exactly which Reconciles store it; while no guard holds
  fencing back and no automatic failover runs, none does (`ReconcileOrder.StaleStays`).
- Fencing passes by themselves never turn against the replica that won the first ranking. The observation that follows a
  pass without fencing rewrites the status primary, which breaks ties, and so can turn the next pass against it
  (`ReconcileConvergence.ReconcilesSpareWinner` has the condition, `ReconcileConvergence.MovedTieFencesWinner` the
  failing family).
- The documentation says that the circuit breaker needs human intervention (`docs/explanation/architecture.md:120`); the
  code fences again once the cooldown is over (`Convergence.BreakerCloses`). Its alert is overwritten by the rest of the
  same Reconcile (`ReconcileOrder.AlertOverwritten`).
- The reason "hard" follows a counter and not the command that was sent. `AgRuns.HardReason` says exactly when they agree,
  `AgRuns.HardReasonWithoutDrop` gives runs in which they do not.
- A missing cluster type lets fencing run, and a failed List call skips the check for a running manual failover
  (`Convergence.FailedListDefeatsGuard`).
- Acquiring the lease is a read, then a patch without a version. Exclusion holds when nobody else acquires the lease
  between the two (`LeaseRace.RaceExclusion`). Among operators that take less than about half the lease duration for an
  acquisition it holds in no other run (`LeaseRace.RaceExclusionExactly`); a slower writer can keep the distance by its
  slowness alone (`LeaseRace.RaceViolation`). Counted in nanoseconds the distance is 30 s exactly when the earlier reading
  is a whole number of microseconds (`FailoverRuns.LeaseShortfall`).
- Fencing waits for a running manual failover, automatic failover does not look for one. It can open a split brain that
  fencing leaves alone until the manual failover is closed (`FailoverInterplay.ForcedDuringManual`).
- A server name with a dot makes the two label writers disagree (`RoutingLabels.WritersAgree`). On a real API server a
  managed server of such a name does not get that far: the headless Service named after it is reconciled first
  (`internal/controller/sqlserver_controller.go:100`), and Service names may not contain dots.
- A certificate imported without its login is never repaired (`CertificateMesh.OrphanStays`), and a single failed call
  leaves one (`CertificateMesh.LeaveOrphan`).
- A lost status write after a scheduled backup was created leads to a second backup for the same fire
  (`BackupRuns.LostWriteOverproduces`); a creation is safe exactly when that write lands (`BackupRuns.CreationSafe`).

## Model

| member | source | states |
|---|---|---|
| `Convergence.TwoPassesConverge` | internal/controller/ag_fencing.go:121-267 | from any split brain, two passes with successful calls leave the ranking winner as the only PRIMARY and as stored primary, if and only if there are not exactly two primaries with the loser still exhausted; then nothing was sent, otherwise every further pass is silent; passes taken without the observations between them |
| `Convergence.WinnerKept` | internal/controller/ag_fencing.go:162-176 | the ranking winner stays the winner when only other primaries disappear and the status primary is unchanged or becomes the winner |
| `Convergence.FencedPrimaries` | internal/controller/ag_fencing.go:178-236 | a pass removes exactly the losers that are not exhausted and whose command succeeds from the readable primaries, keeps the winner among them, and changes no other replica |
| `Convergence.NothingToFence` | internal/controller/ag_fencing.go:178-211 | a split brain leaves nothing to fence if and only if there are two primaries and the loser is exhausted |
| `Convergence.BreakerCloses` | internal/controller/ag_fencing.go:185-192 | a blocked split brain is fenced again, with demotions only, by exactly the passes that come at least a cooldown after the last recorded fencing |
| `Convergence.FailedListDefeatsGuard` | internal/controller/ag_fencing.go:110-119 | with a manual failover running, a split brain that is not blocked is fenced if and only if the List call fails |
| `Convergence.PassSparesWinner` | internal/controller/ag_fencing.go:162-236 | whatever fails, one pass by itself sends nothing to the winner, keeps its role and rank, and makes no replica PRIMARY |
| `Convergence.PassesSpareWinner` | internal/controller/ag_fencing.go:93-268 | the same for any number of passes with any failures, taken without the observations between them |
| `Convergence.FailoverTarget` | internal/controller/availabilitygroup_controller.go:634-715 | one call sends failed commands and at most one successful one, last, never to the known primary, and only to a replica before which no candidate is PRIMARY |
| `Convergence.FailoverSplit` | internal/controller/availabilitygroup_controller.go:639-689 | a successful automatic failover leaves a split brain if and only if the old primary still answers PRIMARY or a PRIMARY candidate sits later in spec order |
| `Convergence.FailoverThenFencing` | internal/controller/availabilitygroup_controller.go:634-715 | after a recorded automatic failover the group is settled on the target, or two successful fencing passes settle it on the ranking winner unless blocked |
| `AgRuns.CountersRefineLog` | internal/controller/ag_fencing.go:238-265 | in every reachable state the stored counters are the length of the fencing log, the length of its last streak, and its last entry |
| `AgRuns.StreakIsLongest` | internal/controller/ag_fencing.go:245-250 | the streak is the longest suffix of the log that names the last replica |
| `AgRuns.BreakerBound` | internal/controller/ag_fencing.go:179-211 | in every run, n consecutive log entries for one replica span at least n - 5 cooldowns |
| `AgRuns.EscalationSafe` | internal/controller/ag_fencing.go:225-231 | in every run, a DROP comes less than a cooldown after the latest log entry of its moment, and that entry names the same replica |
| `AgRuns.CommandsOfPass` | internal/controller/ag_fencing.go:216-236 | the commands of a pass go to distinct losers, none to the winner, at most one of them is a DROP, and all are judged against the same log |
| `AgRuns.HardReason` | internal/controller/ag_fencing.go:239-265 | the stored reason says "hard" if and only if the last rogue is the replica recorded before; it agrees with the command sent if and only if that rogue is another replica or its recorded fencing is less than a cooldown old |
| `AgRuns.HardReasonWithoutDrop` | internal/controller/ag_fencing.go:225-256 | every new group of two replicas that both answer PRIMARY, the second with the higher LSN, has a run in which the first is demoted, reclaims PRIMARY, and is demoted again after the cooldown: no DROP is sent, and the stored reason says "hard" |
| `FencingEffects.WinnerIsUnbeaten` | internal/controller/ag_fencing.go:165-176 | the replica that keeps its role is exactly the one that none beats: by LSN, then as stored primary, then by place in the specification |
| `FencingEffects.FencesExactly` | internal/controller/ag_fencing.go:100-211 | a pass fences if and only if a primary is stored, the cluster type is missing or "None", no listed AGFailover of the group is in phase Running or the List fails, and some replica that answers PRIMARY is beaten by another and has its breaker closed |
| `FencingEffects.CommandsExactly` | internal/controller/ag_fencing.go:178-236 | a command goes to exactly those replicas: DROP to one whose recorded fencing is less than a cooldown old, demotion to the others |
| `FencingEffects.RolesExactly` | internal/controller/ag_fencing.go:271-311 | each of them whose command succeeds has lost the group or is SECONDARY, every other replica is unchanged |
| `FencingEffects.RecordsExactly` | internal/controller/ag_fencing.go:222-265 | every fenced, patchable pod is labelled secondary; a landed status names the unbeaten replica, the last fenced one in order, the time, and the counters and reason that follow |
| `FencingEffects.AlertsExactly` | internal/controller/ag_fencing.go:197-211 | a pass that fences nothing stores the alert if and only if its guards are open, a beaten PRIMARY exists and the write lands |
| `FencingEffects.EscalationFollows` | internal/controller/ag_fencing.go:225-231 | in a reachable state a beaten PRIMARY named by the last log entry, less than a cooldown ago and with a streak below five, is sent a DROP by the next pass |
| `FencingEffects.BreakerFollows` | internal/controller/ag_fencing.go:185-192 | in a reachable state a beaten PRIMARY is left alone if and only if the last log entry names it, is less than a cooldown old, and its streak has reached five |
| `FailoverRuns.AutoFailoverRate` | internal/controller/availabilitygroup_controller.go:612-625 | in every run the stored count is the number of recorded automatic failovers, and n of them span at least n - 1 cooldowns, whatever runs in between |
| `FailoverRuns.LeaseExclusion` | internal/controller/availabilitygroup_controller.go:724-768 | in every run with atomic calls, successful acquisitions by different holders are more than 30 s after the stored RenewTime of the earlier one |
| `FailoverRuns.LeaseShortfall` | internal/controller/availabilitygroup_controller.go:725-758 | counted from the unrounded reading, every later holder of a lease just created is more than 30 s away if and only if that reading is a whole number of microseconds |
| `FailoverEffects.AcquiresExactly` | internal/controller/availabilitygroup_controller.go:724-768 | the lease is acquired if and only if it is free, the caller's own, or past its time and duration, and the calls succeed; what is stored then |
| `FailoverEffects.LeaseAvailable` | internal/controller/availabilitygroup_controller.go:724-768 | in every reachable state a caller whose calls succeed acquires the lease if and only if nobody has had it, it was the latest holder, or more than 30 s have passed since the stored time |
| `FailoverEffects.PromotesExactly` | internal/controller/availabilitygroup_controller.go:612-715 | a call promotes if and only if the last automatic failover is at least a cooldown ago, the lease is to be had, and the first usable replica that is PRIMARY or accepts the command is not PRIMARY |
| `FailoverEffects.SendsExactly` | internal/controller/availabilitygroup_controller.go:639-689 | commands go to exactly the usable replicas that are not PRIMARY and before which every usable one refuses |
| `FailoverEffects.PromotionEffects` | internal/controller/availabilitygroup_controller.go:691-711 | the target is PRIMARY, every patchable listed pod carries its role, and a landed status names target, time, count and reason |
| `FailoverEffects.AdoptionEffects` | internal/controller/availabilitygroup_controller.go:663-674 | when the loop ends at a PRIMARY only the status changes, to what that replica reports |
| `FailoverEffects.NoEndEffects` | internal/controller/availabilitygroup_controller.go:612-721 | otherwise replicas, pods and status stay as they are |
| `LeaseRace.CallIsReadThenWrite` | internal/controller/availabilitygroup_controller.go:724-768 | a read and a write with nothing in between have the result of the atomic acquisition |
| `LeaseRace.RaceExclusion` | internal/controller/availabilitygroup_controller.go:729-765 | among any number of operators, in every run in which nobody acquires between the read and the write of an acquisition, all pairs of different holders are more than 30 s apart |
| `LeaseRace.RaceExclusionExactly` | internal/controller/availabilitygroup_controller.go:724-768 | in runs whose acquisitions each take less than about half the lease duration, all pairs of different holders keep the distance if and only if nobody acquires between the read and the write of an acquisition |
| `LeaseRace.TakeoverTwice` | internal/controller/availabilitygroup_controller.go:755-765 | two operators that both read an expired lease before either writes both acquire it, whenever they write; the later writer is the stored holder |
| `LeaseRace.RaceViolation` | internal/controller/availabilitygroup_controller.go:748-765 | in the runs from no lease in which two operators take over the lease of a third so, exclusion holds if and only if the second writes more than the lease duration after the first one's stored reading |
| `LeaseRace.CreatedOnce` | internal/controller/availabilitygroup_controller.go:732-743 | of two operators that both read that there is no lease, only the first writer acquires it |
| `LeaseRace.RenewedAfterTakeover` | internal/controller/availabilitygroup_controller.go:748-753 | a renewal written after a takeover succeeds, and the other operator stays the holder |
| `FailoverRuns.FencingWaits` | internal/controller/ag_fencing.go:110-119 | in every run, no fencing command of a pass whose List succeeded lies between the stored Running phase of an AGFailover of the group and its terminal phase or deletion |
| `FailoverRuns.CommandAfterRunning` | internal/controller/agfailover_controller.go:101-137 | in every run, a failover command is preceded by the stored Running phase of its object with no other phase in between |
| `FailoverRuns.OneShot` | internal/controller/agfailover_controller.go:57-60 | in every run, after a stored terminal phase no command is sent and no phase stored for that object |
| `FailoverInterplay.FailoverIgnoresObjects` | internal/controller/availabilitygroup_controller.go:609-721 | automatic failover neither depends on AGFailover objects nor changes them |
| `FailoverInterplay.FencingHeldBack` | internal/controller/ag_fencing.go:110-119 | over any run in which an AGFailover of the group stays running and List calls succeed, fencing passes do nothing but take time |
| `FailoverInterplay.ForcedDuringManual` | internal/controller/availabilitygroup_controller.go:609-721 | a forced failover can fall into a running manual one; it leaves two or more primaries if and only if the known one still answers PRIMARY or a PRIMARY candidate sits later, and passes change nothing about it while the object stays running |
| `ReconcileOrder.ReconcileIsARun` | internal/controller/availabilitygroup_controller.go:90-240 | a Reconcile is a run of at most two protocol steps, so every property of runs holds of Reconciles |
| `ReconcileOrder.StaleCorrected` | internal/controller/availabilitygroup_controller.go:90-215 | with one PRIMARY that is not the stored one, a Reconcile stores it if and only if a guard holds fencing back and the observation reports it and is written, or, with the known primary unreachable, automatic failover comes to it past candidates that refuse and stores what it reports |
| `ReconcileOrder.StaleStays` | internal/controller/ag_fencing.go:137-150 | so while no guard holds fencing back and no automatic failover runs, no number of Reconciles stores it |
| `ReconcileConvergence.TwoReconcilesConverge` | internal/controller/availabilitygroup_controller.go:141-215 | two Reconciles with successful commands settle an unblocked split brain on its winner, if and only if the breaker was open for one of several losers, so that the second still fences, or the second's observation is not written or reports the winner |
| `ReconcileConvergence.TwoReconcilesFromBlocked` | internal/controller/availabilitygroup_controller.go:141-215 | from a blocked split brain the first Reconcile sends nothing and keeps the winner if and only if its observation moves no tie; the second settles on the winner of that moment if and only if a primary is stored and the breaker is not open for the other |
| `ReconcileConvergence.MovedTieFencesWinner` | internal/controller/availabilitygroup_controller.go:205-215 | a blocked split brain with equal LSNs whose observation reports the loser is settled on the loser by the next Reconcile |
| `ReconcileConvergence.ReconcileSparesWinner` | internal/controller/availabilitygroup_controller.go:141-215 | one Reconcile without automatic failover sends its winner nothing and keeps its role; it stays the winner if and only if no written observation moves a tie |
| `ReconcileConvergence.ReconcilesSpareWinner` | internal/controller/availabilitygroup_controller.go:141-215 | over any number of such Reconciles with any failures the first winner stays the winner throughout if and only if no written observation moves a tie, and then keeps its role and is sent nothing |
| `ReconcileConvergence.TieDecides` | internal/controller/ag_fencing.go:165-176 | another status primary leaves the winner as it is if and only if it is the winner, or is no best replica while the winner is the first best one |
| `ReconcileOrder.AlertOverwritten` | internal/controller/availabilitygroup_controller.go:141-215 | the reason FencingExhausted outlives the Reconcile that sets it if and only if the observation after it does not get written |
| `ReconcileOrder.DroppedReplicaRejoins` | internal/controller/availabilitygroup_controller.go:217-231 | in a settled group a replica whose group was dropped is SECONDARY again after an observing Reconcile, and the group stays settled |
| `ReconcileEffects.OutcomeExactly` | internal/controller/availabilitygroup_controller.go:90-215 | which way a Reconcile goes: credentials, failover, fencing, another single primary, observation |
| `ReconcileEffects.ObservationEffects` | internal/controller/availabilitygroup_controller.go:205-236 | an observation whose calls succeed stores the reported primary and health, labels every patchable listed pod for it, and rejoins exactly the replicas that lost the group and are neither it nor connected; with all pods patchable, writes are routed to the reported primary alone |
| `ReconcileEffects.FailedObservation` | internal/controller/availabilitygroup_controller.go:205-215 | a failed call on the way leaves all but the reason |
| `ReconcileEffects.StaleEffects` | internal/controller/ag_fencing.go:137-150 | a Reconcile that finds another single primary labels every patchable listed pod for it and changes nothing else |
| `ReconcileEffects.PromotionRoutes` | internal/controller/availabilitygroup_controller.go:710-711 | with all pods patchable, a promotion routes writes to its target alone |
| `ReconcileEffects.OtherEffects` | internal/controller/availabilitygroup_controller.go:100-151 | unreadable credentials store their reason and nothing else; the other outcomes are those of the pass |
| `AgReconciler.AvailabilityGroupReconciler.CollectReplicaRoles` | internal/controller/ag_fencing.go:22-54 | a replica is reported PRIMARY exactly when it can be asked and is PRIMARY |
| `AgReconciler.AvailabilityGroupReconciler.CollectReplicaLSNs` | internal/controller/ag_fencing.go:58-91 | every candidate has an entry, 0 when it cannot be asked |
| `AgReconciler.AvailabilityGroupReconciler.Rank` | internal/controller/ag_fencing.go:165-176 | the index kept has a highest LSN, is the status primary's when that has it, and otherwise is the first with it |
| `AgReconciler.RankIsWinner` | internal/controller/ag_fencing.go:165-176 | those three facts determine the winner of the protocol |
| `AgReconciler.AvailabilityGroupReconciler.RogueList` | internal/controller/ag_fencing.go:178-195 | the loop over the primaries collects the losers for which the breaker is closed, in spec order |
| `AgReconciler.AvailabilityGroupReconciler.FailoverListed` | internal/controller/ag_fencing.go:110-119 | the loop over the listed objects finds a running failover of the group if and only if the List call succeeds and one exists, in any order |
| `AgReconciler.AvailabilityGroupReconciler.FindPrimaries` | internal/controller/ag_fencing.go:124-130 | the replicas that report PRIMARY, in spec order |
| `AgReconciler.AvailabilityGroupReconciler.FenceRogues` | internal/controller/ag_fencing.go:216-236 | the loop cuts every rogue's label and fences it, hard or soft by the status from before the pass |
| `AgReconciler.AvailabilityGroupReconciler.FenceReplica` | internal/controller/ag_fencing.go:271-311 | hard drops the group on the replica, soft demotes it, a failure changes nothing |
| `AgReconciler.AvailabilityGroupReconciler.RecordFencing` | internal/controller/ag_fencing.go:238-265 | the working copy always records the fencing, the stored status and the log only when the write lands |
| `AgReconciler.AvailabilityGroupReconciler.DetectAndResolveSplitBrain` | internal/controller/ag_fencing.go:95-268 | the pass, with its guards, is the protocol's fencing pass on servers, pods, stored status and working copy |
| `AgReconciler.AvailabilityGroupReconciler.TryAcquireLease` | internal/controller/availabilitygroup_controller.go:724-768 | create, renew, take over when expired, or refuse, as the protocol's acquisition does |
| `AgReconciler.AvailabilityGroupReconciler.TryReplicas` | internal/controller/availabilitygroup_controller.go:634-721 | the loop skips, stops, goes on after a failed command, and ends as the protocol's failover loop does |
| `AgReconciler.AvailabilityGroupReconciler.HandleAutoFailover` | internal/controller/availabilitygroup_controller.go:609-721 | cooldown, lease and loop together are the protocol's failover pass |
| `AgReconciler.AvailabilityGroupReconciler.UpdateReplicaRoleLabels` | internal/controller/availabilitygroup_controller.go:772-802 | after the loop each listed, patchable pod has the label of its role, every other pod its old one |
| `AgReconciler.AvailabilityGroupReconciler.RejoinReplicas` | internal/controller/availabilitygroup_controller.go:217-231 | exactly the listed replicas that are neither the observed primary nor connected are joined again |
| `AgReconciler.AvailabilityGroupReconciler.Reconcile` | internal/controller/availabilitygroup_controller.go:90-240 | the order credentials, failover, fencing, early returns, observation, rejoin, labels is that of the protocol |
| `AgReconciler.AgFailoverReconciler.Reconcile` | internal/controller/agfailover_controller.go:57-164 | a reconcile of an AGFailover object is the uninterrupted run of its persisted stages |
| `AgReconciler.FinishFromSecondary` | internal/controller/agfailover_controller.go:101-164 | the stages for a SECONDARY target: Running first unless stored, then the command, then the phase of its outcome, each write stopping the rest when it fails |
| `AgReconciler.FinishWithoutCommand` | internal/controller/agfailover_controller.go:57-99 | the reconciles that end without a command store Completed for a PRIMARY target, Failed for bad credentials or another role, and otherwise nothing |
| `RoutingLabels.InstanceReconciler.ReconcileReplicaRoleLabels` | internal/controller/sqlserver_instance.go:507-545 | without a failed patch every readable pod gets its label; a failed patch leaves exactly the pods before it labelled |
| `RoutingLabels.InstanceReconciler.BuildReplicaList` | internal/controller/sqlserver_managed_ag.go:87-104 | the replica list names the pods of the server in order |
| `RoutingLabels.PodNamesValid` | internal/controller/sqlserver_managed_ag.go:87-92 | the generated replica names are distinct and not empty, as fencing assumes |
| `RoutingLabels.ShortNameInverts` | internal/controller/sqlserver_managed_ag.go:51-58 | building the host name and taking its first component are inverse if and only if the name has no dot or starts with one |
| `RoutingLabels.PrimaryIsItsHost` | internal/controller/sqlserver_instance.go:552-555 | for a server name without a dot the stored primary is the host name of the replica it stands for, and of no other |
| `RoutingLabels.WritersAgree` | internal/controller/sqlserver_instance.go:513-543 | for a primary among the pods the two writers compute the same labels if and only if the server name has no dot or starts with one; otherwise the instance writer leaves no pod primary |
| `RoutingLabels.LabelledRoutes` | internal/controller/availabilitygroup_controller.go:772-802 | when all pods can be patched, exactly the named primary is routed to |
| `RoutingLabels.FencingCutsTraffic` | internal/controller/ag_fencing.go:217-236 | a fencing pass takes exactly the fenced pods that can be read and patched off the routed set, whether or not their SQL commands succeed |
| `Quoting.NameRoundTrip` | internal/sql/quotename.go:10-13 | a reader of bracketed names returns exactly the name and the text after it, unless that starts with a closing bracket |
| `Quoting.StringRoundTrip` | internal/sql/quotename.go:47-50 | the same for string literals |
| `Quoting.TargetRoundTrip` | internal/sql/quotename.go:17-31 | a reader recovers scope and name of a permission target from its printed form |
| `Quoting.TargetInjective` | internal/sql/quotename.go:17-31 | two targets print alike if and only if they are equal up to the case of the scope or keyword |
| `Quoting.TargetShape` | internal/sql/quotename.go:17-31 | the printed form of each kind of target, split at the first "::" and the first dot |
| `Permissions.PermissionReconciler.Assert` | internal/controller/permission_controller.go:117-147 | the loop of grants, and that of denies, sets exactly the keys the snapshot does not show in that state, up to the first failure |
| `Permissions.PermissionReconciler.RevokeUnwanted` | internal/controller/permission_controller.go:149-175 | the loop over the snapshot, in any order, removes exactly the keys seen in an unwanted state, up to the first failure |
| `Permissions.PermissionReconciler.Reconcile` | internal/controller/permission_controller.go:99-175 | a pass without failure has one result whatever the map order; a failed one ends inside one of its three steps; it sends nothing if and only if nothing is to do |
| `Permissions.PermissionServer.Set` | internal/sql/mock_client.go:651-686 | GRANT and DENY replace what the key held |
| `Permissions.PermissionServer.Revoke` | internal/sql/mock_client.go:688-713 | REVOKE removes the key |
| `Permissions.KeyInjective` | internal/controller/permission_controller.go:183-185 | for permission names without a bar, two keys are equal if and only if names and targets are, up to case |
| `Permissions.FirstPass` | internal/controller/permission_controller.go:99-175 | with disjoint lists the first pass yields the wanted state, except that entries that flip between GRANT and DENY end up absent |
| `Permissions.QuietIsWanted` | internal/controller/permission_controller.go:117-175 | with disjoint lists a pass has nothing to do if and only if the server is in the wanted state |
| `Permissions.PermissionsConverge` | internal/controller/permission_controller.go:99-175 | two passes reach a state that later passes leave alone, from every server state, if and only if no key is both granted and denied |
| `Permissions.OverlapAlternates` | internal/controller/permission_controller.go:117-147 | a key in both lists alternates with period two from any state |
| `Permissions.GrantIsMade` | internal/controller/permission_controller.go:102-131 | every listed grant whose key no deny has is held after two passes, from any state |
| `Permissions.DenyIsMade` | internal/controller/permission_controller.go:106-147 | every listed deny whose key no grant has is held after two passes |
| `Permissions.EntryAfterOnePass` | internal/controller/permission_controller.go:117-175 | after one pass such an entry is held, or absent if it was held in the opposite state |
| `Permissions.HeldIsListed` | internal/controller/permission_controller.go:149-175 | whatever is held after a pass is the key of an entry listed in that state |
| `Permissions.QuietExactly` | internal/controller/permission_controller.go:117-175 | a pass has nothing to do if and only if every listed entry is held and everything held is listed |
| `CertificateMesh.CertificateDistributor.SetupReplica` | internal/controller/sqlserver_certificates.go:401-441 | only what is missing is created, for this replica alone, and success leaves all three parts |
| `CertificateMesh.CertificateDistributor.ImportPeer` | internal/controller/sqlserver_certificates.go:350-393 | an existing certificate skips the pair without an error; otherwise success leaves certificate, login and grant, and a failure a prefix of them; a pair of which nothing was there ends as an orphan if and only if the call that fails is that for the login or the grant |
| `CertificateMesh.CertificateDistributor.ImportPeers` | internal/controller/sqlserver_certificates.go:343-395 | the inner loop treats every peer so and leaves the replica's own certificate alone |
| `CertificateMesh.CertificateDistributor.Distribute` | internal/controller/sqlserver_certificates.go:314-397 | a whole run is a step of the mesh, and writes nothing when nothing is missing; with enough calls that succeed and no login without its certificate it returns no error |
| `CertificateMesh.RunLinks` | internal/controller/sqlserver_certificates.go:357-390 | a run without error leaves a pair linked if and only if its certificate was missing before, or was there with login and grant and carries the key the peer had or now generates |
| `CertificateMesh.RunMeshes` | internal/controller/sqlserver_certificates.go:314-397 | a run without error, of any size, ends in a full mesh if and only if before it no imported certificate was an orphan or carried another key than its peer's; any later run changes nothing |
| `CertificateMesh.OrphanStays` | internal/controller/sqlserver_certificates.go:364-366 | a certificate left without login or grant stays so through any number of later runs |
| `CertificateMesh.LeaveOrphan` | internal/controller/sqlserver_certificates.go:368-390 | on blank servers, however many, the run whose first login fails leaves an orphan, and so does the run whose first grant fails |
| `Retention.SortByCreation` | internal/controller/scheduledbackup_controller.go:296-298 | the list is sorted by creation time and has the same members |
| `Retention.SelectForDeletion` | internal/controller/scheduledbackup_controller.go:300-333 | the two selection loops together give the first `Cut` items of the sorted list, without duplicates |
| `Retention.CutMeans` | internal/controller/scheduledbackup_controller.go:303-333 | an item is selected if and only if it is too old or not among the newest `maxCount` |
| `Retention.KeepsNewest` | internal/controller/scheduledbackup_controller.go:335-339 | after any prefix of the deletions no survivor is older than a deleted item; after all of them count and age limits hold |
| `Backups.CleanupKeepsNewest` | internal/controller/scheduledbackup_controller.go:277-342 | of the stored backups a cleanup, even one that stops at an error, removes only completed ones of this schedule and none newer than one that stays; without error the limits hold of what stays |
| `BackupProgress.ActiveExactly` | internal/controller/scheduledbackup_controller.go:86-106 | over an active backup a pass records a completed or failed one, clears a deleted one, waits for a new or running one, and changes nothing when a read or write fails |
| `BackupProgress.CreatesExactly` | internal/controller/scheduledbackup_controller.go:108-179 | a pass creates a backup if and only if a fire has come since the latest recorded creation, nothing is active, the name is free and the calls succeed; what exists and is stored then |
| `BackupProgress.NotesNextFire` | internal/controller/scheduledbackup_controller.go:117-125 | a pass without an active backup notes the first fire since the latest recorded creation |
| `BackupProgress.ScheduleGoesOn` | internal/controller/scheduledbackup_controller.go:86-179 | after an active backup is over or gone, a pass whose calls succeed frees the schedule and the first due pass creates the next backup |
| `BackupProgress.BackupGoesOn` | internal/controller/backup_controller.go:42-143 | a new backup is over after four steps of its worker whose calls succeed, with the outcome of its command |
| `BackupProgress.PassKeepsLimits` | internal/controller/scheduledbackup_controller.go:214-221 | after a pass that records a completed backup and whose deletes succeed, count and age limits hold of the stored backups |
| `BackupProgress.DeletedForCause` | internal/controller/scheduledbackup_controller.go:300-339 | a completed backup is deleted only when it is older than `maxAge`, or `maxCount` others are not older |
| `Backups.NextOfStored` | internal/controller/scheduledbackup_controller.go:108-117 | storing an instant in whole seconds does not change the fire that follows it |
| `BackupRuns.BackupAccounting` | internal/controller/scheduledbackup_controller.go:170-275 | in every reachable state total = succeeded + failed + active + cleared, the counters count the outcome log, the history is its last ten entries and the last success its latest completed entry |
| `BackupRuns.LatestCompleted` | internal/controller/scheduledbackup_controller.go:188-191 | the latest completed entry of a log is the one after which none is completed |
| `BackupRuns.OutcomeStays` | internal/controller/backup_controller.go:58-61 | in every run a backup that is completed or failed keeps its phase as long as it exists |
| `BackupRuns.NoOverlappingBackups` | internal/controller/scheduledbackup_controller.go:86-106 | in every reachable state whose creations were all recorded, each backup of the schedule other than the active one is completed or failed |
| `BackupRuns.NeverOverproduces` | internal/controller/scheduledbackup_controller.go:108-179 | in such a run the backups created up to any instant are at most the fires since the schedule's creation, and each creation lies at or after the first fire behind the previous one |
| `BackupRuns.MissedFiresCollapse` | internal/controller/scheduledbackup_controller.go:108-131 | a recorded creation puts the next fire into the future, however many were missed |
| `BackupRuns.NamesNeverCollide` | internal/controller/scheduledbackup_controller.go:140-164 | in such a run generated names differ, and a due backup never meets an older one of its schedule under its name |
| `BackupRuns.LostWriteOverproduces` | internal/controller/scheduledbackup_controller.go:162-179 | from any state in which a backup is created and its status write is lost, the next free second yields a second one beside it, and two creations for one fire when no further fire has come |
| `BackupRuns.CreationSafe` | internal/controller/scheduledbackup_controller.go:162-179 | in a reachable state a creation is followed by no overlap, in any continuation whose creations are recorded, if and only if its own status write lands |
| `BackupRuns.ReachableIsLanded` | internal/controller/scheduledbackup_controller.go:86-179 | every state of a run in which creations are recorded is such a state |
| `BackupReconcilers.ScheduledBackupReconciler.Reconcile` | internal/controller/scheduledbackup_controller.go:57-183 | one Reconcile is the scheduler pass of the protocol, with a legitimate cleanup |
| `BackupReconcilers.ScheduledBackupReconciler.CreateWhenDue` | internal/controller/scheduledbackup_controller.go:108-182 | the branch without an active backup, its dropped write of the next fire included |
| `BackupReconcilers.ScheduledBackupReconciler.OnBackupCompleted` | internal/controller/scheduledbackup_controller.go:185-228 | counters, history, last success and cleanup after a completed backup, all or nothing by the status write |
| `BackupReconcilers.ScheduledBackupReconciler.OnBackupFailed` | internal/controller/scheduledbackup_controller.go:230-266 | counters and history after a failed backup |
| `BackupReconcilers.ScheduledBackupReconciler.ListCompleted` | internal/controller/scheduledbackup_controller.go:282-295 | the completed backups with the schedule's label, each once, in any listing order |
| `BackupReconcilers.ScheduledBackupReconciler.CleanupRetention` | internal/controller/scheduledbackup_controller.go:277-342 | what is gone afterwards is what the deletion loop over the selected prefix of a sorted list removes before its first error |
| `BackupReconcilers.BackupReconciler.Reconcile` | internal/controller/backup_controller.go:42-143 | a reconcile of a Backup object is the uninterrupted run of its worker's steps |
| `BackupReconcilers.FinishAfterStart` | internal/controller/backup_controller.go:82-142 | those steps written out: Running first unless stored, then BACKUP, then the phase of its outcome |
| `BackupReconcilers.FinishWithoutBackup` | internal/controller/backup_controller.go:49-80 | the reconciles that end before BACKUP: unreadable credentials store Failed, the others nothing |

## Left out

- Kubernetes and SQL transport, contexts, timeouts, events, logs, metrics and requeue delays: replaced by the outcome of
  each call.
- The informer cache and races between a read and its patch, except that of lease acquisitions.
- LeaseRace.RaceExclusion: an operator takes its instant and reads the lease in one step; leases are not deleted.
- `reconcileDatabases`, the listener, creating and joining a group: set differences and existence checks that are easier
  forms of the permission pass and the certificate setup. Their failures are part of whether the observation succeeds.
- Deletion handlers and finalizers; of the conditions only the reason that an AvailabilityGroup carries is modelled.
- The specification of a group (replica list, cooldown, cluster type) stays the same during a run.
- Counters are unbounded, where the source has 32-bit ones.
- Forced and planned failover commands promote the target only; that the old primary is demoted by a planned failover is a
  step of the environment, which may change any replica at any time.
- `StartTime`, `CompletionTime`, `PreviousPrimary` and `NewPrimary` of AGFailover and Backup objects, except that a failed
  write of `StartTime` stops the reconcile.
- Upper case is any character-wise mapping that creates and changes no colon and no bar, as Unicode's is.
- The text of a generated backup name is a pair of schedule and second: formatting is injective on whole seconds in a
  fixed time zone. Changes of the zone's offset are not modelled.
- The cron parser and the template engine: a schedule is its set of fires, on whole minutes, and the least fire after an
  instant; a schedule has a next fire after every instant, and its expression does not change.
- Creation times are set by the clock of the operator.
- Permissions.PermissionServer.Set: files permissions under the upper-case key, as the server's own name comparison does;
  the mock server compares names exactly. A reported permission carries the target it was granted with.
- Permissions.PermissionServer.Revoke: removes by that key too.
- Certificate bytes are compared through one key per certificate; the text of names and the expiry date are not modelled.
- StatefulSets, Services, `mssql.conf`, and the controllers for databases, logins, users, schemas and restores.
