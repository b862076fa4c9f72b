# Nova and Cyborg operators: a verified model

This project models the control logic of the Nova and Cyborg operators and proves
what that logic keeps. It has three parts.

**Credential rotation and readiness.** An operator protects the secrets it consumes
(application credentials, transport URLs) with a finalizer, copies them into derived
input secrets, waits until every service reports that it runs the new input, and only
then lets go of the old secret. Services, cells and the operator reconcile at the same
time, read through a cache that lags behind, and may stop at any call.

- `InputGroup`: one derived input secret, the services that consume it and the
  reconciler that collects their confirmations, as a step system.
- `Reconcilers`: the reconcile functions of a service and of a NovaCell as sequences of
  calls with arbitrary steps of everybody else in between; they take only steps of
  `InputGroup`.
- `Rotation`: several groups under one parent that protects, writes, waits and releases;
  the generic rotation protocol.
- `RotationHazards`: for each kind of step that the protocol cannot stand, a run in which
  it is the only such step and a credential in use loses its finalizer.
- `RotationExact`: for each of them, exactly when it does harm.
- `TrackedRotation`: how the code remembers secrets by name, releases them one by one and
  prunes the rest; it refines `Rotation`.
- `NovaRotation`, `NovaProtocol`, `CyborgProtocol`: the code that releases, and the two
  operators as instances of the protocol.
- `KeystoneFinalizers`: a resource, the Keystone object it registers, and their finalizers.

**Cells.** `CellLoop` (order, gating, lists and condition of the cells), `CellTeardown`
(deleting a cell), `ComputeStatuses` (accounting of computes), `ServiceCleanup` (services
of replicas that are scaled away), `StringMapHash` (what is hashed of a string map).

**Webhooks.** `NovaSpecs` (specs, defaults, derived specs), `NovaValidation` (what is
accepted), `NovaDerivation` (what is accepted leads to acceptable children),
`RouteAnnotations` (proxy timeouts that a human may override).

`Strings`, and `Wrappers`, `Secrets` and `CellNames` in one file, hold what these share.

## What the model assumes

- `FinalizeSecretRotation(old, new, ready)` returns `new` if `old` is empty or equal to
  `new`, returns `old` if not ready, and otherwise strips `old` and returns `new`.
  `PruneSecretConsumerFinalizers` strips every secret of the namespace that is not to be
  kept. `ManageSecretConsumerFinalizer` adds the finalizer. A call that changes something
  may fail before or after it took effect.
- `IsReadyForInput` looks, past the cache, at the StatefulSet and all its pods.
- Hashes do not collide: equality of hashes is equality of what is hashed.
- The configuration rendered from an input determines the credential secrets it refers
  to. The name of the RabbitMQ user is in the input but in no configuration file.
- The shared cache only moves forward. The status of a child that a parent reads may be
  any it ever had, and so may an operator's own record of the secrets it consumes. The
  patch of that record carries only what differs from what was read.
- Deleting a child removes its pods with it. There is one Nova in a namespace, because
  the prune covers the namespace.
- A group that is added again after it was removed starts afresh.
- One reconcile of an object runs at a time.
- Ranging over a Go map is iteration in any order: either an arbitrary listing of the
  keys is a parameter, or the loop picks any remaining key.

## Where the code does less than it says

- Four kinds of step can take the finalizer off a credential in use: a rotation back to
  an input the secret has had before, with a cache that lags behind
  (`RotationHazards.ReuseIsUnsafe`); regarding a child as gone because the error of its
  deletion is dropped or the cache does not show it (`SwallowedDeletionIsUnsafe`); the
  same of a cell (`SwallowedGroupDeletionIsUnsafe`); and a compute that leaves the spec
  before any status named it (`ForgottenChildIsUnsafe`). These are the steps the safety
  theorems exclude (`Hazard`). Taken when everything else is ready, each of them is
  harmless exactly when what is still in use refers only to secrets that the parent keeps
  (`RotationExact.ReuseIsSafeIff`, `SwallowedDeletionIsSafeIff`, `RefusedCellIsSafeIff`,
  `ForgottenChildIsSafeIff`, and in general `ReleaseIsSafeIff`). A secret shared by two
  roles is a fifth; its exact condition is `TrackedRotation.ClashIsUnsafe`, and Cyborg
  cannot meet it (`CyborgProtocol.CyborgRunIsSafe`).
- A reconcile that has read the current secret from an outdated record does not record
  it (`TrackedRotation.OutdatedRecordStays`, `CompletedReconcileRepairs`).
- A cell counts as ready while its mapping job is running, because the status of the
  discovery overwrites that of the mapping; `internal/nova/common.go:74-76` says
  otherwise (`CellLoop.ReadyButNotMapped`, `ReadyMeansMapped`; repaired in
  `WaitingKeepsThePromise`).
- If the input secret of cell0 cannot be written or read the guard of the top-level
  services dereferences nil (`CellLoop.TopLevelWaitsForCell0`).
- Nova's applied input does not cover cell0, although `api/nova/v1beta1/nova_types.go:195-201`
  says it does (`CellLoop.AppliedLeavesOutCell0`); it does exactly when cell0 is not listed as
  deploying and its patch did not fail (`AppliedCoversCell0Iff`).
- A deleted cell is reported as complete when the deletion of its record is refused
  (`CellTeardown.CompleteButPresent`, `CompleteMeansGoneIff`).
- Scaling the conductor of a cell deletes services of cells whose names contain its name
  (`ServiceCleanup.PrefixTakes`, `Cell1TakesFromCell10`).
- An update of Nova does not look at the probes of the top-level metadata service, which
  matters iff that service is enabled
  (`NovaDerivation.UpdateSlipsThrough`, `UpdatedNovaHasAcceptableChildren`).
- Superseded application credentials are released only if they are the one tracked
  (`NovaRotation.AppCredReleaseIsExact`).
- The message for compute names says "shorter than 20", the check allows 20.

## Model

| member | source | states |
|---|---|---|
| InputGroup.InvLeafSteps | internal/controller/nova/novaapi_controller.go:580-698 | reading the cached input, patching the StatefulSet, confirming past the cache and reporting keep that no child runs, rolls out or will confirm anything older than what it has ever been reported to run |
| InputGroup.InvPodSteps | internal/controller/nova/novaconductor_controller.go:567-680 | replacing, adding and dropping pods keeps it too |
| InputGroup.InvWrite | internal/controller/nova/nova_controller.go:1457-1479 | writing an input the secret never had keeps it |
| InputGroup.InvPublish | internal/controller/nova/novacell_controller.go:298-300 | when the applied hash is set no child is behind the version it names |
| InputGroup.InvStep | internal/controller/nova/novacell_controller.go:169-300 | every step of the group but the three hazards keeps the invariant; services that left the spec are looked up by name, only computes need to be recorded |
| InputGroup.AppliedIsNeverStale | internal/controller/nova/novacell_controller.go:169-300 | once a version was reported as applied every pod of every child, also of children created later, renders a version at least as new, after every further run |
| Reconcilers.Server.ReconcileLeaf | internal/controller/nova/novascheduler_controller.go:625-740 | a service reconcile, interrupted anywhere and interleaved with anything, is a run of the protocol; it confirms only an input no older than the cache showed at its start, and only if the service runs nothing older; undisturbed it rolls out the cached input with its second call and confirms it with its fourth iff every pod renders like it |
| Reconcilers.Server.EnsureChild | internal/controller/nova/novacell_controller.go:378-429 | ensuring a child creates and records it and counts it as having applied the input iff the report seen of it, any it ever made, is of the same content |
| Reconcilers.Server.DeleteChild | internal/controller/nova/novacell_controller.go:688-720 | a child that is gone is dropped from the recorded ones and from those there are |
| Reconcilers.Server.DeleteAll | internal/controller/nova/novacell_controller.go:211-224 | with calls enough everything known that is not in the spec is deleted, without, something known remains outside the spec |
| Reconcilers.WholePass | internal/controller/nova/novacell_controller.go:285-300 | everything of the spec has been dealt with and found to match iff the collector may publish at the end |
| Reconcilers.Server.ReconcileCell | internal/controller/nova/novacell_controller.go:169-300 | a cell reconcile is a run of the protocol, also with disabled services that were never recorded; what it reports as applied is the input it read at its start, and no child is behind it. With calls enough for every child of the spec and every one to delete, not waiting for the proxy and with such a report of each child, it does report it; it reports nothing if it waits, if calls are short or if a child was not seen to have it. A whole pass leaves no child outside the spec and records exactly the spec, a waiting one no more than the services and what was known |
| Rotation.InvSystemStep | internal/controller/nova/nova_controller.go:457-971 | every step of groups and parent but the hazards keeps the invariant |
| Rotation.UseIsCurrent | internal/controller/nova/nova_controller.go:882-889 | in a group regarded as ready everything that runs, is rolled out or can be read renders like the current input |
| Rotation.ReleaseKeepsProtected | internal/controller/nova/nova_controller.go:882-945 | while everything is ready any secret the plan does not refer to can lose its finalizer |
| Rotation.RotationIsSafe | internal/controller/nova/nova_controller.go:457-971 | after every run without a hazard each secret referred to by an input that runs, is rolled out or can still be read carries the finalizer |
| Rotation.ReadinessIsNeverStale | internal/controller/nova/nova_controller.go:882-889 | when the parent regards all groups as ready every pod renders what the parent wrote in this reconcile, whatever older reports it went by |
| RotationHazards.ReuseIsUnsafe | internal/controller/nova/nova_controller.go:1545-1550 | a rotation from A to B and back to A with a lagging cache leads to a credential in use without finalizer |
| RotationHazards.SwallowedDeletionIsUnsafe | internal/controller/nova/novacell_controller.go:711-719 | so does treating a child as gone whose deletion failed |
| RotationHazards.ForgottenChildIsUnsafe | internal/controller/nova/novacell_controller.go:211-224 | so does dropping from the spec a compute that was created but never recorded |
| RotationHazards.SwallowedGroupDeletionIsUnsafe | internal/controller/nova/nova_controller.go:1129-1138 | so does treating a cell as gone whose last deletion was refused |
| RotationExact.ReleaseIsSafeIff | internal/controller/nova/nova_controller.go:882-971 | in any state in which the parent may release, however it came about, the rest of the reconcile is safe iff everything in use lies within the plan |
| RotationExact.CoveredRun | internal/controller/nova/nova_controller.go:882-971 | once it does, not even a hazard does harm within the reconcile |
| RotationExact.RefusedCellIsSafeIff | internal/controller/nova/nova_controller.go:1129-1138 | regarding a cell as gone whose deletion was refused, all else being ready: all later runs, of this and later reconciles, are safe iff what is in use in that cell refers only to secrets that are kept |
| RotationExact.ReuseIsSafeIff | internal/controller/nova/nova_controller.go:1545-1550 | writing a value once reported as applied, all else being ready: the rest of the reconcile is safe iff what is in use in the group, which includes the value replaced, refers only to secrets of the plan |
| RotationExact.SwallowedDeletionIsSafeIff | internal/controller/nova/novacell_controller.go:711-719 | regarding a child as gone that is not, all else being confirmed: safe iff that child uses only secrets of the plan |
| RotationExact.ForgottenChildIsSafeIff | internal/controller/nova/novacell_controller.go:211-224 | dropping a compute that was never recorded, all else having applied the input: safe iff that compute uses only secrets of the plan |
| TrackedRotation.InvTrackedStep | internal/controller/nova/nova_controller.go:882-971 | every step that tracks, releases or prunes by name keeps the invariant unless names clash |
| TrackedRotation.TrackedRotationIsSafe | internal/controller/nova/nova_controller.go:882-971 | no secret in use loses its finalizer, whatever earlier record each reconcile reads |
| TrackedRotation.PruneIsExact | internal/controller/nova/nova_controller.go:948-971 | after a prune the transport finalizer is on exactly the current transport secrets, whatever came before |
| TrackedRotation.CompletedReconcileRepairs | internal/controller/nova/nova_controller.go:891-945 | a reconcile that finalized every role: the secret it read is current or has lost its finalizer; it records the current one unless it had read just that from an outdated record; with the latest record read the role is in order, also after a crash between release and status |
| TrackedRotation.OutdatedRecordStays | internal/controller/nova/nova_controller.go:904-916 | a reconcile that has read the current secret from an outdated record persists nothing for the role |
| TrackedRotation.ClashIsUnsafe | internal/controller/nova/nova_controller.go:891-902 | finalizing a role takes the finalizer off a current secret iff its tracked secret is the current one of another role |
| TrackedRotation.StepRefines | internal/controller/nova/nova_controller.go:882-971 | each step by name is a safe run of the generic protocol |
| TrackedRotation.RunRefines | internal/controller/nova/nova_controller.go:882-971 | each run by name is a safe run of the generic protocol |
| NovaRotation.Cluster.FinalizeSecretRotation | internal/controller/nova/nova_controller.go:891-902 | the contract of the call, with failures before and after it takes effect |
| NovaRotation.NovaInstance.ProtectCellSecret | internal/controller/nova/nova_controller.go:585-603 | a cell other than cell0 that has a secret gets it protected, and recorded unless an earlier one still has to be released |
| NovaRotation.NovaInstance.ReleaseAppCred | internal/controller/nova/nova_controller.go:891-902 | success has the effect of finalizing the role; after a failure the record is unchanged, and in any case a tracked secret that is not current and still held stays tracked |
| NovaRotation.NovaInstance.ReleaseNotifications | internal/controller/nova/nova_controller.go:918-943 | both branches, with and without notifications, have the effect of finalizing the notifications role; a failure leaves the record as it was |
| NovaRotation.NovaInstance.ReleaseCells | internal/controller/nova/nova_controller.go:945-961 | the loop over the cell secrets finalizes one role after another; after a failure the record is that of exactly the roles before it |
| NovaRotation.NovaInstance.TransportKeep | internal/controller/nova/nova_controller.go:963-989 | the list kept names exactly the tracked and current transport secrets of API, notifications and spec cells |
| NovaRotation.NovaInstance.PruneStranded | internal/controller/nova/nova_controller.go:963-971 | the prune strips every other transport secret |
| NovaRotation.NovaInstance.ReleaseRotated | internal/controller/nova/nova_controller.go:882-971 | releases and prune together have the stated effect and strip nothing unless everything is ready; they succeed iff each call does; after a failure the record is that of the roles before it; and whatever fails, a tracked secret that is not current and still has the finalizer stays tracked |
| NovaRotation.ForgetsNothing | internal/controller/nova/nova_controller.go:891-961 | after any number of roles no secret is forgotten that still has the finalizer and is not current |
| NovaRotation.EffectIsRun | internal/controller/nova/nova_controller.go:891-961 | that effect is the one of the protocol's steps |
| NovaRotation.FinalizeAllAt | internal/controller/nova/nova_controller.go:891-961 | after the releases each role is tracked as the contract of its release says, and a secret has kept its finalizer iff no role stripped it |
| NovaRotation.ReleaseOrderIsIrrelevant | internal/controller/nova/nova_controller.go:945-961 | for every iteration order of the map of cell secrets the effect is the same |
| NovaRotation.AppCredReleaseIsExact | internal/controller/nova/nova_controller.go:891-902 | an application credential loses its finalizer iff everything is ready and it is the tracked one and not the current one |
| NovaProtocol.PodsKeepTheirCredentials | internal/controller/nova/nova_controller.go:457-525 | each secret named in the configuration of a running pod of Nova carries the finalizer |
| NovaProtocol.InputPerCell | internal/controller/nova/nova_controller.go:1457-1466 | there is one input for the top-level services and one for each cell of the spec |
| NovaProtocol.TopLevelInput | internal/controller/nova/nova_controller.go:2426-2465 | the input of the top-level services and that of cell0 refer to the secrets of the API bus, the notification bus and the application credential that there are, and to no others |
| NovaProtocol.CellInput | internal/controller/nova/nova_controller.go:2352-2400 | that of any other cell to its own bus instead of that of the API |
| NovaProtocol.ReadyTopLevelPodsAreCurrent | internal/controller/nova/nova_controller.go:882-889 | when everything is ready the pods of the top-level services and of cell0 refer to the current API bus, the current notification bus and the current application credential, and to nothing else |
| TrackedRotation.ReadyPodsRenderThePlan | internal/controller/nova/nova_controller.go:882-889 | when everything is ready each pod renders the input derived from the spec |
| NovaProtocol.ReadyCellPodsAreCurrent | internal/controller/nova/nova_controller.go:1545-1550 | then the pods of a cell refer to the current bus of the cell, the current notification bus and the current application credential, and to nothing else |
| NovaProtocol.RequiredArePresent | internal/controller/nova/nova_controller.go:544-633 | releasing needs a secret of the API bus and of the bus of every cell but cell0, and no more |
| NovaProtocol.AdoptIsProtect | internal/controller/nova/nova_controller.go:585-603 | remembering the secret of a cell in the protocol is what the code does before anything is ready |
| NovaProtocol.Cell0NeverHasABus | internal/controller/nova/nova_controller.go:589-603 | cell0 never has a tracked or current secret of its own |
| NovaProtocol.AfterReleases | internal/controller/nova/nova_controller.go:891-961 | without a clash the releases of a ready reconcile are a safe run with the stated effect |
| NovaProtocol.PruneKeepsConsumed | internal/controller/nova/nova_controller.go:963-989 | what the prune keeps is exactly what Nova consumes, and all of it still has the finalizer |
| NovaProtocol.NovaReleaseIsExact | internal/controller/nova/nova_controller.go:882-971 | after any history a completed release leaves the transport finalizer on the current API secret, the current notification secret if any and the current secret of each spec cell, and on nothing else, and records what is current |
| CyborgProtocol.CyborgInstance.ReleaseRotated | internal/controller/cyborg/cyborg_controller.go:426-443 | the release of Cyborg has the effect of finalizing its one role; if it fails the record is unchanged |
| CyborgProtocol.ServiceInput | internal/controller/cyborg/cyborg_controller.go:721-771 | the one input of Cyborg refers to its application credential, if any, and to nothing else |
| CyborgProtocol.PodsKeepTheirCredential | internal/controller/cyborg/cyborg_controller.go:296-311 | in every run without a hazard of the generic protocol no Cyborg service runs with a credential that lost its finalizer |
| CyborgProtocol.ReadyPodsAreCurrent | internal/controller/cyborg/cyborg_controller.go:396-443 | when API and conductor are ready their pods refer to the current application credential and to nothing else |
| CyborgProtocol.CyborgNeverClashes | internal/controller/cyborg/cyborg_controller.go:426-443 | with one role names never clash |
| CyborgProtocol.CyborgRunIsSafe | internal/controller/cyborg/cyborg_controller.go:426-443 | whatever Cyborg releases, its run is safe if no step of it is a hazard of the generic protocol |
| CyborgProtocol.AbortIsRepaired | internal/controller/cyborg/cyborg_controller.go:426-443 | the next ready reconcile after a crash between release and status strips exactly the credential it has read if that is not current, keeps the current one protected, and records it unless it had read just that from an outdated record |
| KeystoneFinalizers.InvStep | internal/controller/nova/nova_controller.go:184-196 | every step but a wrong answer about the Keystone object keeps the invariant |
| KeystoneFinalizers.InvPersistAdd | internal/controller/nova/nova_controller.go:184-196 | a patch computed from an old version, even of an earlier resource of that name, does no harm |
| KeystoneFinalizers.InvPersistRemove | internal/controller/nova/novaapi_controller.go:926-934 | the resource that is let go of is the deleted one that was read, never a later one of that name |
| KeystoneFinalizers.NeverOrphaned | internal/controller/nova/nova_controller.go:1982-2025 | in every reachable state a Keystone object with our finalizer has its resource, persisted with our finalizer |
| KeystoneFinalizers.CreationRegisters | internal/controller/nova/nova_controller.go:184-196 | a reconcile of a new resource persists the finalizer and ends, the next registers the Keystone object with the finalizer |
| KeystoneFinalizers.DeletionCompletes | internal/controller/nova/nova_controller.go:1911-1942 | with a right answer a deletion takes the finalizer off the object that is there and lets the resource go |
| KeystoneFinalizers.WrongAnswerOrphans | internal/controller/nova/nova_controller.go:1911-1942 | deleting by an answer "not there" or "no finalizer" orphans the object iff the answer is wrong |
| KeystoneFinalizers.StaleLookOrphans | internal/controller/cyborg/cyborgapi_controller.go:622-660 | a cache that has not seen the object yet gives such an answer, and the run that follows |
| CellLoop.OrderCells | internal/controller/nova/nova_controller.go:368-386 | the loop and the sort compute cell0 followed by the sorted others |
| CellLoop.OrderIsPermutation | internal/controller/nova/nova_controller.go:368-386 | the order lists each cell once, cell0 first, the others ascending |
| CellLoop.OrderIsCanonical | internal/controller/nova/nova_controller.go:368-386 | it is the same for every enumeration of the map |
| CellLoop.EnsureCellRange | internal/controller/nova/nova_controller.go:1440-1587 | the statuses a cell can come out with; a failed one has an error; there is no cell iff its secret failed |
| CellLoop.EnsureCellExactly | internal/controller/nova/nova_controller.go:1440-1636 | for each status when a cell comes out with it, and whether with an error |
| CellLoop.ReadyMeansMapped | internal/controller/nova/nova_controller.go:1559-1572 | a cell regarded as ready is mapped iff its mapping job is not running, has applied its input and is discovered |
| CellLoop.ReadyButNotMapped | internal/controller/nova/nova_controller.go:1559-1572 | a cell regarded as ready whose mapping job is running |
| CellLoop.WaitingKeepsThePromise | internal/nova/common.go:74-76 | with the early return a ready cell is always mapped, a cell is reported as being mapped iff it got that far and its job runs, and otherwise nothing changes |
| CellLoop.EveryCellHasAPlace | internal/controller/nova/nova_controller.go:673-686 | no status falls through the switch, and none is "mapping" |
| CellLoop.Pass.EnsureCells | internal/controller/nova/nova_controller.go:635-721 | the loop files each cell where it belongs; the condition is False with an error iff a cell failed, False as requested iff none failed and one is deploying or discovering, False as waiting iff cells only wait, and True iff none of these |
| CellLoop.FiledInOrder | internal/controller/nova/nova_controller.go:635-687 | each list is made of the cells that belong there |
| CellLoop.ListsExactly | internal/controller/nova/nova_controller.go:635-687 | for each of the six lists which cells are in it: waiting iff database or bus is not completed or API access is needed and cell0 was not ensured and ready; and deploying, discovering, failed and ready by the errors, generations, applied input and jobs of the cell |
| CellLoop.ListsInOrder | internal/controller/nova/nova_controller.go:635-687 | each list keeps the order of the cells and names none twice |
| CellLoop.ListsPartition | internal/controller/nova/nova_controller.go:635-687 | each ordered cell is in exactly one of the six lists |
| CellLoop.DroppedErrors | internal/controller/nova/nova_controller.go:665-686 | a failed cell has an error to print; the errors of other cells, which nobody reports, are exactly a cell secret that could not be written and, of a ready cell, account finalizers that could not be removed |
| CellLoop.MappingListIsEmpty | internal/controller/nova/nova_controller.go:676-677 | the list of cells being mapped is always empty |
| CellLoop.TrueIffWholeListIsReady | internal/controller/nova/nova_controller.go:696-721 | the condition is True iff the ready list is the whole ordered list, and never stays Unknown |
| CellLoop.TrueMeansApplied | internal/controller/nova/nova_controller.go:696-721 | when it is True every ordered cell has its database and bus, is ready at its observed generation and has applied its input |
| CellLoop.ApiCellsWaitForCell0 | internal/controller/nova/nova_controller.go:654-663 | a cell whose database and bus are there is created or patched, unless it needs API access and cell0 was not ensured and ready in this pass |
| CellLoop.TopLevelWaitsForCell0 | internal/controller/nova/nova_controller.go:723-730 | the top-level services go ahead iff cell0 was ensured, is ready and observed; the reconcile crashes iff the secret of cell0 failed |
| CellLoop.Pass.RecordApplied | internal/controller/nova/nova_controller.go:723-794 | when the applied input of Nova is set |
| CellLoop.AppliedLeavesOutCell0 | internal/controller/nova/nova_controller.go:792-794 | it can be set in a pass in which cell0 has not applied its input |
| CellLoop.AppliedCoversCell0Iff | api/nova/v1beta1/nova_types.go:195-201 | in every pass in which the top-level services go ahead, cell0 has been seen to apply its input iff it is not listed as deploying and its patch did not fail; so it has whenever all cells are ready |
| CellTeardown.Cluster.EnsureCellDeleted | internal/controller/nova/nova_controller.go:1017-1139 | the deletion as the stated sequence of calls, with any reply to each |
| CellTeardown.Cluster.EnsureAccountDeletedIfOwned | internal/controller/nova/nova_controller.go:977-1015 | the same of the account |
| CellTeardown.AccountStepsDo | internal/controller/nova/nova_controller.go:1000-1012 | an account of ours never goes before its secret, and nothing else is touched |
| CellTeardown.AttemptKeepsRecord | internal/controller/nova/nova_controller.go:1017-1139 | an attempt only removes and keeps the record longer than what it records |
| CellTeardown.StatusExactly | internal/controller/nova/nova_controller.go:1017-1139 | what each attempt answers by the replies of the server: in progress iff the cell is there, ours, prepared and its job runs; failed, with an error, iff the first read or one of the calls of the cleanup was refused, job or preparation failed, or the record vanished |
| CellTeardown.DeletesInOrder | internal/controller/nova/nova_controller.go:1074-1136 | whatever fails, when an attempt has removed an object everything of ours before it in the order is gone |
| CellTeardown.OthersAreLeftAlone | internal/controller/nova/nova_controller.go:977-1071 | a cell that is not ours, and an account that is not ours, stay; nothing goes before the job has finished |
| CellTeardown.RecordGoesLast | internal/controller/nova/nova_controller.go:1129-1135 | over every run of attempts with any failures, once the NovaCell is gone its secrets, TransportURL, owned account, account secret and database are gone, and what remains never grows |
| CellTeardown.QuietAttemptEmpties | internal/controller/nova/nova_controller.go:1017-1139 | after any history an attempt without failures after the job finished removes everything |
| CellTeardown.CompleteMeansCleanedUp | internal/controller/nova/nova_controller.go:1129-1139 | "complete" means that everything but the record is gone |
| CellTeardown.CompleteMeansGoneIff | internal/controller/nova/nova_controller.go:1132-1138 | after "complete" the NovaCell is still there iff it is not ours or the last call was refused |
| CellTeardown.CompleteButPresent | internal/controller/nova/nova_controller.go:1132-1138 | an attempt that completes and leaves the NovaCell |
| ComputeStatuses.EnsureCompute | internal/controller/nova/novacell_controller.go:722-805 | deployed iff ready with the input at its observed generation, in error iff it could not be read, owned or patched |
| ComputeStatuses.NovaCell.EnsureComputeDeleted | internal/controller/nova/novacell_controller.go:688-720 | only a failed read and a vanished object are reported; a refused deletion is not |
| ComputeStatuses.NovaCell.DropObsolete | internal/controller/nova/novacell_controller.go:211-224 | it succeeds iff each obsolete compute could be read and did not vanish, and then exactly the obsolete statuses are forgotten and the computes the server deleted are gone; else those before the one it failed for |
| ComputeStatuses.NovaCell.EnsureComputes | internal/controller/nova/novacell_controller.go:246-256 | every compute of the spec gets the status it was found in, the others keep theirs |
| ComputeStatuses.NovaCell.CheckAllDeployed | internal/controller/nova/novacell_controller.go:258-285 | the comparison of lengths decides whether each compute of the spec is deployed |
| ComputeStatuses.NovaCell.ReconcileComputes | internal/controller/nova/novacell_controller.go:211-290 | obsolete statuses are dropped in any case; unless the proxy is waited for the statuses are then those the computes of the spec were found in, and all count as applied iff each was patched, is ready at its observed generation and has applied the input |
| ComputeStatuses.CountIsExact | internal/controller/nova/novacell_controller.go:275-276 | when the key sets agree equal numbers mean that all are deployed |
| ComputeStatuses.CountWouldMislead | internal/controller/nova/novacell_controller.go:275-276 | without dropping obsolete statuses they would not |
| ServiceCleanup.NovaApi.Clean | internal/controller/nova/common.go:171-201 | it succeeds iff every service of the cell could be read and the server takes the deletions needed, and then deletes exactly the obsolete services, in order; else those of an initial part up to one that could not be read or deleted |
| ServiceCleanup.ObsoleteAre | internal/controller/nova/common.go:171-197 | which services those are |
| ServiceCleanup.AfterTheLastDash | internal/controller/nova/common.go:171-197 | a host with the name of the cell in it fails the cleanup iff no number follows its last dash, and goes iff that number is at least the replica count |
| ServiceCleanup.PodIndex | internal/controller/nova/common.go:179-186 | splitting and parsing undoes printing for every host of the form prefix-index |
| ServiceCleanup.OwnConductors | internal/controller/nova/novaconductor_controller.go:733-737 | of the conductors of the cell exactly those from the replica count upwards go |
| ServiceCleanup.OtherConductors | internal/controller/nova/common.go:172-177 | a conductor of another cell goes iff its host contains the name of the cell and its index is at least the replica count |
| ServiceCleanup.CellsApart | internal/controller/nova/common.go:172-177 | if no host of another cell contains the name of the cell only services of the cell go |
| ServiceCleanup.PrefixTakes | internal/controller/nova/common.go:172-177 | a cell whose name begins with that of the cell loses its services from the replica count upwards |
| ServiceCleanup.Cell1TakesFromCell10 | internal/controller/nova/common.go:172-177 | cell1 takes from cell10 |
| ServiceCleanup.NoCellMeansAll | internal/controller/nova/novascheduler_controller.go:801-804 | without a cell every service is looked at |
| Strings.AtoiDecimal | internal/controller/nova/common.go:183-186 | parsing undoes printing for all numbers of 64 bits and refuses larger ones |
| Strings.AtoiForms | internal/controller/nova/common.go:183-186 | digits parse with either sign or none, within 64 bits |
| Strings.AtoiRefuses | internal/controller/nova/common.go:183-186 | and nothing else does |
| Strings.SplitLast | internal/controller/nova/common.go:179-181 | what follows the last separator is the last part |
| Strings.ContainsIff | internal/controller/nova/common.go:175-177 | containment is occurrence at some position |
| Strings.AtMostIff | internal/controller/nova/nova_controller.go:385-386 | the order is that of the first character in which two names differ, a prefix first |
| Strings.SortUnique | internal/controller/nova/nova_controller.go:385-386 | sorting depends only on what is sorted |
| Strings.SortSorts | internal/controller/nova/nova_controller.go:385-386 | it rearranges into ascending order |
| StringMapHash.KeyValues | internal/controller/nova/common.go:260-273 | the loops compute key and value of each key in sorted order |
| StringMapHash.EncodingIsCanonical | internal/controller/nova/common.go:260-274 | what is hashed is the same for every enumeration |
| StringMapHash.InjectiveOnEqualKeys | internal/controller/nova/common.go:267-274 | maps with the same keys are told apart |
| StringMapHash.InjectiveOnEqualLengths | internal/controller/nova/novacell_controller.go:246-294 | maps whose values have one length, as hashes do, are told apart |
| StringMapHash.TwoMapsOneEncoding | internal/controller/nova/common.go:267-274 | in general they are not |
| NovaSpecs.NovaCR.Default | api/nova/v1beta1/nova_webhook.go:77-129 | defaulting in place gives the same result for every order of the cells |
| NovaSpecs.DefaultingIsIdempotent | api/nova/v1beta1/nova_webhook.go:77-129 | defaulting again changes nothing, and validation finds every pointer it follows |
| NovaSpecs.DefaultingPreserves | api/nova/v1beta1/nova_webhook.go:77-129 | no value that was set is changed |
| NovaSpecs.DefaultsExactly | api/nova/v1beta1/nova_webhook.go:77-129 | which default each unset value gets; cell0 then shares the bus of the API |
| NovaSpecs.DefaultBusesAreDistinct | api/nova/v1beta1/nova_webhook.go:117-125 | cells that set no bus get different ones, none of them the default bus of the API |
| NovaSpecs.CellDefaultsAgree | api/nova/v1beta1/novacell_webhook.go:71-89 | the NovaCell webhook changes nothing in a cell derived from a defaulted Nova, and would have set the same |
| NovaValidation.MatchAny | api/nova/v1beta1/common_webhook.go:54-61 | true iff some pattern matches |
| NovaValidation.ValidateDefaultConfigOverwrite | api/nova/v1beta1/common_webhook.go:31-52 | one error for exactly the files that no pattern allows |
| NovaValidation.ValidateComputes | api/nova/v1beta1/nova_webhook.go:242-267 | the errors are exactly those of the compute templates |
| NovaValidation.ValidateCompute | api/nova/v1beta1/nova_webhook.go:242-267 | for one compute which errors are reported: replicas of Ironic, name, files, topology, probes |
| NovaValidation.ValidateCellTemplate | api/nova/v1beta1/nova_webhook.go:146-267 | the errors are exactly what is wrong with the cell, its bus apart; none iff it meets each check |
| NovaValidation.NoViolationMeansOk | api/nova/v1beta1/nova_webhook.go:146-267 | something is wrong with a cell iff it fails a check |
| NovaValidation.CellTemplateOkExactly | api/nova/v1beta1/nova_webhook.go:146-267 | the checks of a cell one by one |
| NovaValidation.ComputeTemplateOkExactly | api/nova/v1beta1/nova_webhook.go:242-267 | and those of a compute |
| NovaValidation.ServicesOkExactly | api/nova/v1beta1/nova_webhook.go:274-313 | and those of the services on top |
| NovaValidation.ValidateCellTemplates | api/nova/v1beta1/nova_webhook.go:133-271 | for every order the number of duplicate buses reported is that of the cells but cell0 less that of the buses in use, and each names two cells of that bus; the other errors are exactly those of the cells; and the templates are accepted iff every cell is fine and no two share a bus |
| NovaValidation.ClustersDistinctExactly | api/nova/v1beta1/nova_webhook.go:156-184 | no bus is shared between cells other than cell0, the bus being that of the new field or else of the deprecated one |
| NovaValidation.DistinctIff | api/nova/v1beta1/nova_webhook.go:155-184 | as many buses as cells iff no two cells share one |
| NovaValidation.ValidateServices | api/nova/v1beta1/nova_webhook.go:274-313 | no error iff API, scheduler, metadata and topology meet what creation and update both check |
| NovaValidation.ValidateCreate | api/nova/v1beta1/nova_webhook.go:322-356 | what is accepted on creation |
| NovaValidation.ValidateUpdate | api/nova/v1beta1/nova_webhook.go:378-407 | what is accepted on update |
| NovaValidation.ServiceWebhooksExactly | api/nova/v1beta1/novacompute_webhook.go:109-146 | the checks of the webhooks of conductor, metadata, proxy, scheduler, API and compute one by one |
| NovaDerivation.CellIsAccepted | api/nova/v1beta1/novacell_webhook.go:92-164 | each cell derived from accepted templates, with fallbacks and defaults, is accepted by its own webhook |
| NovaDerivation.CellServicesAreAccepted | api/nova/v1beta1/novacompute_types.go:239-278 | so is each conductor, metadata, proxy and compute derived from the cell |
| NovaDerivation.TemplateOkIff | api/nova/v1beta1/nova_webhook.go:146-267 | the checks Nova makes of a cell are those of the children derived from it, and that metadata does not run on both levels |
| NovaDerivation.CreateOkIff | api/nova/v1beta1/nova_webhook.go:322-356 | a Nova is accepted on creation iff it has cell0, no shared bus, metadata on one level, a fine topology, and every possible child of both levels is accepted |
| NovaDerivation.SettingsComeFromTheNearest | api/nova/v1beta1/novaconductor_types.go:229-268 | selectors and topologies of every service of a cell come from the nearest of service, cell and Nova that sets them, its other settings from the service |
| NovaDerivation.TopSettingsComeFromTheNearest | internal/controller/nova/nova_controller.go:1686-1692 | selectors and topologies of API, scheduler and metadata come from the service or else from Nova, their other settings from the service |
| NovaDerivation.DefaultsAreAcceptable | api/nova/v1beta1/nova_webhook.go:77-129 | a Nova that leaves unset what has a default meets all rules about it: distinct buses, metadata on top only, no proxy in cell0 |
| NovaDerivation.CreatedNovaHasAcceptableChildren | api/nova/v1beta1/nova_webhook.go:322-356 | every child there is, of both levels, of a Nova accepted on creation is accepted |
| NovaDerivation.UpdatedNovaHasAcceptableChildren | api/nova/v1beta1/nova_webhook.go:378-407 | for an accepted update that holds iff the top-level metadata service is not enabled or its probes are fine |
| NovaDerivation.UpdateSlipsThrough | api/nova/v1beta1/nova_webhook.go:378-407 | an update Nova accepts, with a NovaMetadata that is created and refused |
| RouteAnnotations.Route.SetDefaultRouteAnnotations | api/nova/v1beta1/nova_webhook.go:439-462 | the edit of the map, which touches no other annotation |
| RouteAnnotations.SecondsReadBack | api/nova/v1beta1/nova_webhook.go:459-461 | what is written can be read back as the timeout |
| RouteAnnotations.HumanValuePersists | api/nova/v1beta1/nova_webhook.go:447-456 | what a human set survives every later sequence of calls with any timeouts |
| RouteAnnotations.UntouchedFollowsTheLatest | api/cyborg/v1beta1/cyborg_webhook.go:220-243 | untouched, both annotations say the latest timeout |
| RouteAnnotations.DefaultingIsIdempotent | api/placement/v1beta1/api_webhook.go:176-196 | a call repeated changes nothing |
| RouteAnnotations.HumanValueSurvivesIff | api/nova/v1beta1/nova_webhook.go:447-456 | what a human wrote is in place later iff it was not what the flag said, or is what the latest call writes anyway |
| RouteAnnotations.RemovingHandsBack | api/nova/v1beta1/nova_webhook.go:458-461 | removing the proxy timeout hands the route back to the operator |

## Left out

- Deleting a Nova or a Cyborg as a whole: its reconcile prunes all consumer finalizers while the services may still be running; rotation safety is stated for a CR that is not being deleted.
- RotationExact.ReuseIsSafeIff: is about a value the group was once reported to apply; for a reused value that never was, `ReleaseIsSafeIff` gives the condition once the group is reported to apply it.
- The consumer finalizers of application credentials outside deletion: safety is proved, exactness does not hold (`NovaRotation.AppCredReleaseIsExact`).
- Reconcilers.Server.ReconcileCell: ensures the services of the spec before it deletes disabled ones; the source takes them one by one.
- Templates, volumes and the construction of StatefulSets and Jobs: an input renders to a configuration. That mounted configuration secrets are overwritten in place, so that a running pod may see newer files, is not modelled.
- The compute configuration for the data plane and the agent configuration of Cyborg.
- Finalizers on Topology and Memcached objects, which are mostly in code that is not part of this model.
- The database schema jobs of NovaConductor and Cyborg: a service may stop between reading its input and patching, which covers waiting for them.
- The noVNC proxy and placement controllers: the proxy is one more service of a cell.
- Condition messages, ready counts, events, requeue times, watches, indexes, RBAC.
- Registration of Keystone users and endpoints beyond their finalizers; MariaDB, RabbitMQ and Nova clients beyond success and failure. `DeleteDatabaseAndAccountFinalizers` is two calls that take the operator's finalizer off the database and the account; finalizers of other operators on them are not modelled.
- Somebody else deleting an owned account before its secret: the secret is then not found any more, as the source says itself.
- CRD-name expressions, file globs, cron expressions, probes, routed overrides and topology checks of libraries: unknown predicates.
- The check of deprecated bus fields on update: a list of errors that is passed in; its warnings are dropped.
- Images and the other fields that specs only copy.
- A nil annotations map passed to the route defaults.
