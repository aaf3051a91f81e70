# DummyClusterNetwork reconciler — a Dafny model

This project models the reconcile loop of the `DummyClusterNetwork`
controller (`teardown/controllers/dummyclusternetwork_controller.go`). A
`DummyClusterNetwork` is a cluster-scoped custom resource naming a Linux
bridge (`bridgeName`) and a Multus `NetworkAttachmentDefinition`
(`nadNamespace/nadName`). While the network is live, one reconcile adds the
sentinel finalizer `finalizer.network.harvester.io/dummy`, ensures the
attachment definition and the `kube-system/dummy-bridge-ensure` daemon set
exist (create-if-absent, never updated), and reports `Ready`. Once deletion
has been requested, the reconcile refuses to tear anything down while a
listed KubeVirt VirtualMachine, or a VirtualMachineInstance, names the
attachment in its `spec.template` network list or network annotation. The
check reads the template fields for both kinds, so an instance that names
the attachment only in its own `spec.networks` or annotations does not block
the deletion. It reports `DeletionBlocked` with the users and retries after
30 seconds. Otherwise it deletes the daemon set, then the attachment
definition, and then releases the finalizer.

The model is a pure step function over an abstract cluster store:

    Reconciler.Reconcile(s: Store, faults: Faults): Step(store, outcome, trace)

- `ClusterStore.Store` holds the one network being reconciled (absent when
  not found), the attachment definitions and daemon sets by key, and the
  listed VMs and VMIs. Only the workload fields that the usage check reads
  are kept.
- `Faults` maps each kind of store call that fails to the error text it
  returns. This is how API errors, including update conflicts, enter the model.
  Each kind of call is made at most once per reconcile.
- `Outcome` is `Done`, `RequeueAfter(30)` or `Err(failure)`, the three shapes
  of `(ctrl.Result, error)` the function returns.
- The trace records every store call in order, reads included. "Nothing is
  written" is stated as "the trace holds no call of the write classes"
  (`NoneIn`); ordering is stated with `Before`.

Store semantics the controller relies on are modelled explicitly. A status
write replaces `status.phase`/`status.reason`, and its error is ignored by
every caller. Persisting an empty finalizer list on a network being deleted
lets the store remove the network, so the final `Deleted` status write finds
nothing. `ClusterStore.RequestDeletion` is a user's delete request.

The daemon set's name is fixed and does not depend on the bridge.
`ensureBridgeDaemonSet` therefore never creates a second daemon set for a
second bridge, and `deleteBridgeDaemonSet` ignores its `bridge` argument
(`DaemonSetIdentityIgnoresBridge`). The model keeps this behaviour as written.

Modules: `Wrappers` (Option), `Strings` (the Go `strings`/`fmt` helpers
used), `Finalizers` (`containsString`, `removeString`), `Usage`
(`objectUsesNetwork` and the user list), `ClusterStore` (store, calls,
traces, generic create-if-absent and delete-if-present), `Reconciler` (the
controller), `ReconcileProperties` (properties across whole reconciles).

## Model

| member | source | states |
|---|---|---|
| Reconciler.Reconcile | teardown/controllers/dummyclusternetwork_controller.go:52-117 | The network fetch is always the first call. A fetch error is returned with nothing else done. A missing network yields Done with no further call. Workloads never change, and a surviving network keeps its spec and deletion flag. |
| Reconciler.ValidSpec | teardown/controllers/dummyclusternetwork_controller.go:64-67 | The spec gate: bridgeName, nadName and nadNamespace are all non-empty. InvalidSpecShortCircuits states what happens when it fails. |
| Reconciler.FullName | teardown/controllers/dummyclusternetwork_controller.go:92 | The attachment definition's full name `nadNamespace/nadName`. FullNameIsSuffixMatch relates it to the short-name test. |
| Reconciler.InUseMessage | teardown/controllers/dummyclusternetwork_controller.go:98 | The DeletionBlocked message "Network in use by N objects: u1,u2,...". InUseMessageDecodes proves that the count and the users read back from it. |
| ReconcileProperties.NotFoundWritesNothing | teardown/controllers/dummyclusternetwork_controller.go:57-60 | A network that is gone is left alone: the store is unchanged, the outcome is Done and the trace has no write. |
| ReconcileProperties.InvalidSpecShortCircuits | teardown/controllers/dummyclusternetwork_controller.go:64-70 | An empty bridgeName, nadName or nadNamespace only writes InvalidSpec with the fixed reason and yields RequeueAfter(30). No finalizer, dependent or list call is made, even while deleting. |
| Reconciler.UpdateStatus | teardown/controllers/dummyclusternetwork_controller.go:119-125 | Exactly one status write. Only phase and reason change. It fails, leaving the store as it was, exactly when the network is gone or the status write faults. |
| Reconciler.PersistFinalizerList | teardown/controllers/dummyclusternetwork_controller.go:110-113 | Writes the finalizer list and fails exactly on an update fault, changing nothing. An empty list on a deleting network lets the store remove the network. |
| Reconciler.EnsureFinalizer | teardown/controllers/dummyclusternetwork_controller.go:73-79 | A present sentinel means no call. An absent one is appended once, and the trace is exactly that one finalizer write. A persist failure is returned with the store unchanged. |
| Reconciler.EnsureNetworkAttachmentDefinition | teardown/controllers/dummyclusternetwork_controller.go:127-159 | The get comes first, and only attachment-definition calls are made, none a delete. The create is issued exactly when the get succeeds with NotFound. An existing definition is kept unchanged. An absent one is created with the bridge. A non-NotFound get error or a create error is returned with nothing changed. |
| Reconciler.EnsureBridgeDaemonSet | teardown/controllers/dummyclusternetwork_controller.go:161-236 | The same create-if-absent contract at the fixed key kube-system/dummy-bridge-ensure. The create is issued exactly when the get succeeds with NotFound. Only daemon-set calls are made, and none of them is a delete. |
| Reconciler.DeleteBridgeDaemonSet | teardown/controllers/dummyclusternetwork_controller.go:238-249 | The delete is issued exactly when the get finds the fixed daemon set; NotFound counts as success. On success it is absent, and nothing else changes. |
| Reconciler.DeleteNad | teardown/controllers/dummyclusternetwork_controller.go:251-261 | The delete is issued exactly when the get finds the named definition; NotFound counts as success. On success it is absent. Errors are returned with nothing changed. |
| Reconciler.IsNetworkInUse | teardown/controllers/dummyclusternetwork_controller.go:263-289 | VMs are listed first, and only list calls are made. A failing VM list stops there: the trace is that one call and the error is the VM list's. Otherwise the VMI list is always called next. It fails exactly when a list call faults, with a list error and no user. Otherwise the users are the VM users followed by the VMI users, and the network is in use iff that list is non-empty. |
| Reconciler.NetworkInUseIffUsers | teardown/controllers/dummyclusternetwork_controller.go:92-101 | Some listed VM or VMI uses the network, by the fields the helper reads, exactly when the reported user list is non-empty. |
| Reconciler.InstancesWithoutTemplateNeverBlock | teardown/controllers/dummyclusternetwork_controller.go:282-286 | A VMI with no template network list and no template annotation, as a standalone instance has, is never reported. The users are then the VM users alone. |
| Usage.ObjectUsesNetwork | teardown/controllers/dummyclusternetwork_controller.go:291-317 | A workload with neither a network list nor a non-empty annotation is not a user. |
| Usage.NameMatches | teardown/controllers/dummyclusternetwork_controller.go:298-311 | The three-way reference test: equal to the full name, equal to the short name, or ending in "/"+short name. FullNameIsSuffixMatch and SuffixMatchNeedsSlash state what it accepts. |
| Usage.ObjectUsesNetworkMeaning | teardown/controllers/dummyclusternetwork_controller.go:291-317 | A workload is a user iff some multus networkName in its network list matches, or its non-empty annotation has a comma-separated token that matches once trimmed. |
| Usage.AnyEntryMatches | teardown/controllers/dummyclusternetwork_controller.go:292-305 | The scan finds a match iff some list entry has a matching multus network name. |
| Usage.TrimAll | teardown/controllers/dummyclusternetwork_controller.go:308-310 | Each annotation token is trimmed, keeping the number and order of tokens. |
| Usage.AnyNameMatches | teardown/controllers/dummyclusternetwork_controller.go:308-315 | The scan finds a match iff some trimmed token equals the full name or the short name, or ends in "/"+short name. |
| Usage.TrimmedTokensMatch | teardown/controllers/dummyclusternetwork_controller.go:306-315 | Scanning the trimmed tokens finds a match exactly when some raw token matches once trimmed. |
| Usage.Users | teardown/controllers/dummyclusternetwork_controller.go:271-286 | At most one user is reported per listed workload. |
| Usage.UsersMeaning | teardown/controllers/dummyclusternetwork_controller.go:271-286 | The user list is sound and complete. Every using workload's `kind/ns/name` is listed, and every listed identifier belongs to a using workload. It is empty iff no workload uses the network. |
| Usage.RenderAll | teardown/controllers/dummyclusternetwork_controller.go:271-286 | Each user is written as `kind/namespace/name`, one text per user, in order. |
| Usage.UsersConcat | teardown/controllers/dummyclusternetwork_controller.go:271-286 | Users of a concatenation are the users of each part, in list order. |
| Usage.FullNameIsSuffixMatch | teardown/controllers/dummyclusternetwork_controller.go:298 | A reference equal to `ns/name` is already a "/"+name suffix match. The three-way test is therefore equivalent to "equals the short name or ends in /short name". |
| Usage.SuffixMatchNeedsSlash | teardown/controllers/dummyclusternetwork_controller.go:311 | `foo/bar` refers to short name `bar`, but `foobar` does not. |
| Usage.AnnotationTokenIsDetected | teardown/controllers/dummyclusternetwork_controller.go:306-315 | Suppose an annotation is the comma join of comma-free tokens. If any one token matches once trimmed, the workload is a user. |
| Finalizers.ContainsString | teardown/controllers/dummyclusternetwork_controller.go:321-328 | True exactly when the string occurs in the list. |
| Finalizers.RemoveString | teardown/controllers/dummyclusternetwork_controller.go:330-339 | Every occurrence is removed. Every other entry keeps its multiplicity, and the length drops by the number of occurrences. |
| Finalizers.RemoveStringConcat | teardown/controllers/dummyclusternetwork_controller.go:330-339 | Removal distributes over concatenation, so the survivors keep their relative order. |
| Finalizers.RemoveStringAbsent | teardown/controllers/dummyclusternetwork_controller.go:330-339 | Removing an absent string returns the list unchanged. |
| Finalizers.RemoveStringIdempotent | teardown/controllers/dummyclusternetwork_controller.go:330-339 | Removing twice is the same as removing once. |
| Finalizers.AppendThenRemove | teardown/controllers/dummyclusternetwork_controller.go:73-74 | Appending an absent finalizer and then removing it restores the original list. |
| Finalizers.AppendIfAbsentOnce | teardown/controllers/dummyclusternetwork_controller.go:73-74 | After append-if-absent, the finalizer occurs once if it was absent. Otherwise its count is unchanged. |
| Strings.TrimSpace | teardown/controllers/dummyclusternetwork_controller.go:310 | The result is no longer than the input, and it neither starts nor ends with whitespace. |
| Strings.TrimSpaceIsSlice | teardown/controllers/dummyclusternetwork_controller.go:310 | The result is the slice left after removing all-whitespace padding on both sides. |
| Strings.TrimSpacePadded | teardown/controllers/dummyclusternetwork_controller.go:310 | Whitespace padding around a core with non-space ends trims to exactly that core. |
| Strings.TrimSpaceIdempotent | teardown/controllers/dummyclusternetwork_controller.go:310 | Trimming twice is the same as trimming once. |
| Strings.Split | teardown/controllers/dummyclusternetwork_controller.go:308 | Splitting gives at least one piece, and no piece contains the separator. |
| Strings.JoinSplit | teardown/controllers/dummyclusternetwork_controller.go:308 | Joining the pieces of a split with the separator restores the string. |
| Strings.SplitJoin | teardown/controllers/dummyclusternetwork_controller.go:98 | Splitting a comma join of comma-free pieces gives back those pieces. |
| Strings.NatToString | teardown/controllers/dummyclusternetwork_controller.go:98 | `%d` renders a count as decimal digits with no leading zero. |
| Strings.ParseNatToString | teardown/controllers/dummyclusternetwork_controller.go:98 | Reading the rendered count back gives the count. |
| Strings.HasSuffix | teardown/controllers/dummyclusternetwork_controller.go:298-311 | Go's `strings.HasSuffix`: the last characters of the string equal the suffix. |
| Strings.HasSuffixMeaning | teardown/controllers/dummyclusternetwork_controller.go:298-311 | A string has the suffix exactly when it is some string followed by that suffix. |
| Strings.Join | teardown/controllers/dummyclusternetwork_controller.go:98 | Go's `strings.Join`: the parts with the separator between neighbours. SplitJoin proves that comma-free parts read back. |
| ClusterStore.EnsureExists | teardown/controllers/dummyclusternetwork_controller.go:130-158 | Get-then-create-if-NotFound. The create is issued exactly when the get succeeds and the key is absent. An existing object is never replaced. A failure leaves the objects as they were. |
| ClusterStore.DeleteIfExists | teardown/controllers/dummyclusternetwork_controller.go:241-248 | Get-then-delete. The delete is issued exactly when the get succeeds and the key is present. NotFound is success. Only the key can disappear. A failure leaves the objects as they were. |
| ClusterStore.EnsureThenDelete | teardown/controllers/dummyclusternetwork_controller.go:127-159 | Ensuring an absent object and then deleting it, both without faults, gives back the original objects. |
| ClusterStore.EnsureTwice | teardown/controllers/dummyclusternetwork_controller.go:130-158 | A second ensure after a successful one issues no create and leaves the objects as they are. |
| ClusterStore.RequestDeletion | teardown/controllers/dummyclusternetwork_controller.go:72 | A delete request marks a network that holds finalizers as deleting and removes one that holds none. Nothing else changes. |
| Reconciler.ProvisionDaemonSet | teardown/controllers/dummyclusternetwork_controller.go:84-89 | A daemon-set error is reported as ErrorEnsuringDaemonSet and returned. Success reports Ready and leaves the daemon set present. |
| Reconciler.ProvisionDependents | teardown/controllers/dummyclusternetwork_controller.go:80-89 | An attachment-definition error is reported as ErrorEnsuringNAD and returned. Otherwise the daemon set is handled next. Only absent dependents are added, and with the spec's bridge. |
| Reconciler.Provision | teardown/controllers/dummyclusternetwork_controller.go:72-90 | A failing finalizer write is returned alone with the store unchanged. Done means the sentinel and both dependents are present. The finalizers gain at most the sentinel. |
| Reconciler.ReleaseFinalizer | teardown/controllers/dummyclusternetwork_controller.go:110-116 | The finalizers lose exactly the sentinel. The network is removed iff none remain. A write failure is returned with nothing changed. |
| Reconciler.RemoveNadAndRelease | teardown/controllers/dummyclusternetwork_controller.go:106-116 | A delete error is returned before the finalizers are touched. On Done the attachment definition is gone and the sentinel is released. |
| Reconciler.TeardownUnused | teardown/controllers/dummyclusternetwork_controller.go:103-116 | On Done both dependents are gone and the sentinel is released. An error is a daemon-set call, attachment-definition call or finalizer write that faulted, never a status write. Any error leaves the network unchanged. At most the two keys disappear. |
| Reconciler.Teardown | teardown/controllers/dummyclusternetwork_controller.go:92-116 | A list error changes nothing and is returned. Done means both dependents are gone and the sentinel is released, with the network removed iff no finalizer remains. |
| Reconciler.TeardownDecision | teardown/controllers/dummyclusternetwork_controller.go:93-101 | With users present only the status may change and Done never follows. Without list errors the outcome is RequeueAfter(30) with DeletionBlocked and the in-use message. RequeueAfter implies users, and Done implies none. |
| ReconcileProperties.StatusWriteCalls | teardown/controllers/dummyclusternetwork_controller.go:119-125 | A status write is never a finalizer, dependent or list call. |
| ReconcileProperties.ProvisionDaemonSetCalls | teardown/controllers/dummyclusternetwork_controller.go:84-89 | This stage makes only daemon-set calls and a status write, and never deletes. |
| ReconcileProperties.ProvisionDependentsCalls | teardown/controllers/dummyclusternetwork_controller.go:80-89 | Attachment-definition calls precede daemon-set calls. An attachment-definition error draws no daemon-set call. Existing dependents draw no create. |
| ReconcileProperties.ProvisionCalls | teardown/controllers/dummyclusternetwork_controller.go:72-90 | The finalizer write precedes every dependent call. No delete or list call is made. A fully provisioned network draws no create and no finalizer write. |
| ReconcileProperties.ReleaseFinalizerCalls | teardown/controllers/dummyclusternetwork_controller.go:110-116 | Releasing makes only the finalizer write and the status write. |
| ReconcileProperties.RemoveNadAndReleaseCalls | teardown/controllers/dummyclusternetwork_controller.go:106-116 | Attachment-definition calls precede the finalizer write, which is skipped on a delete error. |
| ReconcileProperties.TeardownUnusedCalls | teardown/controllers/dummyclusternetwork_controller.go:103-116 | The order is daemon-set calls, then attachment-definition calls, then the finalizer write. A dependent error means no finalizer write. |
| ReconcileProperties.TeardownOrder | teardown/controllers/dummyclusternetwork_controller.go:92-116 | Lists come before dependent calls, the daemon set before the attachment definition, and both before the finalizer write. No create is made. |
| ReconcileProperties.TeardownListErrorCalls | teardown/controllers/dummyclusternetwork_controller.go:93-96 | A list error draws no status write, no dependent call and no finalizer write. |
| ReconcileProperties.TeardownBlockedCalls | teardown/controllers/dummyclusternetwork_controller.go:97-101 | While the usage check reports users, teardown makes no dependent call, no delete and no finalizer write. |
| ReconcileProperties.DeletionGate | teardown/controllers/dummyclusternetwork_controller.go:92-101 | While any listed VM, or any VMI through its `spec.template` fields, uses the deleted network, a reconcile changes only the status. It never deletes or writes finalizers and never yields Done. |
| ReconcileProperties.BlockedDeletionReport | teardown/controllers/dummyclusternetwork_controller.go:97-100 | A blocked deletion yields RequeueAfter(30). The status is DeletionBlocked with "Network in use by N objects: ...". The message names every reported user, VMs first, where a VMI is reported only through its `spec.template` fields. |
| ReconcileProperties.InUseMessageDecodes | teardown/controllers/dummyclusternetwork_controller.go:98 | The blocked message reads back: the count parses to the number of users, and the list splits on commas into the rendered users, in order. |
| ReconcileProperties.StatusFaultsIgnored | teardown/controllers/dummyclusternetwork_controller.go:67-115 | Every status-write error is discarded. A reconcile whose status writes fail returns the same outcome and makes the same calls, in the same order, as one whose status writes succeed. |
| ReconcileProperties.ProvisionIgnoresStatusFaults | teardown/controllers/dummyclusternetwork_controller.go:72-90 | On the provisioning path, a failing status write changes neither the outcome nor the calls. |
| ReconcileProperties.ProvisionDependentsIgnoresStatusFaults | teardown/controllers/dummyclusternetwork_controller.go:80-89 | The ErrorEnsuringNAD write and the writes after it do not affect the outcome or the calls. |
| ReconcileProperties.ProvisionDaemonSetIgnoresStatusFaults | teardown/controllers/dummyclusternetwork_controller.go:84-89 | The ErrorEnsuringDaemonSet and Ready writes do not affect the outcome or the calls. |
| ReconcileProperties.TeardownIgnoresStatusFaults | teardown/controllers/dummyclusternetwork_controller.go:92-116 | On the teardown path, a failing status write, whether DeletionBlocked or Deleted, changes neither the outcome nor the calls. |
| ReconcileProperties.TeardownUnusedIgnoresStatusFaults | teardown/controllers/dummyclusternetwork_controller.go:103-116 | The final Deleted write of an unused network's teardown does not affect the outcome or the calls. |
| ReconcileProperties.RemoveNadAndReleaseIgnoresStatusFaults | teardown/controllers/dummyclusternetwork_controller.go:106-116 | The same, after the attachment definition is deleted. |
| ReconcileProperties.ReleaseFinalizerIgnoresStatusFaults | teardown/controllers/dummyclusternetwork_controller.go:110-115 | A failing Deleted write after the finalizer is released does not affect the outcome or the calls. |
| ReconcileProperties.ProvisioningOrder | teardown/controllers/dummyclusternetwork_controller.go:72-90 | A live network is never deleted from. The finalizer write precedes dependents, and the attachment definition precedes the daemon set. |
| ReconcileProperties.ProvisioningOutcomes | teardown/controllers/dummyclusternetwork_controller.go:73-89 | A finalizer-write failure changes nothing and touches no dependent. An attachment-definition error reports ErrorEnsuringNAD with no daemon-set call. A daemon-set error reports ErrorEnsuringDaemonSet. Success reports Ready. |
| ReconcileProperties.ProvisionOutcomes | teardown/controllers/dummyclusternetwork_controller.go:80-89 | On the provisioning path, an attachment-definition error leaves the daemon sets as they were and reports ErrorEnsuringNAD. A daemon-set error reports ErrorEnsuringDaemonSet. Success reports Ready. |
| ReconcileProperties.TeardownOrderInReconcile | teardown/controllers/dummyclusternetwork_controller.go:92-116 | A deleted network draws no create. Lists precede dependents, the daemon set precedes the attachment definition, and both precede the finalizer write. |
| ReconcileProperties.LiveNetworkOnlyGains | teardown/controllers/dummyclusternetwork_controller.go:72-90 | Existing definitions and daemon sets are kept unchanged; drift is not corrected. The only new keys are the network's attachment definition and the fixed daemon set. |
| ReconcileProperties.ProvisionAddsOnlyDependents | teardown/controllers/dummyclusternetwork_controller.go:72-90 | Provisioning either keeps the attachment definitions, or adds the network's definition where it was missing. The same holds for the daemon set at its fixed key. |
| ReconcileProperties.DeletedNetworkOnlyLoses | teardown/controllers/dummyclusternetwork_controller.go:92-116 | A deleted network creates or replaces nothing. Only its attachment definition and the daemon set can disappear. |
| ReconcileProperties.TeardownKeepsOthers | teardown/controllers/dummyclusternetwork_controller.go:103-108 | Teardown removes at most the network's attachment definition and the daemon set. |
| ReconcileProperties.FinalizerNeverDuplicated | teardown/controllers/dummyclusternetwork_controller.go:73-74 | A reconcile adds the sentinel only when it is absent, so it never occurs twice. |
| ReconcileProperties.ReconcileFinalizers | teardown/controllers/dummyclusternetwork_controller.go:52-117 | A reconcile keeps the finalizer list, appends the absent sentinel, or removes the sentinel. Nothing else happens to the list. |
| ReconcileProperties.TeardownFinalizers | teardown/controllers/dummyclusternetwork_controller.go:92-116 | Teardown keeps the finalizer list or removes the sentinel from it. |
| ReconcileProperties.SecondReconcileCreatesNothing | teardown/controllers/dummyclusternetwork_controller.go:72-90 | After a successful provisioning reconcile, the next reconcile issues no create and no finalizer write, whatever fails in it. |
| ReconcileProperties.ProvisioningIsFixedPoint | teardown/controllers/dummyclusternetwork_controller.go:72-90 | After a fault-free successful provisioning, reconciling again leaves the store unchanged and yields Done. |
| ReconcileProperties.FreshProvisioning | teardown/controllers/dummyclusternetwork_controller.go:72-90 | Take a network without the sentinel or its dependents. A fault-free reconcile appends the sentinel and adds exactly the two dependents, built from its bridge. |
| ReconcileProperties.FaultFreeRelease | teardown/controllers/dummyclusternetwork_controller.go:106-116 | Without faults, deleting the attachment definition and releasing the finalizer succeeds. It removes exactly that definition and reports Deleted if the network survives. |
| ReconcileProperties.FaultFreeTeardownUnused | teardown/controllers/dummyclusternetwork_controller.go:103-116 | Without faults, teardown of an unused network succeeds. It removes exactly the two dependents and reports Deleted if the network survives. |
| ReconcileProperties.TeardownLiveness | teardown/controllers/dummyclusternetwork_controller.go:103-116 | Take an unused deleted network. A fault-free reconcile yields Done, removes exactly the two dependents and releases the sentinel. Other finalizers keep their order, and the network is gone iff none remain. |
| ReconcileProperties.TeardownAfterProvisioning | teardown/controllers/dummyclusternetwork_controller.go:92-116 | Tearing down a freshly provisioned network restores the dependents and the network's original finalizers. |
| ReconcileProperties.ProvisionThenTeardown | teardown/controllers/dummyclusternetwork_controller.go:72-116 | Provision, request deletion, then reconcile again. This round trip restores the original dependents and finalizers. The network is gone iff it had no finalizers. |
| ReconcileProperties.DaemonSetIdentityIgnoresBridge | teardown/controllers/dummyclusternetwork_controller.go:238-249 | Deleting the daemon set, and the calls that ensuring it makes, do not depend on the bridge name. |

## Left out

- `main.go` and the manager wiring (`SetupWithManager`, lines 46-50) and the RBAC markers: these are registration, not reconcile logic.
- The literal CNI configuration of the attachment definition (lines 137-157) and the daemon-set pod spec (lines 171-234): both are abstracted to a body that records the bridge name. The JSON text, the image, host paths and tolerations are not modelled.
- Access to unstructured objects: a missing or non-string spec field is read as the empty string. A missing or ill-typed network list or annotation is `None`, and a non-map list entry or one without `multus.networkName` is an entry with no name.
- The VMI branch: `objectUsesNetwork` reads `spec.template.spec.networks` and the `spec.template` annotation for VMIs as well as VMs (lines 282-286, 292 and 306). A VMI keeps its networks at `spec.networks` and its annotations at `metadata.annotations`, and has no `spec.template`. So a standalone VMI that uses the network never blocks a deletion. The model keeps this behaviour as written: the workload fields are what the helper reads, for either kind. A VMI's own `spec.networks` and annotations are not modelled, and `InstancesWithoutTemplateNeverBlock` states the consequence.
- Optimistic concurrency (resource versions, update conflicts): a conflict is just one more fault of the update call.
- Logging (lines 53, 78, 115), the context and its cancellation, and the wall clock: `RequeueAfter(30)` is an outcome value, not a timer.
- Other networks: the store holds only the network being reconciled. The effect of the shared daemon set on other networks is described, not modelled.
- Status write errors: they are modelled and then ignored, as the source does. `StatusFaultsIgnored` proves they never change the outcome or the calls of a reconcile.
- Strings.TrimSpace: trims ASCII whitespace only. Go's `strings.TrimSpace` also trims Unicode spaces such as U+0085 and U+00A0.
- Strings.Split: covers a one-character separator only, which is all the annotation check uses. Go's splitting on an empty or longer separator is not modelled.
