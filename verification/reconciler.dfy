/**
 * One reconcile of a DummyClusterNetwork, as a pure step over the store:
 * fetch the network, gate on an incomplete spec, then either provision
 * (finalizer, attachment definition, bridge daemon set) or tear down
 * (usage gate, daemon set, attachment definition, finalizer).
 */
module Reconciler {
  import opened Wrappers
  import opened Strings
  import opened Finalizers
  import opened Usage
  import opened ClusterStore

  /** The sentinel finalizer that holds the network until teardown is done. */
  const FinalizerName: string := "finalizer.network.harvester.io/dummy"

  /** The bridge agent is a singleton: its identity does not depend on the bridge. */
  const DaemonSetKey: ObjectKey := ObjectKey("kube-system", "dummy-bridge-ensure")

  const RequeueSeconds: nat := 30

  const InvalidSpecReason: string := "bridgeName, nadName and nadNamespace are required"

  /** What a reconcile reports to the framework. */
  datatype Outcome = Done | RequeueAfter(seconds: nat) | Err(failure: Failure)

  /** A whole reconcile: the store afterwards, the outcome, and the store calls in order. */
  datatype Step = Step(store: Store, outcome: Outcome, trace: seq<Action>)

  /** A part of a reconcile: the store afterwards, its calls, and the error it returns, if any. */
  datatype Effect = Effect(store: Store, trace: seq<Action>, failure: Option<Failure>)

  /** The result of the usage check: calls made, whether in use, the users, or the list error. */
  datatype UsageCheck = UsageCheck(trace: seq<Action>, inUse: bool, users: seq<UserId>, failure: Option<Failure>)

  predicate ValidSpec(spec: NetworkSpec) {
    spec.bridgeName != "" && spec.nadName != "" && spec.nadNamespace != ""
  }

  function FullName(spec: NetworkSpec): string {
    spec.nadNamespace + "/" + spec.nadName
  }

  function NadKey(spec: NetworkSpec): ObjectKey {
    ObjectKey(spec.nadNamespace, spec.nadName)
  }

  /** The status message of a blocked deletion. */
  function InUseMessage(users: seq<UserId>): string {
    "Network in use by " + NatToString(|users|) + " objects: " + Join(RenderAll(users), ",")
  }

  /** `b` differs from `a` at most in the stored status of the network. */
  predicate SameExceptStatus(a: Store, b: Store) {
    && b.nads == a.nads && b.daemonSets == a.daemonSets && b.vms == a.vms && b.vmis == a.vmis
    && b.network.Some? == a.network.Some?
    && (a.network.Some? ==> b.network.value.(status := a.network.value.status) == a.network.value)
  }

  /**
   * `b` differs from `a` at most in the dependents and the stored status:
   * the workloads, and the network's spec, finalizers and deletion flag, are kept.
   */
  predicate SameExceptDependents(a: Store, b: Store) {
    && b.vms == a.vms && b.vmis == a.vmis
    && b.network.Some? == a.network.Some?
    && (a.network.Some? ==> b.network.value.(status := a.network.value.status) == a.network.value)
  }

  predicate HasStatus(s: Store, phase: string, reason: string) {
    s.network.Some? && s.network.value.status == Some(Status(phase, reason))
  }

  /**
   * Best-effort status write: on success the stored status becomes
   * `(phase, reason)`; a failing write or a network that is gone leaves the
   * store as it was. Nothing but the status ever changes.
   */
  function UpdateStatus(s: Store, phase: string, reason: string, faults: Faults): (e: Effect)
    ensures e.trace == [PersistStatus(Status(phase, reason))]
    ensures SameExceptStatus(s, e.store)
    ensures e.failure.None? <==> s.network.Some? && UpdateNetworkStatus !in faults
    ensures e.failure.None? ==> HasStatus(e.store, phase, reason)
    ensures e.failure.Some? ==> e.store == s
  {
    if UpdateNetworkStatus in faults then
      Effect(s, [PersistStatus(Status(phase, reason))], Some(FailureOf(UpdateNetworkStatus, faults)))
    else if s.network.None? then
      Effect(s, [PersistStatus(Status(phase, reason))], Some(Failure(UpdateNetworkStatus, NotFoundMessage)))
    else
      var n := s.network.value.(status := Some(Status(phase, reason)));
      Effect(s.(network := Some(n)), [PersistStatus(Status(phase, reason))], None)
  }

  /**
   * Persists a new finalizer list. A network whose deletion was requested and
   * whose list becomes empty is removed by the store.
   */
  function PersistFinalizerList(s: Store, finalizers: seq<string>, faults: Faults): (e: Effect)
    requires s.network.Some?
    ensures e.trace == [PersistFinalizers(finalizers)]
    ensures e.failure.Some? <==> UpdateNetwork in faults
    ensures e.failure.Some? ==> e.store == s && e.failure == Some(FailureOf(UpdateNetwork, faults))
    ensures e.store.nads == s.nads && e.store.daemonSets == s.daemonSets
    ensures e.store.vms == s.vms && e.store.vmis == s.vmis
    ensures e.failure.None? ==>
              (e.store.network.None? <==> s.network.value.deleting && finalizers == [])
    ensures e.failure.None? && e.store.network.Some? ==>
              e.store.network.value == s.network.value.(finalizers := finalizers)
  {
    if UpdateNetwork in faults then
      Effect(s, [PersistFinalizers(finalizers)], Some(FailureOf(UpdateNetwork, faults)))
    else
      var n := s.network.value.(finalizers := finalizers);
      var stored := if n.deleting && finalizers == [] then None else Some(n);
      Effect(s.(network := stored), [PersistFinalizers(finalizers)], None)
  }

  /**
   * Ensures the attachment definition `namespace/name` exists, creating it
   * for `bridge` if missing; an existing one is left untouched.
   */
  function EnsureNetworkAttachmentDefinition(s: Store, namespace: string, name: string, bridge: string, faults: Faults): (e: Effect)
    ensures e.store == s.(nads := e.store.nads)
    ensures forall a :: a in e.trace ==> InClass(a, NadCalls) && !a.Delete?
    ensures Create(NadKind, ObjectKey(namespace, name)) in e.trace
            <==> GetObject(NadKind) !in faults && ObjectKey(namespace, name) !in s.nads
    ensures |e.trace| >= 1 && e.trace[0] == Fetch(NadKind, ObjectKey(namespace, name))
    ensures ObjectKey(namespace, name) in s.nads ==> e.store == s && NoneIn(e.trace, Creates)
    ensures e.store.nads == s.nads
            || (ObjectKey(namespace, name) !in s.nads && e.store.nads == s.nads[ObjectKey(namespace, name) := NadBody(bridge)])
    ensures e.failure.None? ==> ObjectKey(namespace, name) in e.store.nads
    ensures e.failure.Some? ==> e.store == s
    ensures e.failure.Some? <==>
              GetObject(NadKind) in faults || (ObjectKey(namespace, name) !in s.nads && CreateObject(NadKind) in faults)
    ensures e.failure.Some? ==> e.failure.value.op in faults && e.failure.value.message == faults[e.failure.value.op]
  {
    var o := EnsureExists(s.nads, NadKind, ObjectKey(namespace, name), NadBody(bridge), faults);
    Effect(s.(nads := o.objects), o.trace, o.failure)
  }

  /**
   * Ensures the bridge daemon set exists at its fixed identity, creating it
   * for `bridge` if missing; an existing one is left untouched, whatever
   * bridge it was made for.
   */
  function EnsureBridgeDaemonSet(s: Store, bridge: string, faults: Faults): (e: Effect)
    ensures e.store == s.(daemonSets := e.store.daemonSets)
    ensures forall a :: a in e.trace ==> InClass(a, DaemonSetCalls) && !a.Delete?
    ensures Create(DaemonSetKind, DaemonSetKey) in e.trace <==> GetObject(DaemonSetKind) !in faults && DaemonSetKey !in s.daemonSets
    ensures |e.trace| >= 1 && e.trace[0] == Fetch(DaemonSetKind, DaemonSetKey)
    ensures DaemonSetKey in s.daemonSets ==> e.store == s && NoneIn(e.trace, Creates)
    ensures e.store.daemonSets == s.daemonSets
            || (DaemonSetKey !in s.daemonSets && e.store.daemonSets == s.daemonSets[DaemonSetKey := DaemonSetBody(bridge)])
    ensures e.failure.None? ==> DaemonSetKey in e.store.daemonSets
    ensures e.failure.Some? ==> e.store == s
    ensures e.failure.Some? <==>
              GetObject(DaemonSetKind) in faults || (DaemonSetKey !in s.daemonSets && CreateObject(DaemonSetKind) in faults)
    ensures e.failure.Some? ==> e.failure.value.op in faults && e.failure.value.message == faults[e.failure.value.op]
  {
    var o := EnsureExists(s.daemonSets, DaemonSetKind, DaemonSetKey, DaemonSetBody(bridge), faults);
    Effect(s.(daemonSets := o.objects), o.trace, o.failure)
  }

  /**
   * Deletes the bridge daemon set at its fixed identity; `bridge` plays no
   * part, and a missing daemon set counts as deleted.
   */
  function DeleteBridgeDaemonSet(s: Store, bridge: string, faults: Faults): (e: Effect)
    ensures e.store == s.(daemonSets := e.store.daemonSets)
    ensures forall a :: a in e.trace ==> InClass(a, DaemonSetCalls) && !a.Create?
    ensures Delete(DaemonSetKind, DaemonSetKey) in e.trace <==> GetObject(DaemonSetKind) !in faults && DaemonSetKey in s.daemonSets
    ensures |e.trace| >= 1 && e.trace[0] == Fetch(DaemonSetKind, DaemonSetKey)
    ensures DaemonSetKey !in s.daemonSets ==> e.store == s && NoneIn(e.trace, Deletes)
    ensures e.store.daemonSets == s.daemonSets || e.store.daemonSets == s.daemonSets - {DaemonSetKey}
    ensures e.failure.None? ==> DaemonSetKey !in e.store.daemonSets
    ensures e.failure.Some? ==> e.store == s
    ensures e.failure.Some? <==>
              GetObject(DaemonSetKind) in faults || (DaemonSetKey in s.daemonSets && DeleteObject(DaemonSetKind) in faults)
    ensures e.failure.Some? ==> e.failure.value.op in faults && e.failure.value.message == faults[e.failure.value.op]
  {
    var o := DeleteIfExists(s.daemonSets, DaemonSetKind, DaemonSetKey, faults);
    Effect(s.(daemonSets := o.objects), o.trace, o.failure)
  }

  /** Deletes the attachment definition `namespace/name`; a missing one counts as deleted. */
  function DeleteNad(s: Store, namespace: string, name: string, faults: Faults): (e: Effect)
    ensures e.store == s.(nads := e.store.nads)
    ensures forall a :: a in e.trace ==> InClass(a, NadCalls) && !a.Create?
    ensures Delete(NadKind, ObjectKey(namespace, name)) in e.trace
            <==> GetObject(NadKind) !in faults && ObjectKey(namespace, name) in s.nads
    ensures |e.trace| >= 1 && e.trace[0] == Fetch(NadKind, ObjectKey(namespace, name))
    ensures ObjectKey(namespace, name) !in s.nads ==> e.store == s && NoneIn(e.trace, Deletes)
    ensures e.store.nads == s.nads || e.store.nads == s.nads - {ObjectKey(namespace, name)}
    ensures e.failure.None? ==> ObjectKey(namespace, name) !in e.store.nads
    ensures e.failure.Some? ==> e.store == s
    ensures e.failure.Some? <==>
              GetObject(NadKind) in faults || (ObjectKey(namespace, name) in s.nads && DeleteObject(NadKind) in faults)
    ensures e.failure.Some? ==> e.failure.value.op in faults && e.failure.value.message == faults[e.failure.value.op]
  {
    var o := DeleteIfExists(s.nads, NadKind, ObjectKey(namespace, name), faults);
    Effect(s.(nads := o.objects), o.trace, o.failure)
  }

  /**
   * Lists the virtual machines, then the running instances, and reports
   * every one that uses the network: machines first, as `VM/ns/name`, then
   * instances, as `VMI/ns/name`. A failing list yields only the error.
   */
  function IsNetworkInUse(s: Store, fullName: string, shortName: string, faults: Faults): (u: UsageCheck)
    ensures |u.trace| >= 1 && u.trace[0] == List(VirtualMachines)
    ensures forall a :: a in u.trace ==> a.List?
    ensures u.inUse <==> |u.users| > 0
    ensures u.failure.Some? <==>
              ListWorkloads(VirtualMachines) in faults || ListWorkloads(VirtualMachineInstances) in faults
    ensures u.failure.Some? ==> !u.inUse && u.users == [] && u.failure.value.op in faults
    ensures ListWorkloads(VirtualMachines) in faults ==>
              u.trace == [List(VirtualMachines)] && u.failure.value.op == ListWorkloads(VirtualMachines)
    ensures ListWorkloads(VirtualMachines) !in faults ==>
              u.trace == [List(VirtualMachines), List(VirtualMachineInstances)]
    ensures u.failure.Some? ==> u.failure.value.op.ListWorkloads?
    ensures u.failure.None? ==>
              u.users == Users("VM", s.vms, fullName, shortName) + Users("VMI", s.vmis, fullName, shortName)
  {
    if ListWorkloads(VirtualMachines) in faults then
      UsageCheck([List(VirtualMachines)], false, [], Some(FailureOf(ListWorkloads(VirtualMachines), faults)))
    else if ListWorkloads(VirtualMachineInstances) in faults then
      UsageCheck([List(VirtualMachines), List(VirtualMachineInstances)], false, [],
                 Some(FailureOf(ListWorkloads(VirtualMachineInstances), faults)))
    else
      var users := Users("VM", s.vms, fullName, shortName) + Users("VMI", s.vmis, fullName, shortName);
      UsageCheck([List(VirtualMachines), List(VirtualMachineInstances)], |users| > 0, users, None)
  }

  /** True when some listed machine or instance uses the network named by `spec`. */
  ghost predicate NetworkInUse(s: Store, spec: NetworkSpec) {
    || (exists i :: 0 <= i < |s.vms| && ObjectUsesNetwork(s.vms[i], FullName(spec), spec.nadName))
    || (exists i :: 0 <= i < |s.vmis| && ObjectUsesNetwork(s.vmis[i], FullName(spec), spec.nadName))
  }

  /** The identifiers of the users of the network named by `spec`, machines first. */
  function UsersOf(s: Store, spec: NetworkSpec): seq<UserId> {
    Users("VM", s.vms, FullName(spec), spec.nadName) + Users("VMI", s.vmis, FullName(spec), spec.nadName)
  }

  /** The network is in use exactly when the usage check reports some user. */
  lemma NetworkInUseIffUsers(s: Store, spec: NetworkSpec)
    ensures NetworkInUse(s, spec) <==> UsersOf(s, spec) != []
  {
    UsersMeaning("VM", s.vms, FullName(spec), spec.nadName);
    UsersMeaning("VMI", s.vmis, FullName(spec), spec.nadName);
  }

  /**
   * The usage check reads the pod-template fields of every listed object,
   * instances included. An instance with no template network list and no
   * template annotation, as a standalone instance has, is never reported,
   * so only the machines can block a deletion.
   */
  lemma InstancesWithoutTemplateNeverBlock(s: Store, spec: NetworkSpec)
    requires forall i :: 0 <= i < |s.vmis| ==> s.vmis[i].networks.None? && s.vmis[i].networksAnnotation.None?
    ensures UsersOf(s, spec) == Users("VM", s.vms, FullName(spec), spec.nadName)
  {
    UsersMeaning("VMI", s.vmis, FullName(spec), spec.nadName);
  }

  /**
   * Appends the sentinel finalizer when it is absent and persists the list;
   * does nothing when it is already present.
   */
  function EnsureFinalizer(s: Store, faults: Faults): (e: Effect)
    requires s.network.Some? && !s.network.value.deleting
    ensures forall a :: a in e.trace ==> a.PersistFinalizers?
    ensures e.trace == if ContainsString(s.network.value.finalizers, FinalizerName) then []
                       else [PersistFinalizers(s.network.value.finalizers + [FinalizerName])]
    ensures ContainsString(s.network.value.finalizers, FinalizerName) ==> e == Effect(s, [], None)
    ensures !ContainsString(s.network.value.finalizers, FinalizerName) && UpdateNetwork in faults ==>
              e == Effect(s, [PersistFinalizers(s.network.value.finalizers + [FinalizerName])], Some(FailureOf(UpdateNetwork, faults)))
    ensures e.failure.Some? ==> UpdateNetwork in faults && e.store == s && e.failure == Some(FailureOf(UpdateNetwork, faults))
    ensures e.failure.None? ==>
              && e.store == s.(network := e.store.network)
              && e.store.network.Some?
              && e.store.network.value == s.network.value.(finalizers := e.store.network.value.finalizers)
              && ContainsString(e.store.network.value.finalizers, FinalizerName)
    ensures e.store.network.Some?
    ensures e.store.network.value.finalizers == s.network.value.finalizers
            || (!ContainsString(s.network.value.finalizers, FinalizerName)
                && e.store.network.value.finalizers == s.network.value.finalizers + [FinalizerName])
  {
    var n := s.network.value;
    if ContainsString(n.finalizers, FinalizerName) then Effect(s, [], None)
    else PersistFinalizerList(s, n.finalizers + [FinalizerName], faults)
  }

  /**
   * The second half of the provisioning path, once the attachment definition
   * is in place: ensure the daemon set, then report Ready; an error is
   * written to the status (best effort) and returned.
   */
  function ProvisionDaemonSet(s: Store, faults: Faults): (r: Step)
    requires s.network.Some? && ValidSpec(s.network.value.spec) && !s.network.value.deleting
    ensures r.outcome == Done || r.outcome.Err?
    ensures SameExceptDependents(s, r.store)
    ensures r.store.nads == s.nads
    ensures r.store.daemonSets == s.daemonSets
            || (DaemonSetKey !in s.daemonSets
                && r.store.daemonSets == s.daemonSets[DaemonSetKey := DaemonSetBody(s.network.value.spec.bridgeName)])
    ensures r.outcome.Err? ==>
              && IsObjectOp(r.outcome.failure.op, DaemonSetKind)
              && r.outcome.failure.op in faults && r.outcome.failure.message == faults[r.outcome.failure.op]
              && (UpdateNetworkStatus !in faults ==> HasStatus(r.store, "ErrorEnsuringDaemonSet", r.outcome.failure.message))
    ensures r.outcome == Done ==> DaemonSetKey in r.store.daemonSets
    ensures r.outcome == Done && UpdateNetworkStatus !in faults ==> HasStatus(r.store, "Ready", "Resources created")
  {
    var ds := EnsureBridgeDaemonSet(s, s.network.value.spec.bridgeName, faults);
    if ds.failure.Some? then
      var st := UpdateStatus(ds.store, "ErrorEnsuringDaemonSet", ds.failure.value.message, faults);
      Step(st.store, Err(ds.failure.value), ds.trace + st.trace)
    else
      var st := UpdateStatus(ds.store, "Ready", "Resources created", faults);
      Step(st.store, Done, ds.trace + st.trace)
  }

  /**
   * The dependents of the provisioning path: the attachment definition, then
   * the daemon set. An attachment-definition error is written to the status
   * (best effort) and returned before the daemon set is looked at.
   */
  function ProvisionDependents(s: Store, faults: Faults): (r: Step)
    requires s.network.Some? && ValidSpec(s.network.value.spec) && !s.network.value.deleting
    ensures r.outcome == Done || r.outcome.Err?
    ensures SameExceptDependents(s, r.store)
    ensures r.store.nads == s.nads
            || (NadKey(s.network.value.spec) !in s.nads
                && r.store.nads == s.nads[NadKey(s.network.value.spec) := NadBody(s.network.value.spec.bridgeName)])
    ensures r.store.daemonSets == s.daemonSets
            || (DaemonSetKey !in s.daemonSets
                && r.store.daemonSets == s.daemonSets[DaemonSetKey := DaemonSetBody(s.network.value.spec.bridgeName)])
    ensures r.outcome.Err? && IsObjectOp(r.outcome.failure.op, NadKind) ==>
              UpdateNetworkStatus !in faults ==> HasStatus(r.store, "ErrorEnsuringNAD", r.outcome.failure.message)
    ensures r.outcome.Err? && IsObjectOp(r.outcome.failure.op, DaemonSetKind) ==>
              UpdateNetworkStatus !in faults ==> HasStatus(r.store, "ErrorEnsuringDaemonSet", r.outcome.failure.message)
    ensures r.outcome.Err? ==>
              (IsObjectOp(r.outcome.failure.op, NadKind) || IsObjectOp(r.outcome.failure.op, DaemonSetKind))
              && r.outcome.failure.op in faults && r.outcome.failure.message == faults[r.outcome.failure.op]
    ensures r.outcome == Done ==> NadKey(s.network.value.spec) in r.store.nads && DaemonSetKey in r.store.daemonSets
    ensures r.outcome == Done && UpdateNetworkStatus !in faults ==> HasStatus(r.store, "Ready", "Resources created")
  {
    var spec := s.network.value.spec;
    var nad := EnsureNetworkAttachmentDefinition(s, spec.nadNamespace, spec.nadName, spec.bridgeName, faults);
    if nad.failure.Some? then
      var st := UpdateStatus(nad.store, "ErrorEnsuringNAD", nad.failure.value.message, faults);
      Step(st.store, Err(nad.failure.value), nad.trace + st.trace)
    else
      var rest := ProvisionDaemonSet(nad.store, faults);
      Step(rest.store, rest.outcome, nad.trace + rest.trace)
  }

  /**
   * The provisioning path: persist the sentinel finalizer first (only if
   * absent), then ensure the dependents. A failing finalizer write stops
   * the path before any dependent is touched.
   */
  function Provision(s: Store, faults: Faults): (r: Step)
    requires s.network.Some? && ValidSpec(s.network.value.spec) && !s.network.value.deleting
    ensures !r.outcome.RequeueAfter?
    ensures !ContainsString(s.network.value.finalizers, FinalizerName) && UpdateNetwork in faults ==>
              r == Step(s, Err(FailureOf(UpdateNetwork, faults)), [PersistFinalizers(s.network.value.finalizers + [FinalizerName])])
    ensures r.store.network.Some? && r.store.vms == s.vms && r.store.vmis == s.vmis
    ensures r.store.network.value.spec == s.network.value.spec && !r.store.network.value.deleting
    ensures r.store.network.value.finalizers == s.network.value.finalizers
            || (!ContainsString(s.network.value.finalizers, FinalizerName)
                && r.store.network.value.finalizers == s.network.value.finalizers + [FinalizerName])
    ensures r.outcome == Done ==>
              ContainsString(r.store.network.value.finalizers, FinalizerName)
              && NadKey(s.network.value.spec) in r.store.nads && DaemonSetKey in r.store.daemonSets
  {
    var fin := EnsureFinalizer(s, faults);
    if fin.failure.Some? then
      Step(fin.store, Err(fin.failure.value), fin.trace)
    else
      var deps := ProvisionDependents(fin.store, faults);
      Step(deps.store, deps.outcome, fin.trace + deps.trace)
  }

  /**
   * The last part of teardown, once both dependents are gone: persist the
   * finalizers without the sentinel, then report Deleted. A network left
   * with no finalizer is removed by the store, and the status write then
   * finds nothing.
   */
  function ReleaseFinalizer(s: Store, faults: Faults): (r: Step)
    requires s.network.Some? && s.network.value.deleting
    ensures r.outcome == Done || (UpdateNetwork in faults && r.outcome == Err(FailureOf(UpdateNetwork, faults)))
    ensures r.outcome.Err? ==> r.store == s
    ensures r.store.nads == s.nads && r.store.daemonSets == s.daemonSets
    ensures r.store.vms == s.vms && r.store.vmis == s.vmis
    ensures r.outcome == Done ==>
              && (r.store.network.None? <==> RemoveString(s.network.value.finalizers, FinalizerName) == [])
              && (r.store.network.Some? ==>
                    r.store.network.value.(status := s.network.value.status)
                    == s.network.value.(finalizers := RemoveString(s.network.value.finalizers, FinalizerName)))
    ensures r.outcome == Done && r.store.network.Some? && UpdateNetworkStatus !in faults ==>
              HasStatus(r.store, "Deleted", "Cleaned up resources")
  {
    var fin := PersistFinalizerList(s, RemoveString(s.network.value.finalizers, FinalizerName), faults);
    if fin.failure.Some? then
      Step(fin.store, Err(fin.failure.value), fin.trace)
    else
      var st := UpdateStatus(fin.store, "Deleted", "Cleaned up resources", faults);
      Step(st.store, Done, fin.trace + st.trace)
  }

  /**
   * The second half of teardown, once the daemon set is gone: delete the
   * attachment definition (a missing one counts as deleted), then release
   * the finalizer. A delete error is returned before the finalizer is touched.
   */
  function RemoveNadAndRelease(s: Store, faults: Faults): (r: Step)
    requires s.network.Some? && ValidSpec(s.network.value.spec) && s.network.value.deleting
    ensures r.outcome == Done || r.outcome.Err?
    ensures r.outcome.Err? ==> r.store.network == s.network
    ensures r.outcome.Err? ==> r.outcome.failure.op in faults && r.outcome.failure.message == faults[r.outcome.failure.op]
    ensures r.outcome.Err? ==> IsObjectOp(r.outcome.failure.op, NadKind) || r.outcome.failure.op.UpdateNetwork?
    ensures r.store.vms == s.vms && r.store.vmis == s.vmis && r.store.daemonSets == s.daemonSets
    ensures r.store.nads == s.nads || r.store.nads == s.nads - {NadKey(s.network.value.spec)}
    ensures r.store.network.Some? ==>
              r.store.network.value.(status := s.network.value.status, finalizers := s.network.value.finalizers)
              == s.network.value
    ensures r.store.network.Some? ==>
              r.store.network.value.finalizers == s.network.value.finalizers
              || r.store.network.value.finalizers == RemoveString(s.network.value.finalizers, FinalizerName)
    ensures r.outcome == Done ==>
              && NadKey(s.network.value.spec) !in r.store.nads
              && (r.store.network.None? <==> RemoveString(s.network.value.finalizers, FinalizerName) == [])
              && (r.store.network.Some? ==>
                    r.store.network.value.finalizers == RemoveString(s.network.value.finalizers, FinalizerName))
  {
    var spec := s.network.value.spec;
    var nad := DeleteNad(s, spec.nadNamespace, spec.nadName, faults);
    if nad.failure.Some? then
      Step(nad.store, Err(nad.failure.value), nad.trace)
    else
      var rest := ReleaseFinalizer(nad.store, faults);
      Step(rest.store, rest.outcome, nad.trace + rest.trace)
  }

  /**
   * Teardown of a network nobody uses: delete the daemon set (a missing one
   * counts as deleted), then the attachment definition, then release the
   * finalizer. A delete error is returned before the finalizer is touched.
   */
  function TeardownUnused(s: Store, faults: Faults): (r: Step)
    requires s.network.Some? && ValidSpec(s.network.value.spec) && s.network.value.deleting
    ensures r.outcome == Done || r.outcome.Err?
    ensures r.outcome.Err? ==> r.store.network == s.network
    ensures r.outcome.Err? ==> r.outcome.failure.op in faults && r.outcome.failure.message == faults[r.outcome.failure.op]
    ensures r.outcome.Err? ==>
              || IsObjectOp(r.outcome.failure.op, DaemonSetKind)
              || IsObjectOp(r.outcome.failure.op, NadKind)
              || r.outcome.failure.op.UpdateNetwork?
    ensures r.store.vms == s.vms && r.store.vmis == s.vmis
    ensures r.store.nads == s.nads || r.store.nads == s.nads - {NadKey(s.network.value.spec)}
    ensures r.store.daemonSets == s.daemonSets || r.store.daemonSets == s.daemonSets - {DaemonSetKey}
    ensures r.store.network.Some? ==>
              r.store.network.value.(status := s.network.value.status, finalizers := s.network.value.finalizers)
              == s.network.value
    ensures r.store.network.Some? ==>
              r.store.network.value.finalizers == s.network.value.finalizers
              || r.store.network.value.finalizers == RemoveString(s.network.value.finalizers, FinalizerName)
    ensures r.outcome == Done ==>
              && NadKey(s.network.value.spec) !in r.store.nads
              && DaemonSetKey !in r.store.daemonSets
              && (r.store.network.None? <==> RemoveString(s.network.value.finalizers, FinalizerName) == [])
              && (r.store.network.Some? ==>
                    r.store.network.value.finalizers == RemoveString(s.network.value.finalizers, FinalizerName))
  {
    var ds := DeleteBridgeDaemonSet(s, s.network.value.spec.bridgeName, faults);
    if ds.failure.Some? then
      Step(ds.store, Err(ds.failure.value), ds.trace)
    else
      var rest := RemoveNadAndRelease(ds.store, faults);
      Step(rest.store, rest.outcome, ds.trace + rest.trace)
  }

  /**
   * The teardown path: list the machines and instances; a list error is
   * returned with nothing written. While any of them uses the network the
   * deletion is blocked: only the status changes, and a retry is requested.
   */
  function Teardown(s: Store, faults: Faults): (r: Step)
    requires s.network.Some? && ValidSpec(s.network.value.spec) && s.network.value.deleting
    ensures r.store.vms == s.vms && r.store.vmis == s.vmis
    ensures ListWorkloads(VirtualMachines) in faults || ListWorkloads(VirtualMachineInstances) in faults ==>
              r.store == s && r.outcome.Err? && r.outcome.failure.op.ListWorkloads?
    ensures r.outcome == Done ==>
              && NadKey(s.network.value.spec) !in r.store.nads
              && DaemonSetKey !in r.store.daemonSets
              && (r.store.network.None? <==> RemoveString(s.network.value.finalizers, FinalizerName) == [])
              && (r.store.network.Some? ==>
                    r.store.network.value.finalizers == RemoveString(s.network.value.finalizers, FinalizerName))
  {
    var spec := s.network.value.spec;
    var usage := IsNetworkInUse(s, FullName(spec), spec.nadName, faults);
    if usage.failure.Some? then
      Step(s, Err(usage.failure.value), usage.trace)
    else if usage.inUse then
      var st := UpdateStatus(s, "DeletionBlocked", InUseMessage(usage.users), faults);
      Step(st.store, RequeueAfter(RequeueSeconds), usage.trace + st.trace)
    else
      var rest := TeardownUnused(s, faults);
      Step(rest.store, rest.outcome, usage.trace + rest.trace)
  }

  /**
   * The usage gate of teardown: with users present only the status may
   * change and the reconcile is retried after 30 seconds, the status naming
   * them; teardown completes only when the usage check found no user.
   */
  lemma TeardownDecision(s: Store, faults: Faults)
    requires s.network.Some? && ValidSpec(s.network.value.spec) && s.network.value.deleting
    ensures var r := Teardown(s, faults);
      && (UsersOf(s, s.network.value.spec) != [] ==> SameExceptStatus(s, r.store) && !r.outcome.Done?)
      && (UsersOf(s, s.network.value.spec) != []
          && ListWorkloads(VirtualMachines) !in faults && ListWorkloads(VirtualMachineInstances) !in faults ==>
            && r.outcome == RequeueAfter(RequeueSeconds)
            && (UpdateNetworkStatus !in faults ==>
                  HasStatus(r.store, "DeletionBlocked", InUseMessage(UsersOf(s, s.network.value.spec)))))
      && (r.outcome == RequeueAfter(RequeueSeconds) ==> UsersOf(s, s.network.value.spec) != [])
      && (r.outcome == Done ==> UsersOf(s, s.network.value.spec) == [])
  {
    var spec := s.network.value.spec;
    var usage := IsNetworkInUse(s, FullName(spec), spec.nadName, faults);
    if usage.failure.None? {
      assert usage.users == UsersOf(s, spec);
    }
  }

  /**
   * One reconcile of the named network. A network that cannot be fetched
   * yields the error; one that is gone needs nothing. An incomplete spec is
   * reported and retried before anything else happens, whether or not a
   * deletion was requested; otherwise the request decides between
   * provisioning and teardown.
   */
  function Reconcile(s: Store, faults: Faults): (r: Step)
    ensures |r.trace| >= 1 && r.trace[0] == FetchNetwork
    ensures GetNetwork in faults ==> r == Step(s, Err(FailureOf(GetNetwork, faults)), [FetchNetwork])
    ensures GetNetwork !in faults && s.network.None? ==> r == Step(s, Done, [FetchNetwork])
    // the workloads never change; the network keeps its spec and deletion flag while it exists
    ensures r.store.vms == s.vms && r.store.vmis == s.vmis
    ensures r.store.network.Some? ==>
              s.network.Some? && r.store.network.value.spec == s.network.value.spec
              && r.store.network.value.deleting == s.network.value.deleting
  {
    if GetNetwork in faults then
      Step(s, Err(FailureOf(GetNetwork, faults)), [FetchNetwork])
    else if s.network.None? then
      Step(s, Done, [FetchNetwork])
    else
      var n := s.network.value;
      if !ValidSpec(n.spec) then
        var st := UpdateStatus(s, "InvalidSpec", InvalidSpecReason, faults);
        Step(st.store, RequeueAfter(RequeueSeconds), [FetchNetwork] + st.trace)
      else
        var r := if n.deleting then Teardown(s, faults) else Provision(s, faults);
        Step(r.store, r.outcome, [FetchNetwork] + r.trace)
  }
}
