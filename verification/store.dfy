/**
 * The abstract object store the controller talks to: the managed network
 * resource, the attachment definitions, the daemon sets and the two
 * workload lists, together with the calls the controller issues, a trace
 * of those calls, and injected call failures.
 */
module ClusterStore {
  import opened Wrappers
  import opened Usage

  /** Identity of a namespaced object. */
  datatype ObjectKey = ObjectKey(namespace: string, name: string)

  /** The three spec fields; a field that is missing or not a string reads as "". */
  datatype NetworkSpec = NetworkSpec(bridgeName: string, nadName: string, nadNamespace: string)

  datatype Status = Status(phase: string, reason: string)

  /**
   * The managed DummyClusterNetwork: spec, finalizer list, whether a delete
   * has been requested (deletion timestamp set), and the last written status.
   */
  datatype Network = Network(spec: NetworkSpec, finalizers: seq<string>, deleting: bool, status: Option<Status>)

  /** An attachment definition body; its CNI configuration is derived from the bridge alone. */
  datatype NadBody = NadBody(bridge: string)

  /** The bridge agent daemon set body; its pod template is derived from the bridge alone. */
  datatype DaemonSetBody = DaemonSetBody(bridge: string)

  /** Everything the controller can observe for one reconcile request. */
  datatype Store = Store(
    network: Option<Network>,
    nads: map<ObjectKey, NadBody>,
    daemonSets: map<ObjectKey, DaemonSetBody>,
    vms: seq<Workload>,
    vmis: seq<Workload>)

  /**
   * A user's delete request, as the store applies it: a network holding
   * finalizers is only marked as deleting; one without finalizers is removed.
   */
  function RequestDeletion(s: Store): (s': Store)
    requires s.network.Some?
    ensures s' == s.(network := s'.network)
    ensures s'.network.None? <==> s.network.value.finalizers == []
    ensures s'.network.Some? ==> s'.network.value == s.network.value.(deleting := true)
  {
    var n := s.network.value;
    if n.finalizers == [] then s.(network := None) else s.(network := Some(n.(deleting := true)))
  }

  /** The dependent kinds the controller creates and deletes. */
  datatype Kind = NadKind | DaemonSetKind

  datatype WorkloadKind = VirtualMachines | VirtualMachineInstances

  /** Kinds of store call; a failure is injected per kind of call. */
  datatype Op =
    | GetNetwork
    | UpdateNetwork
    | UpdateNetworkStatus
    | GetObject(kind: Kind)
    | CreateObject(kind: Kind)
    | DeleteObject(kind: Kind)
    | ListWorkloads(workloads: WorkloadKind)

  /** One store call, as recorded in a trace. */
  datatype Action =
    | FetchNetwork
    | PersistFinalizers(finalizers: seq<string>)
    | PersistStatus(status: Status)
    | Fetch(kind: Kind, key: ObjectKey)
    | Create(kind: Kind, key: ObjectKey)
    | Delete(kind: Kind, key: ObjectKey)
    | List(workloads: WorkloadKind)

  /** `op` is a get, create or delete of an object of `kind`. */
  predicate IsObjectOp(op: Op, kind: Kind) {
    (op.GetObject? || op.CreateObject? || op.DeleteObject?) && op.kind == kind
  }

  /**
   * The failure oracle: a call of kind `op` fails with message `faults[op]`
   * when `op in faults` (any error other than "not found").
   */
  type Faults = map<Op, string>

  datatype Failure = Failure(op: Op, message: string)

  const NotFoundMessage := "not found"

  function FailureOf(op: Op, faults: Faults): Failure
    requires op in faults
  {
    Failure(op, faults[op])
  }

  predicate IsWrite(a: Action) {
    a.PersistFinalizers? || a.PersistStatus? || a.Create? || a.Delete?
  }

  /** Classes of store calls that trace properties talk about; one call can be in several. */
  datatype Class = Creates | Deletes | FinalizerWrites | StatusWrites | NadCalls | DaemonSetCalls | DependentCalls | Lists

  predicate InClass(a: Action, c: Class) {
    match c
    case Creates => a.Create?
    case Deletes => a.Delete?
    case FinalizerWrites => a.PersistFinalizers?
    case StatusWrites => a.PersistStatus?
    case NadCalls => (a.Fetch? || a.Create? || a.Delete?) && a.kind == NadKind
    case DaemonSetCalls => (a.Fetch? || a.Create? || a.Delete?) && a.kind == DaemonSetKind
    case DependentCalls => a.Fetch? || a.Create? || a.Delete?
    case Lists => a.List?
  }

  /** No call of the trace is in class `c`. */
  predicate NoneIn(trace: seq<Action>, c: Class) {
    forall i :: 0 <= i < |trace| ==> !InClass(trace[i], c)
  }

  /** Every call in class `first` comes before every call in class `second`. */
  predicate Before(trace: seq<Action>, first: Class, second: Class) {
    forall i, j :: 0 <= i < |trace| && 0 <= j < |trace| && InClass(trace[i], first) && InClass(trace[j], second) ==> i < j
  }

  /** Ordering survives concatenation when no `second` action precedes the join or no `first` follows it. */
  lemma BeforeConcat(a: seq<Action>, b: seq<Action>, first: Class, second: Class)
    requires Before(a, first, second) && Before(b, first, second)
    requires NoneIn(a, second) || NoneIn(b, first)
    ensures Before(a + b, first, second)
  {
    var t := a + b;
    forall i, j | 0 <= i < |t| && 0 <= j < |t| && InClass(t[i], first) && InClass(t[j], second)
      ensures i < j
    {
      if i < |a| && j < |a| {
        assert t[i] == a[i] && t[j] == a[j];
      } else if |a| <= i && |a| <= j {
        assert t[i] == b[i - |a|] && t[j] == b[j - |a|];
      }
    }
  }

  /** `NoneIn` survives concatenation. */
  lemma NoneInConcat(a: seq<Action>, b: seq<Action>, c: Class)
    requires NoneIn(a, c) && NoneIn(b, c)
    ensures NoneIn(a + b, c)
  {
    var t := a + b;
    forall i | 0 <= i < |t|
      ensures !InClass(t[i], c)
    {
      if i < |a| { assert t[i] == a[i]; } else { assert t[i] == b[i - |a|]; }
    }
  }

  /** The writes of a trace, in order. */
  function Writes(trace: seq<Action>): (w: seq<Action>)
    ensures forall a :: a in w <==> a in trace && IsWrite(a)
  {
    if trace == [] then []
    else (if IsWrite(trace[0]) then [trace[0]] else []) + Writes(trace[1..])
  }

  /** Result of one dependent-object call sequence: the kind's objects afterwards, the calls, and a failure if any. */
  datatype ObjectStep<B> = ObjectStep(objects: map<ObjectKey, B>, trace: seq<Action>, failure: Option<Failure>)

  /**
   * Create-once: fetch the object; if it exists leave it as it is (no drift
   * correction); if it is missing, create it from `body`. Only `key` can change.
   */
  function EnsureExists<B>(objects: map<ObjectKey, B>, kind: Kind, key: ObjectKey, body: B, faults: Faults): (r: ObjectStep<B>)
    ensures |r.trace| >= 1 && r.trace[0] == Fetch(kind, key)
    ensures forall a :: a in r.trace ==> a == Fetch(kind, key) || a == Create(kind, key)
    ensures Create(kind, key) in r.trace <==> GetObject(kind) !in faults && key !in objects
    ensures key in objects ==> r.objects == objects && Create(kind, key) !in r.trace
    ensures r.objects == objects || (key !in objects && r.objects == objects[key := body])
    ensures r.failure.None? ==> key in r.objects
    ensures r.failure.Some? ==> r.objects == objects
    ensures r.failure.Some? <==>
              (GetObject(kind) in faults || (key !in objects && CreateObject(kind) in faults))
    ensures r.failure.Some? ==> r.failure.value.op in faults && r.failure.value.message == faults[r.failure.value.op]
  {
    if GetObject(kind) in faults then
      ObjectStep(objects, [Fetch(kind, key)], Some(FailureOf(GetObject(kind), faults)))
    else if key in objects then
      ObjectStep(objects, [Fetch(kind, key)], None)
    else if CreateObject(kind) in faults then
      ObjectStep(objects, [Fetch(kind, key), Create(kind, key)], Some(FailureOf(CreateObject(kind), faults)))
    else
      ObjectStep(objects[key := body], [Fetch(kind, key), Create(kind, key)], None)
  }

  /**
   * Idempotent deletion: fetch the object; a missing object counts as
   * already deleted; otherwise delete it. Only `key` can change.
   */
  function DeleteIfExists<B>(objects: map<ObjectKey, B>, kind: Kind, key: ObjectKey, faults: Faults): (r: ObjectStep<B>)
    ensures |r.trace| >= 1 && r.trace[0] == Fetch(kind, key)
    ensures forall a :: a in r.trace ==> a == Fetch(kind, key) || a == Delete(kind, key)
    ensures Delete(kind, key) in r.trace <==> GetObject(kind) !in faults && key in objects
    ensures key !in objects ==> r.objects == objects && Delete(kind, key) !in r.trace
    ensures r.objects == objects || (key in objects && r.objects == objects - {key})
    ensures r.failure.None? ==> key !in r.objects
    ensures r.failure.Some? ==> r.objects == objects
    ensures r.failure.Some? <==>
              (GetObject(kind) in faults || (key in objects && DeleteObject(kind) in faults))
    ensures r.failure.Some? ==> r.failure.value.op in faults && r.failure.value.message == faults[r.failure.value.op]
  {
    if GetObject(kind) in faults then
      ObjectStep(objects, [Fetch(kind, key)], Some(FailureOf(GetObject(kind), faults)))
    else if key !in objects then
      ObjectStep(objects, [Fetch(kind, key)], None)
    else if DeleteObject(kind) in faults then
      ObjectStep(objects, [Fetch(kind, key), Delete(kind, key)], Some(FailureOf(DeleteObject(kind), faults)))
    else
      ObjectStep(objects - {key}, [Fetch(kind, key), Delete(kind, key)], None)
  }

  /**
   * Ensuring is idempotent: a second ensure after a successful one leaves
   * the objects as they are and issues no create.
   */
  lemma EnsureTwice<B>(objects: map<ObjectKey, B>, kind: Kind, key: ObjectKey, body: B, first: Faults, second: Faults)
    requires EnsureExists(objects, kind, key, body, first).failure.None?
    ensures var once := EnsureExists(objects, kind, key, body, first).objects;
      var twice := EnsureExists(once, kind, key, body, second);
      twice.objects == once && Create(kind, key) !in twice.trace
  {
  }

  /**
   * Delete undoes ensure: ensuring an absent object and then deleting it,
   * both without faults, gives back the original objects.
   */
  lemma EnsureThenDelete<B>(objects: map<ObjectKey, B>, kind: Kind, key: ObjectKey, body: B)
    requires key !in objects
    ensures var created := EnsureExists(objects, kind, key, body, map[]);
      && created.objects == objects[key := body]
      && DeleteIfExists(created.objects, kind, key, map[]).objects == objects
  {
    assert objects[key := body] - {key} == objects;
  }
}
