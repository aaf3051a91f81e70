/**
 * Properties of the reconcile step: the order of its store calls, the
 * invalid-spec and deletion gates, what it may change, and how two
 * consecutive reconciles relate.
 */
module ReconcileProperties {
  import opened Wrappers
  import opened Strings
  import opened Finalizers
  import opened Usage
  import opened ClusterStore
  import opened Reconciler

  /** A status write alone touches no dependent, finalizer or list. */
  lemma StatusWriteCalls(s: Store, phase: string, reason: string, faults: Faults)
    ensures var t := UpdateStatus(s, phase, reason, faults).trace;
      NoneIn(t, Creates) && NoneIn(t, Deletes) && NoneIn(t, FinalizerWrites) && NoneIn(t, DependentCalls)
      && NoneIn(t, NadCalls) && NoneIn(t, DaemonSetCalls) && NoneIn(t, Lists)
  {
  }

  /** The daemon-set half of provisioning issues only daemon-set calls and a status write. */
  lemma {:induction false} ProvisionDaemonSetCalls(s: Store, faults: Faults)
    requires s.network.Some? && ValidSpec(s.network.value.spec) && !s.network.value.deleting
    ensures var t := ProvisionDaemonSet(s, faults).trace;
      && NoneIn(t, Deletes) && NoneIn(t, FinalizerWrites) && NoneIn(t, NadCalls) && NoneIn(t, Lists)
      && (DaemonSetKey in s.daemonSets ==> NoneIn(t, Creates))
  {
    var ds := EnsureBridgeDaemonSet(s, s.network.value.spec.bridgeName, faults);
    var st := if ds.failure.Some? then UpdateStatus(ds.store, "ErrorEnsuringDaemonSet", ds.failure.value.message, faults)
              else UpdateStatus(ds.store, "Ready", "Resources created", faults);
    assert ProvisionDaemonSet(s, faults).trace == ds.trace + st.trace;
    DaemonSetThenStatus(ds.trace, st.trace);
  }

  /** Daemon-set calls that delete nothing, then status writes: no other call is made. */
  lemma DaemonSetThenStatus(ds: seq<Action>, st: seq<Action>)
    requires forall a :: a in ds ==> InClass(a, DaemonSetCalls) && !a.Delete?
    requires forall a :: a in st ==> a.PersistStatus?
    ensures NoneIn(ds + st, Deletes) && NoneIn(ds + st, FinalizerWrites) && NoneIn(ds + st, NadCalls) && NoneIn(ds + st, Lists)
    ensures NoneIn(ds, Creates) ==> NoneIn(ds + st, Creates)
  {
    var t := ds + st;
    forall i | 0 <= i < |t|
      ensures (InClass(t[i], DaemonSetCalls) && !t[i].Delete?) || t[i].PersistStatus?
      ensures NoneIn(ds, Creates) ==> !t[i].Create?
    {
      if i < |ds| {
        assert t[i] == ds[i] && ds[i] in ds;
      } else {
        assert t[i] == st[i - |ds|] && st[i - |ds|] in st;
      }
    }
  }

  /**
   * The dependents half of provisioning: attachment-definition calls come
   * before daemon-set calls, an attachment-definition error stops before any
   * daemon-set call, and existing dependents draw no create.
   */
  lemma {:induction false} ProvisionDependentsCalls(s: Store, faults: Faults)
    requires s.network.Some? && ValidSpec(s.network.value.spec) && !s.network.value.deleting
    ensures var r := ProvisionDependents(s, faults);
      && NoneIn(r.trace, Deletes) && NoneIn(r.trace, FinalizerWrites) && NoneIn(r.trace, Lists)
      && Before(r.trace, NadCalls, DaemonSetCalls)
      && (r.outcome.Err? && IsObjectOp(r.outcome.failure.op, NadKind) ==> NoneIn(r.trace, DaemonSetCalls))
      && (NadKey(s.network.value.spec) in s.nads && DaemonSetKey in s.daemonSets ==> NoneIn(r.trace, Creates))
  {
    var spec := s.network.value.spec;
    var nad := EnsureNetworkAttachmentDefinition(s, spec.nadNamespace, spec.nadName, spec.bridgeName, faults);
    if nad.failure.Some? {
      var st := UpdateStatus(nad.store, "ErrorEnsuringNAD", nad.failure.value.message, faults);
      StatusWriteCalls(nad.store, "ErrorEnsuringNAD", nad.failure.value.message, faults);
      assert ProvisionDependents(s, faults).trace == nad.trace + st.trace;
      NadFirst(nad.trace, st.trace);
    } else {
      var rest := ProvisionDaemonSet(nad.store, faults);
      ProvisionDaemonSetCalls(nad.store, faults);
      assert ProvisionDependents(s, faults).trace == nad.trace + rest.trace;
      NadFirst(nad.trace, rest.trace);
    }
  }

  /**
   * Attachment-definition calls that delete nothing, followed by calls that
   * touch no attachment definition: the attachment-definition calls come first.
   */
  lemma NadFirst(nad: seq<Action>, rest: seq<Action>)
    requires forall a :: a in nad ==> InClass(a, NadCalls) && !a.Delete?
    requires NoneIn(rest, Deletes) && NoneIn(rest, FinalizerWrites) && NoneIn(rest, NadCalls) && NoneIn(rest, Lists)
    ensures NoneIn(nad + rest, Deletes) && NoneIn(nad + rest, FinalizerWrites) && NoneIn(nad + rest, Lists)
    ensures Before(nad + rest, NadCalls, DaemonSetCalls)
    ensures NoneIn(rest, DaemonSetCalls) ==> NoneIn(nad + rest, DaemonSetCalls)
    ensures NoneIn(nad, Creates) && NoneIn(rest, Creates) ==> NoneIn(nad + rest, Creates)
  {
    forall i | 0 <= i < |nad|
      ensures InClass(nad[i], NadCalls) && !nad[i].Delete?
    {
      assert nad[i] in nad;
    }
    NoneInConcat(nad, rest, Deletes);
    NoneInConcat(nad, rest, FinalizerWrites);
    NoneInConcat(nad, rest, Lists);
    BeforeConcat(nad, rest, NadCalls, DaemonSetCalls);
    if NoneIn(rest, DaemonSetCalls) {
      NoneInConcat(nad, rest, DaemonSetCalls);
    }
    if NoneIn(nad, Creates) && NoneIn(rest, Creates) {
      NoneInConcat(nad, rest, Creates);
    }
  }

  /**
   * The provisioning path: the finalizer write comes before any dependent
   * call, nothing is deleted, and a fully provisioned network draws no
   * write besides the status.
   */
  lemma {:induction false} ProvisionCalls(s: Store, faults: Faults)
    requires s.network.Some? && ValidSpec(s.network.value.spec) && !s.network.value.deleting
    ensures var r := Provision(s, faults);
      && NoneIn(r.trace, Deletes) && NoneIn(r.trace, Lists)
      && Before(r.trace, FinalizerWrites, DependentCalls)
      && Before(r.trace, NadCalls, DaemonSetCalls)
      && (r.outcome.Err? && IsObjectOp(r.outcome.failure.op, NadKind) ==> NoneIn(r.trace, DaemonSetCalls))
      && (ContainsString(s.network.value.finalizers, FinalizerName) ==> NoneIn(r.trace, FinalizerWrites))
      && ((ContainsString(s.network.value.finalizers, FinalizerName)
           && NadKey(s.network.value.spec) in s.nads && DaemonSetKey in s.daemonSets) ==> NoneIn(r.trace, Creates))
  {
    var fin := EnsureFinalizer(s, faults);
    FinalizerFirst(fin.trace, []);
    if fin.failure.None? {
      var deps := ProvisionDependents(fin.store, faults);
      ProvisionDependentsCalls(fin.store, faults);
      ProvisionStep(s, faults);
      FinalizerFirst(fin.trace, deps.trace);
    }
  }

  /**
   * Finalizer writes followed by dependent calls: the writes come first and
   * the dependents keep their order.
   */
  lemma FinalizerFirst(fin: seq<Action>, deps: seq<Action>)
    requires forall a :: a in fin ==> a.PersistFinalizers?
    ensures NoneIn(fin, DependentCalls) && NoneIn(fin, NadCalls) && NoneIn(fin, DaemonSetCalls)
    ensures NoneIn(fin, Deletes) && NoneIn(fin, Lists) && NoneIn(fin, Creates)
    ensures NoneIn(deps, Deletes) && NoneIn(deps, Lists) && NoneIn(deps, FinalizerWrites)
            && Before(deps, NadCalls, DaemonSetCalls) ==>
              && NoneIn(fin + deps, Deletes) && NoneIn(fin + deps, Lists)
              && Before(fin + deps, FinalizerWrites, DependentCalls) && Before(fin + deps, NadCalls, DaemonSetCalls)
              && (NoneIn(deps, DaemonSetCalls) ==> NoneIn(fin + deps, DaemonSetCalls))
              && (NoneIn(deps, Creates) ==> NoneIn(fin + deps, Creates))
              && (fin == [] ==> NoneIn(fin + deps, FinalizerWrites))
  {
    forall i | 0 <= i < |fin|
      ensures fin[i].PersistFinalizers?
    {
      assert fin[i] in fin;
    }
    if NoneIn(deps, Deletes) && NoneIn(deps, Lists) && NoneIn(deps, FinalizerWrites)
       && Before(deps, NadCalls, DaemonSetCalls) {
      BeforeConcat(fin, deps, FinalizerWrites, DependentCalls);
      BeforeConcat(fin, deps, NadCalls, DaemonSetCalls);
      NoneInConcat(fin, deps, Deletes);
      NoneInConcat(fin, deps, Lists);
      if NoneIn(deps, DaemonSetCalls) {
        NoneInConcat(fin, deps, DaemonSetCalls);
      }
      if NoneIn(deps, Creates) {
        NoneInConcat(fin, deps, Creates);
      }
      if fin == [] {
        assert fin + deps == deps;
      }
    }
  }

  /** Once the finalizer is in place, provisioning continues with the dependents. */
  lemma ProvisionStep(s: Store, faults: Faults)
    requires s.network.Some? && ValidSpec(s.network.value.spec) && !s.network.value.deleting
    requires EnsureFinalizer(s, faults).failure.None?
    ensures var fin := EnsureFinalizer(s, faults);
      var deps := ProvisionDependents(fin.store, faults);
      Provision(s, faults) == Step(deps.store, deps.outcome, fin.trace + deps.trace)
  {
  }

  /** Releasing the finalizer writes the finalizers and the status, nothing else. */
  lemma ReleaseFinalizerCalls(s: Store, faults: Faults)
    requires s.network.Some? && s.network.value.deleting
    ensures var t := ReleaseFinalizer(s, faults).trace;
      |t| >= 1 && t[0].PersistFinalizers?
      && NoneIn(t, Creates) && NoneIn(t, Deletes) && NoneIn(t, DependentCalls) && NoneIn(t, Lists)
  {
  }

  /**
   * The attachment-definition half of teardown: its calls come before the
   * finalizer write, which is skipped on a delete error.
   */
  lemma {:induction false} RemoveNadAndReleaseCalls(s: Store, faults: Faults)
    requires s.network.Some? && ValidSpec(s.network.value.spec) && s.network.value.deleting
    ensures var r := RemoveNadAndRelease(s, faults);
      && NoneIn(r.trace, Creates) && NoneIn(r.trace, Lists) && NoneIn(r.trace, DaemonSetCalls)
      && Before(r.trace, DependentCalls, FinalizerWrites)
      && (r.outcome.Err? && !r.outcome.failure.op.UpdateNetwork? ==> NoneIn(r.trace, FinalizerWrites))
  {
    var spec := s.network.value.spec;
    var nad := DeleteNad(s, spec.nadNamespace, spec.nadName, faults);
    assert NoneIn(nad.trace, DaemonSetCalls) && NoneIn(nad.trace, FinalizerWrites) && NoneIn(nad.trace, Creates)
      && NoneIn(nad.trace, Lists);
    if nad.failure.None? {
      var rest := ReleaseFinalizer(nad.store, faults);
      ReleaseFinalizerCalls(nad.store, faults);
      assert RemoveNadAndRelease(s, faults).trace == nad.trace + rest.trace;
      BeforeConcat(nad.trace, rest.trace, DependentCalls, FinalizerWrites);
      NoneInConcat(nad.trace, rest.trace, Creates);
      NoneInConcat(nad.trace, rest.trace, Lists);
      NoneInConcat(nad.trace, rest.trace, DaemonSetCalls);
    }
  }

  /**
   * Teardown of an unused network: daemon-set calls come before
   * attachment-definition calls, both come before the finalizer write, and
   * a dependent error is returned before the finalizers are written.
   */
  lemma {:induction false} TeardownUnusedCalls(s: Store, faults: Faults)
    requires s.network.Some? && ValidSpec(s.network.value.spec) && s.network.value.deleting
    ensures var r := TeardownUnused(s, faults);
      && NoneIn(r.trace, Creates) && NoneIn(r.trace, Lists)
      && Before(r.trace, DaemonSetCalls, NadCalls)
      && Before(r.trace, DependentCalls, FinalizerWrites)
      && (r.outcome.Err? && !r.outcome.failure.op.UpdateNetwork? ==> NoneIn(r.trace, FinalizerWrites))
      && (r.outcome.Err? && IsObjectOp(r.outcome.failure.op, DaemonSetKind) ==> NoneIn(r.trace, NadCalls))
  {
    var ds := DeleteBridgeDaemonSet(s, s.network.value.spec.bridgeName, faults);
    DaemonSetDeletesFirst(ds.trace, []);
    if ds.failure.None? {
      var rest := RemoveNadAndRelease(ds.store, faults);
      RemoveNadAndReleaseCalls(ds.store, faults);
      TeardownUnusedStep(s, faults);
      DaemonSetDeletesFirst(ds.trace, rest.trace);
    }
  }

  /**
   * Daemon-set calls that create nothing, followed by calls that touch no
   * daemon set: the daemon-set calls come first and the tail keeps its order.
   */
  lemma DaemonSetDeletesFirst(ds: seq<Action>, rest: seq<Action>)
    requires forall a :: a in ds ==> InClass(a, DaemonSetCalls) && !a.Create?
    ensures NoneIn(ds, NadCalls) && NoneIn(ds, FinalizerWrites) && NoneIn(ds, Creates) && NoneIn(ds, Lists)
    ensures NoneIn(rest, Creates) && NoneIn(rest, Lists) && NoneIn(rest, DaemonSetCalls)
            && Before(rest, DependentCalls, FinalizerWrites) ==>
              && NoneIn(ds + rest, Creates) && NoneIn(ds + rest, Lists)
              && Before(ds + rest, DaemonSetCalls, NadCalls) && Before(ds + rest, DependentCalls, FinalizerWrites)
              && (NoneIn(rest, FinalizerWrites) ==> NoneIn(ds + rest, FinalizerWrites))
  {
    forall i | 0 <= i < |ds|
      ensures InClass(ds[i], DaemonSetCalls) && !ds[i].Create?
    {
      assert ds[i] in ds;
    }
    if NoneIn(rest, Creates) && NoneIn(rest, Lists) && NoneIn(rest, DaemonSetCalls)
       && Before(rest, DependentCalls, FinalizerWrites) {
      BeforeConcat(ds, rest, DaemonSetCalls, NadCalls);
      BeforeConcat(ds, rest, DependentCalls, FinalizerWrites);
      NoneInConcat(ds, rest, Creates);
      NoneInConcat(ds, rest, Lists);
      if NoneIn(rest, FinalizerWrites) {
        NoneInConcat(ds, rest, FinalizerWrites);
      }
    }
  }

  /** Once the daemon set is gone, teardown of an unused network continues with the attachment definition. */
  lemma TeardownUnusedStep(s: Store, faults: Faults)
    requires s.network.Some? && ValidSpec(s.network.value.spec) && s.network.value.deleting
    requires DeleteBridgeDaemonSet(s, s.network.value.spec.bridgeName, faults).failure.None?
    ensures var ds := DeleteBridgeDaemonSet(s, s.network.value.spec.bridgeName, faults);
      var rest := RemoveNadAndRelease(ds.store, faults);
      TeardownUnused(s, faults) == Step(rest.store, rest.outcome, ds.trace + rest.trace)
  {
  }

  /** Once the usage check succeeds, teardown either reports the users or removes the dependents. */
  lemma TeardownStep(s: Store, faults: Faults)
    requires s.network.Some? && ValidSpec(s.network.value.spec) && s.network.value.deleting
    ensures var spec := s.network.value.spec;
      var usage := IsNetworkInUse(s, FullName(spec), spec.nadName, faults);
      var rest := TeardownUnused(s, faults);
      && (usage.failure.None? && usage.inUse ==>
            Teardown(s, faults).trace == usage.trace + [PersistStatus(Status("DeletionBlocked", InUseMessage(usage.users)))])
      && (usage.failure.None? && !usage.inUse ==>
            Teardown(s, faults) == Step(rest.store, rest.outcome, usage.trace + rest.trace))
  {
  }

  /**
   * The teardown path: the workload lists come first, then the daemon set,
   * the attachment definition and the finalizer, in that order.
   */
  lemma {:induction false} TeardownOrder(s: Store, faults: Faults)
    requires s.network.Some? && ValidSpec(s.network.value.spec) && s.network.value.deleting
    ensures var r := Teardown(s, faults);
      && NoneIn(r.trace, Creates)
      && Before(r.trace, Lists, DependentCalls)
      && Before(r.trace, Lists, FinalizerWrites)
      && Before(r.trace, DaemonSetCalls, NadCalls)
      && Before(r.trace, DependentCalls, FinalizerWrites)
  {
    var spec := s.network.value.spec;
    var usage := IsNetworkInUse(s, FullName(spec), spec.nadName, faults);
    var tail: seq<Action> := [];
    if usage.failure.None? {
      if usage.inUse {
        tail := UpdateStatus(s, "DeletionBlocked", InUseMessage(usage.users), faults).trace;
        StatusWriteCalls(s, "DeletionBlocked", InUseMessage(usage.users), faults);
      } else {
        tail := TeardownUnused(s, faults).trace;
        TeardownUnusedCalls(s, faults);
      }
      TeardownStep(s, faults);
    }
    assert Teardown(s, faults).trace == usage.trace + tail;
    ListsThenTail(usage.trace, tail);
  }

  /** Calls after a run of list calls keep their order, and every list call comes first. */
  lemma ListsThenTail(lists: seq<Action>, tail: seq<Action>)
    requires forall a :: a in lists ==> a.List?
    requires NoneIn(tail, Creates) && NoneIn(tail, Lists)
    requires Before(tail, DaemonSetCalls, NadCalls) && Before(tail, DependentCalls, FinalizerWrites)
    ensures NoneIn(lists + tail, Creates)
    ensures Before(lists + tail, Lists, DependentCalls) && Before(lists + tail, Lists, FinalizerWrites)
    ensures Before(lists + tail, DaemonSetCalls, NadCalls) && Before(lists + tail, DependentCalls, FinalizerWrites)
  {
    forall i | 0 <= i < |lists|
      ensures lists[i].List?
    {
      assert lists[i] in lists;
    }
    assert NoneIn(lists, Creates) && NoneIn(lists, DependentCalls) && NoneIn(lists, FinalizerWrites);
    assert NoneIn(lists, DaemonSetCalls) && NoneIn(lists, NadCalls);
    NoneInConcat(lists, tail, Creates);
    BeforeConcat(lists, tail, Lists, DependentCalls);
    BeforeConcat(lists, tail, Lists, FinalizerWrites);
    BeforeConcat(lists, tail, DaemonSetCalls, NadCalls);
    BeforeConcat(lists, tail, DependentCalls, FinalizerWrites);
  }

  /**
   * The safety gate in call terms, list errors: a failing list draws no
   * status write, no dependent call and no finalizer write.
   */
  lemma TeardownListErrorCalls(s: Store, faults: Faults)
    requires s.network.Some? && ValidSpec(s.network.value.spec) && s.network.value.deleting
    requires ListWorkloads(VirtualMachines) in faults || ListWorkloads(VirtualMachineInstances) in faults
    ensures var t := Teardown(s, faults).trace;
      NoneIn(t, StatusWrites) && NoneIn(t, DependentCalls) && NoneIn(t, FinalizerWrites)
  {
    var t := Teardown(s, faults).trace;
    if ListWorkloads(VirtualMachines) in faults {
      assert t == [List(VirtualMachines)];
    } else {
      assert t == [List(VirtualMachines), List(VirtualMachineInstances)];
    }
  }

  /**
   * The safety gate in call terms, blocked deletion: while the usage check
   * reports users, teardown draws no dependent call and no finalizer write.
   */
  lemma TeardownBlockedCalls(s: Store, faults: Faults)
    requires s.network.Some? && ValidSpec(s.network.value.spec) && s.network.value.deleting
    requires UsersOf(s, s.network.value.spec) != []
    ensures var t := Teardown(s, faults).trace;
      NoneIn(t, DependentCalls) && NoneIn(t, FinalizerWrites) && NoneIn(t, Deletes)
  {
    var spec := s.network.value.spec;
    var usage := IsNetworkInUse(s, FullName(spec), spec.nadName, faults);
    assert NoneIn(usage.trace, DependentCalls) && NoneIn(usage.trace, FinalizerWrites) && NoneIn(usage.trace, Deletes);
    if usage.failure.None? {
      var st := UpdateStatus(s, "DeletionBlocked", InUseMessage(usage.users), faults);
      StatusWriteCalls(s, "DeletionBlocked", InUseMessage(usage.users), faults);
      assert Teardown(s, faults).trace == usage.trace + st.trace;
      NoneInConcat(usage.trace, st.trace, DependentCalls);
      NoneInConcat(usage.trace, st.trace, FinalizerWrites);
      NoneInConcat(usage.trace, st.trace, Deletes);
    } else {
      assert Teardown(s, faults).trace == usage.trace;
    }
  }

  /** A reconcile of a deleted network with a valid spec is the fetch followed by teardown. */
  lemma ReconcileTeardownStep(s: Store, faults: Faults)
    requires GetNetwork !in faults && s.network.Some? && ValidSpec(s.network.value.spec) && s.network.value.deleting
    ensures var td := Teardown(s, faults);
      Reconcile(s, faults) == Step(td.store, td.outcome, [FetchNetwork] + td.trace)
  {
  }

  /** A reconcile of a live network with a valid spec is the fetch followed by provisioning. */
  lemma ReconcileProvisionStep(s: Store, faults: Faults)
    requires GetNetwork !in faults && s.network.Some? && ValidSpec(s.network.value.spec) && !s.network.value.deleting
    ensures var p := Provision(s, faults);
      Reconcile(s, faults) == Step(p.store, p.outcome, [FetchNetwork] + p.trace)
  {
  }

  /** Putting the network fetch in front of a trace keeps its classes and their order. */
  lemma AfterFetch(t: seq<Action>, first: Class, second: Class)
    ensures NoneIn(t, first) ==> NoneIn([FetchNetwork] + t, first)
    ensures Before(t, first, second) ==> Before([FetchNetwork] + t, first, second)
  {
    assert NoneIn([FetchNetwork], first) && NoneIn([FetchNetwork], second);
    if NoneIn(t, first) {
      NoneInConcat([FetchNetwork], t, first);
    }
    if Before(t, first, second) {
      BeforeConcat([FetchNetwork], t, first, second);
    }
  }

  /** A network that is gone is left alone: the outcome is Done and nothing is written. */
  lemma NotFoundWritesNothing(s: Store, faults: Faults)
    requires GetNetwork !in faults && s.network.None?
    ensures var r := Reconcile(s, faults);
      r.outcome == Done && r.store == s && Writes(r.trace) == []
  {
    assert Writes([FetchNetwork]) == [];
  }

  /**
   * An incomplete spec is reported and retried after 30 seconds; no
   * finalizer, dependent or list call is made, and nothing but the status
   * changes, whether or not a deletion was requested.
   */
  lemma InvalidSpecShortCircuits(s: Store, faults: Faults)
    requires GetNetwork !in faults && s.network.Some? && !ValidSpec(s.network.value.spec)
    ensures var r := Reconcile(s, faults);
      && r.outcome == RequeueAfter(30)
      && SameExceptStatus(s, r.store)
      && NoneIn(r.trace, FinalizerWrites) && NoneIn(r.trace, DependentCalls) && NoneIn(r.trace, Lists)
      && (UpdateNetworkStatus !in faults ==> HasStatus(r.store, "InvalidSpec", InvalidSpecReason))
  {
    var st := UpdateStatus(s, "InvalidSpec", InvalidSpecReason, faults);
    assert Reconcile(s, faults).trace == [FetchNetwork] + st.trace;
  }

  /**
   * The deletion gate: while a machine or instance uses the network, a
   * reconcile of the deleted network neither deletes nor writes finalizers;
   * only the status may change, and the outcome is never Done.
   */
  lemma DeletionGate(s: Store, faults: Faults)
    requires s.network.Some? && s.network.value.deleting && NetworkInUse(s, s.network.value.spec)
    ensures var r := Reconcile(s, faults);
      && SameExceptStatus(s, r.store)
      && !r.outcome.Done?
      && NoneIn(r.trace, Deletes) && NoneIn(r.trace, FinalizerWrites) && NoneIn(r.trace, DependentCalls)
  {
    NetworkInUseIffUsers(s, s.network.value.spec);
    var r := Reconcile(s, faults);
    if GetNetwork in faults {
    } else if !ValidSpec(s.network.value.spec) {
      InvalidSpecShortCircuits(s, faults);
      assert r.trace == [FetchNetwork, PersistStatus(Status("InvalidSpec", InvalidSpecReason))];
    } else {
      var td := Teardown(s, faults);
      TeardownBlockedCalls(s, faults);
      ReconcileTeardownStep(s, faults);
      AfterFetch(td.trace, DependentCalls, DependentCalls);
      AfterFetch(td.trace, FinalizerWrites, FinalizerWrites);
      assert NoneIn(td.trace, Deletes);
      AfterFetch(td.trace, Deletes, Deletes);
    }
  }

  /**
   * The blocked deletion as reported: the reconcile is retried after 30
   * seconds and the status names every machine (`VM/ns/name`) and running
   * instance (`VMI/ns/name`) that uses the network, machines first.
   */
  lemma BlockedDeletionReport(s: Store, faults: Faults)
    requires GetNetwork !in faults && s.network.Some? && s.network.value.deleting && ValidSpec(s.network.value.spec)
    requires ListWorkloads(VirtualMachines) !in faults && ListWorkloads(VirtualMachineInstances) !in faults
    requires NetworkInUse(s, s.network.value.spec)
    ensures var r := Reconcile(s, faults);
      var spec := s.network.value.spec;
      var users := UsersOf(s, spec);
      && r.outcome == RequeueAfter(RequeueSeconds)
      && |users| >= 1
      && (UpdateNetworkStatus !in faults ==> HasStatus(r.store, "DeletionBlocked", InUseMessage(users)))
      && (forall i :: 0 <= i < |s.vms| && ObjectUsesNetwork(s.vms[i], FullName(spec), spec.nadName) ==>
            Identifier("VM", s.vms[i]) in users)
      && (forall i :: 0 <= i < |s.vmis| && ObjectUsesNetwork(s.vmis[i], FullName(spec), spec.nadName) ==>
            Identifier("VMI", s.vmis[i]) in users)
  {
    var spec := s.network.value.spec;
    NetworkInUseIffUsers(s, spec);
    UsersMeaning("VM", s.vms, FullName(spec), spec.nadName);
    UsersMeaning("VMI", s.vmis, FullName(spec), spec.nadName);
    var u := IsNetworkInUse(s, FullName(spec), spec.nadName, faults);
    assert u.users == UsersOf(s, spec);
    assert Reconcile(s, faults).outcome == Teardown(s, faults).outcome;
  }

  /**
   * A reconcile of a live network deletes nothing, persists the sentinel
   * finalizer before touching any dependent, and ensures the attachment
   * definition before the daemon set.
   */
  lemma ProvisioningOrder(s: Store, faults: Faults)
    requires s.network.Some? && !s.network.value.deleting
    ensures var r := Reconcile(s, faults);
      && NoneIn(r.trace, Deletes)
      && Before(r.trace, FinalizerWrites, DependentCalls)
      && Before(r.trace, NadCalls, DaemonSetCalls)
  {
    if GetNetwork !in faults && ValidSpec(s.network.value.spec) {
      var p := Provision(s, faults);
      ProvisionCalls(s, faults);
      ReconcileProvisionStep(s, faults);
      AfterFetch(p.trace, Deletes, Deletes);
      AfterFetch(p.trace, FinalizerWrites, DependentCalls);
      AfterFetch(p.trace, NadCalls, DaemonSetCalls);
    }
  }

  /**
   * The outcomes of provisioning a live network with a valid spec: a failing
   * finalizer write is returned before any dependent is touched and changes
   * nothing; an attachment-definition error is reported as ErrorEnsuringNAD
   * without any daemon-set call; a daemon-set error as ErrorEnsuringDaemonSet;
   * success as Ready.
   */
  lemma ProvisioningOutcomes(s: Store, faults: Faults)
    requires GetNetwork !in faults && s.network.Some? && !s.network.value.deleting && ValidSpec(s.network.value.spec)
    ensures var r := Reconcile(s, faults);
      && (!ContainsString(s.network.value.finalizers, FinalizerName) && UpdateNetwork in faults ==>
            r.outcome == Err(FailureOf(UpdateNetwork, faults)) && r.store == s && NoneIn(r.trace, DependentCalls))
      && (r.outcome.Err? && IsObjectOp(r.outcome.failure.op, NadKind) ==>
            && NoneIn(r.trace, DaemonSetCalls)
            && r.store.daemonSets == s.daemonSets
            && (UpdateNetworkStatus !in faults ==> HasStatus(r.store, "ErrorEnsuringNAD", r.outcome.failure.message)))
      && (r.outcome.Err? && IsObjectOp(r.outcome.failure.op, DaemonSetKind) && UpdateNetworkStatus !in faults ==>
            HasStatus(r.store, "ErrorEnsuringDaemonSet", r.outcome.failure.message))
      && (r.outcome == Done && UpdateNetworkStatus !in faults ==> HasStatus(r.store, "Ready", "Resources created"))
  {
    var p := Provision(s, faults);
    ReconcileProvisionStep(s, faults);
    ProvisionCalls(s, faults);
    ProvisionOutcomes(s, faults);
    AfterFetch(p.trace, DaemonSetCalls, DaemonSetCalls);
    if !ContainsString(s.network.value.finalizers, FinalizerName) && UpdateNetwork in faults {
      assert NoneIn(p.trace, DependentCalls);
      AfterFetch(p.trace, DependentCalls, DependentCalls);
    }
  }

  /** The status each outcome of the provisioning path leaves behind. */
  lemma ProvisionOutcomes(s: Store, faults: Faults)
    requires s.network.Some? && !s.network.value.deleting && ValidSpec(s.network.value.spec)
    ensures var r := Provision(s, faults);
      && (r.outcome.Err? && IsObjectOp(r.outcome.failure.op, NadKind) ==>
            && r.store.daemonSets == s.daemonSets
            && (UpdateNetworkStatus !in faults ==> HasStatus(r.store, "ErrorEnsuringNAD", r.outcome.failure.message)))
      && (r.outcome.Err? && IsObjectOp(r.outcome.failure.op, DaemonSetKind) && UpdateNetworkStatus !in faults ==>
            HasStatus(r.store, "ErrorEnsuringDaemonSet", r.outcome.failure.message))
      && (r.outcome == Done && UpdateNetworkStatus !in faults ==> HasStatus(r.store, "Ready", "Resources created"))
  {
    var p := Provision(s, faults);
    var fin := EnsureFinalizer(s, faults);
    if fin.failure.None? {
      var deps := ProvisionDependents(fin.store, faults);
      assert p.store == deps.store && p.outcome == deps.outcome;
      if p.outcome.Err? && IsObjectOp(p.outcome.failure.op, NadKind) {
        var spec := s.network.value.spec;
        var nad := EnsureNetworkAttachmentDefinition(fin.store, spec.nadNamespace, spec.nadName, spec.bridgeName, faults);
        assert nad.failure.Some?;
        assert deps.store.daemonSets == fin.store.daemonSets;
      }
    }
  }

  /**
   * A reconcile of a deleted network creates nothing, lists the workloads
   * before touching any dependent, deletes the daemon set before the
   * attachment definition, and both before writing the finalizers.
   */
  lemma TeardownOrderInReconcile(s: Store, faults: Faults)
    requires s.network.Some? && s.network.value.deleting
    ensures var r := Reconcile(s, faults);
      && NoneIn(r.trace, Creates)
      && Before(r.trace, Lists, DependentCalls)
      && Before(r.trace, DaemonSetCalls, NadCalls)
      && Before(r.trace, DependentCalls, FinalizerWrites)
  {
    if GetNetwork !in faults && ValidSpec(s.network.value.spec) {
      var td := Teardown(s, faults);
      TeardownOrder(s, faults);
      ReconcileTeardownStep(s, faults);
      FetchKeepsTeardownOrder(td.trace);
    }
  }

  /** The teardown order survives putting the network fetch in front. */
  lemma FetchKeepsTeardownOrder(t: seq<Action>)
    requires NoneIn(t, Creates) && Before(t, Lists, DependentCalls)
    requires Before(t, DaemonSetCalls, NadCalls) && Before(t, DependentCalls, FinalizerWrites)
    ensures var r := [FetchNetwork] + t;
      NoneIn(r, Creates) && Before(r, Lists, DependentCalls)
      && Before(r, DaemonSetCalls, NadCalls) && Before(r, DependentCalls, FinalizerWrites)
  {
    AfterFetch(t, Creates, Creates);
    AfterFetch(t, Lists, DependentCalls);
    AfterFetch(t, DaemonSetCalls, NadCalls);
    AfterFetch(t, DependentCalls, FinalizerWrites);
  }

  /**
   * A live network only gains: existing attachment definitions and daemon
   * sets are kept unchanged, and the only new ones are at the network's
   * attachment-definition key and the fixed daemon-set key.
   */
  lemma LiveNetworkOnlyGains(s: Store, faults: Faults)
    requires s.network.Some? && !s.network.value.deleting
    ensures var r := Reconcile(s, faults);
      && r.store.network.Some?
      && (forall k :: k in s.nads ==> k in r.store.nads && r.store.nads[k] == s.nads[k])
      && (forall k :: k in s.daemonSets ==> k in r.store.daemonSets && r.store.daemonSets[k] == s.daemonSets[k])
      && r.store.nads.Keys <= s.nads.Keys + {NadKey(s.network.value.spec)}
      && r.store.daemonSets.Keys <= s.daemonSets.Keys + {DaemonSetKey}
  {
    var r := Reconcile(s, faults);
    if GetNetwork !in faults && ValidSpec(s.network.value.spec) {
      var p := Provision(s, faults);
      ProvisionAddsOnlyDependents(s, faults);
      ReconcileProvisionStep(s, faults);
      GainsAtMostKey(s.nads, r.store.nads, NadKey(s.network.value.spec), NadBody(s.network.value.spec.bridgeName));
      GainsAtMostKey(s.daemonSets, r.store.daemonSets, DaemonSetKey, DaemonSetBody(s.network.value.spec.bridgeName));
    } else {
      assert r.store.nads == s.nads && r.store.daemonSets == s.daemonSets;
    }
  }

  /**
   * Provisioning touches the dependents only by adding the network's
   * attachment definition or the daemon set where they are missing.
   */
  lemma ProvisionAddsOnlyDependents(s: Store, faults: Faults)
    requires s.network.Some? && ValidSpec(s.network.value.spec) && !s.network.value.deleting
    ensures var r := Provision(s, faults);
      var spec := s.network.value.spec;
      && (r.store.nads == s.nads || (NadKey(spec) !in s.nads && r.store.nads == s.nads[NadKey(spec) := NadBody(spec.bridgeName)]))
      && (r.store.daemonSets == s.daemonSets
          || (DaemonSetKey !in s.daemonSets && r.store.daemonSets == s.daemonSets[DaemonSetKey := DaemonSetBody(spec.bridgeName)]))
  {
    var fin := EnsureFinalizer(s, faults);
    if fin.failure.None? {
      assert fin.store.nads == s.nads && fin.store.daemonSets == s.daemonSets;
      assert Provision(s, faults).store == ProvisionDependents(fin.store, faults).store;
    }
  }

  /** A map that is kept, or gains one new key, keeps every old entry and has no other new key. */
  lemma GainsAtMostKey<B>(m: map<ObjectKey, B>, m': map<ObjectKey, B>, key: ObjectKey, v: B)
    requires m' == m || (key !in m && m' == m[key := v])
    ensures forall k :: k in m ==> k in m' && m'[k] == m[k]
    ensures m'.Keys <= m.Keys + {key}
  {
  }

  /** A map that is kept, or loses one key, keeps every remaining entry. */
  lemma LosesAtMostKey<B>(m: map<ObjectKey, B>, m': map<ObjectKey, B>, key: ObjectKey)
    requires m' == m || m' == m - {key}
    ensures m'.Keys <= m.Keys && m.Keys - m'.Keys <= {key}
    ensures forall k :: k in m' ==> m'[k] == m[k]
  {
  }

  /**
   * A deleted network only loses: nothing is created or replaced, and the
   * only objects that can go are its attachment definition and the daemon set.
   */
  lemma DeletedNetworkOnlyLoses(s: Store, faults: Faults)
    requires s.network.Some? && s.network.value.deleting
    ensures var r := Reconcile(s, faults);
      && r.store.nads.Keys <= s.nads.Keys && r.store.daemonSets.Keys <= s.daemonSets.Keys
      && s.nads.Keys - r.store.nads.Keys <= {NadKey(s.network.value.spec)}
      && s.daemonSets.Keys - r.store.daemonSets.Keys <= {DaemonSetKey}
      && (forall k :: k in r.store.nads ==> r.store.nads[k] == s.nads[k])
      && (forall k :: k in r.store.daemonSets ==> r.store.daemonSets[k] == s.daemonSets[k])
  {
    var r := Reconcile(s, faults);
    if GetNetwork !in faults && ValidSpec(s.network.value.spec) {
      var td := Teardown(s, faults);
      ReconcileTeardownStep(s, faults);
      TeardownKeepsOthers(s, faults);
      LosesAtMostKey(s.nads, r.store.nads, NadKey(s.network.value.spec));
      LosesAtMostKey(s.daemonSets, r.store.daemonSets, DaemonSetKey);
    } else {
      assert r.store.nads == s.nads && r.store.daemonSets == s.daemonSets;
    }
  }

  /** Teardown removes at most the network's attachment definition and the daemon set. */
  lemma TeardownKeepsOthers(s: Store, faults: Faults)
    requires s.network.Some? && ValidSpec(s.network.value.spec) && s.network.value.deleting
    ensures var r := Teardown(s, faults);
      && (r.store.nads == s.nads || r.store.nads == s.nads - {NadKey(s.network.value.spec)})
      && (r.store.daemonSets == s.daemonSets || r.store.daemonSets == s.daemonSets - {DaemonSetKey})
  {
    var spec := s.network.value.spec;
    var usage := IsNetworkInUse(s, FullName(spec), spec.nadName, faults);
    if usage.failure.None? && !usage.inUse {
      assert Teardown(s, faults).store == TeardownUnused(s, faults).store;
    }
  }

  /**
   * The sentinel finalizer is never duplicated: a reconcile adds it only
   * when it is absent, and otherwise keeps or removes its occurrences.
   */
  lemma FinalizerNeverDuplicated(s: Store, faults: Faults)
    requires s.network.Some?
    ensures var r := Reconcile(s, faults);
      r.store.network.Some? ==>
        var before := Count(s.network.value.finalizers, FinalizerName);
        var after := Count(r.store.network.value.finalizers, FinalizerName);
        after <= before || (before == 0 && after == 1)
  {
    var n := s.network.value;
    var r := Reconcile(s, faults);
    if r.store.network.Some? {
      ReconcileFinalizers(s, faults);
      CountConcat(n.finalizers, [FinalizerName], FinalizerName);
      assert !ContainsString(RemoveString(n.finalizers, FinalizerName), FinalizerName);
    }
  }

  /**
   * A reconcile leaves the finalizer list as it was, appends the absent
   * sentinel, or removes the sentinel.
   */
  lemma ReconcileFinalizers(s: Store, faults: Faults)
    requires s.network.Some?
    ensures var r := Reconcile(s, faults);
      var before := s.network.value.finalizers;
      r.store.network.Some? ==>
        || r.store.network.value.finalizers == before
        || (!ContainsString(before, FinalizerName) && r.store.network.value.finalizers == before + [FinalizerName])
        || r.store.network.value.finalizers == RemoveString(before, FinalizerName)
  {
    var n := s.network.value;
    if GetNetwork !in faults && ValidSpec(n.spec) && n.deleting {
      TeardownFinalizers(s, faults);
      ReconcileTeardownStep(s, faults);
    }
  }

  /** Teardown leaves the finalizer list as it was or removes the sentinel. */
  lemma TeardownFinalizers(s: Store, faults: Faults)
    requires s.network.Some? && ValidSpec(s.network.value.spec) && s.network.value.deleting
    ensures var r := Teardown(s, faults);
      r.store.network.Some? ==>
        || r.store.network.value.finalizers == s.network.value.finalizers
        || r.store.network.value.finalizers == RemoveString(s.network.value.finalizers, FinalizerName)
  {
    var spec := s.network.value.spec;
    var usage := IsNetworkInUse(s, FullName(spec), spec.nadName, faults);
    if usage.failure.None? && !usage.inUse {
      assert Teardown(s, faults).store == TeardownUnused(s, faults).store;
    }
  }

  /**
   * Create-once across reconciles: after a reconcile that provisioned a live
   * network successfully, the next reconcile (whatever fails in it) issues
   * no create and no finalizer write.
   */
  lemma SecondReconcileCreatesNothing(s: Store, first: Faults, second: Faults)
    requires s.network.Some? && !s.network.value.deleting
    requires Reconcile(s, first).outcome == Done
    ensures var r := Reconcile(Reconcile(s, first).store, second);
      NoneIn(r.trace, Creates) && NoneIn(r.trace, FinalizerWrites)
  {
    var s1 := Reconcile(s, first).store;
    assert GetNetwork !in first && ValidSpec(s.network.value.spec);
    assert s1 == Provision(s, first).store;
    var n1 := s1.network.value;
    assert n1.spec == s.network.value.spec && !n1.deleting;
    if GetNetwork !in second {
      var p := Provision(s1, second);
      ProvisionCalls(s1, second);
      ReconcileProvisionStep(s1, second);
      AfterFetch(p.trace, Creates, Creates);
      AfterFetch(p.trace, FinalizerWrites, FinalizerWrites);
    }
  }

  /**
   * A fault-free successful provisioning reaches a fixed point: reconciling
   * again changes nothing and succeeds again.
   */
  lemma ProvisioningIsFixedPoint(s: Store)
    requires s.network.Some? && !s.network.value.deleting
    requires Reconcile(s, map[]).outcome == Done
    ensures var s1 := Reconcile(s, map[]).store;
      Reconcile(s1, map[]) == Step(s1, Done, Reconcile(s1, map[]).trace)
  {
    var s1 := Reconcile(s, map[]).store;
    assert s1 == Provision(s, map[]).store;
    assert HasStatus(s1, "Ready", "Resources created");
    var n1 := s1.network.value;
    assert ValidSpec(n1.spec) && !n1.deleting;
    var fin := EnsureFinalizer(s1, map[]);
    assert fin.store == s1;
    var nad := EnsureNetworkAttachmentDefinition(s1, n1.spec.nadNamespace, n1.spec.nadName, n1.spec.bridgeName, map[]);
    assert nad.store == s1;
    var ds := EnsureBridgeDaemonSet(s1, n1.spec.bridgeName, map[]);
    assert ds.store == s1;
    var st := UpdateStatus(s1, "Ready", "Resources created", map[]);
    assert st.store == s1;
  }

  /** Without faults, the attachment-definition half of teardown succeeds and reports Deleted. */
  lemma FaultFreeRelease(s: Store)
    requires s.network.Some? && ValidSpec(s.network.value.spec) && s.network.value.deleting
    ensures var r := RemoveNadAndRelease(s, map[]);
      && r.outcome == Done
      && r.store.nads == s.nads - {NadKey(s.network.value.spec)}
      && (r.store.network.Some? ==> HasStatus(r.store, "Deleted", "Cleaned up resources"))
  {
    var spec := s.network.value.spec;
    var nad := DeleteNad(s, spec.nadNamespace, spec.nadName, map[]);
    assert nad.failure.None?;
    var rel := ReleaseFinalizer(nad.store, map[]);
    assert RemoveNadAndRelease(s, map[]).store == rel.store;
    assert nad.store.nads == s.nads - {NadKey(spec)};
  }

  /** Without faults, teardown of an unused network succeeds and removes exactly the two dependents. */
  lemma FaultFreeTeardownUnused(s: Store)
    requires s.network.Some? && ValidSpec(s.network.value.spec) && s.network.value.deleting
    ensures var r := TeardownUnused(s, map[]);
      && r.outcome == Done
      && r.store.nads == s.nads - {NadKey(s.network.value.spec)}
      && r.store.daemonSets == s.daemonSets - {DaemonSetKey}
      && (r.store.network.Some? ==> HasStatus(r.store, "Deleted", "Cleaned up resources"))
  {
    var ds := DeleteBridgeDaemonSet(s, s.network.value.spec.bridgeName, map[]);
    assert ds.failure.None?;
    assert ds.store.daemonSets == s.daemonSets - {DaemonSetKey};
    FaultFreeRelease(ds.store);
    assert TeardownUnused(s, map[]).store == RemoveNadAndRelease(ds.store, map[]).store;
  }

  /**
   * Deletion liveness: once nothing uses the network, a fault-free reconcile
   * of the deleted network removes the daemon set and the attachment
   * definition and releases the sentinel finalizer, keeping the others in order.
   */
  lemma TeardownLiveness(s: Store)
    requires s.network.Some? && s.network.value.deleting && ValidSpec(s.network.value.spec)
    requires !NetworkInUse(s, s.network.value.spec)
    ensures var r := Reconcile(s, map[]);
      && r.outcome == Done
      && r.store.nads == s.nads - {NadKey(s.network.value.spec)}
      && r.store.daemonSets == s.daemonSets - {DaemonSetKey}
      && (r.store.network.None? <==> RemoveString(s.network.value.finalizers, FinalizerName) == [])
      && (r.store.network.Some? ==>
            && r.store.network.value.finalizers == RemoveString(s.network.value.finalizers, FinalizerName)
            && !ContainsString(r.store.network.value.finalizers, FinalizerName)
            && HasStatus(r.store, "Deleted", "Cleaned up resources"))
  {
    var spec := s.network.value.spec;
    NetworkInUseIffUsers(s, spec);
    var usage := IsNetworkInUse(s, FullName(spec), spec.nadName, map[]);
    assert !usage.inUse && usage.failure.None?;
    var td := TeardownUnused(s, map[]);
    FaultFreeTeardownUnused(s);
    assert Reconcile(s, map[]).store == td.store && Reconcile(s, map[]).outcome == td.outcome;
  }

  /**
   * Fault-free provisioning of a network that has no dependents yet: the
   * sentinel finalizer is appended and exactly the two dependents are added.
   */
  lemma FreshProvisioning(s: Store)
    requires s.network.Some? && !s.network.value.deleting && ValidSpec(s.network.value.spec)
    requires !ContainsString(s.network.value.finalizers, FinalizerName)
    requires NadKey(s.network.value.spec) !in s.nads && DaemonSetKey !in s.daemonSets
    ensures var r := Reconcile(s, map[]);
      && r.outcome == Done
      && r.store.nads == s.nads[NadKey(s.network.value.spec) := NadBody(s.network.value.spec.bridgeName)]
      && r.store.daemonSets == s.daemonSets[DaemonSetKey := DaemonSetBody(s.network.value.spec.bridgeName)]
      && r.store.vms == s.vms && r.store.vmis == s.vmis
      && r.store.network.Some?
      && r.store.network.value.spec == s.network.value.spec && !r.store.network.value.deleting
      && r.store.network.value.finalizers == s.network.value.finalizers + [FinalizerName]
  {
    var spec := s.network.value.spec;
    var fin := EnsureFinalizer(s, map[]);
    assert fin.store.nads == s.nads && fin.store.daemonSets == s.daemonSets;
    var nad := EnsureNetworkAttachmentDefinition(fin.store, spec.nadNamespace, spec.nadName, spec.bridgeName, map[]);
    var ds := EnsureBridgeDaemonSet(nad.store, spec.bridgeName, map[]);
    var deps := ProvisionDependents(fin.store, map[]);
    assert deps.outcome == Done;
    assert Reconcile(s, map[]).store == deps.store;
  }

  /** Fault-free teardown of a freshly provisioned network whose deletion was requested. */
  lemma TeardownAfterProvisioning(s: Store, s2: Store)
    requires s.network.Some? && ValidSpec(s.network.value.spec)
    requires NadKey(s.network.value.spec) !in s.nads && DaemonSetKey !in s.daemonSets
    requires !NetworkInUse(s, s.network.value.spec)
    requires s2.network.Some? && s2.network.value.spec == s.network.value.spec && s2.network.value.deleting
    requires s2.network.value.finalizers == s.network.value.finalizers + [FinalizerName]
    requires !ContainsString(s.network.value.finalizers, FinalizerName)
    requires s2.vms == s.vms && s2.vmis == s.vmis
    requires s2.nads == s.nads[NadKey(s.network.value.spec) := NadBody(s.network.value.spec.bridgeName)]
    requires s2.daemonSets == s.daemonSets[DaemonSetKey := DaemonSetBody(s.network.value.spec.bridgeName)]
    ensures var r := Reconcile(s2, map[]);
      && r.outcome == Done
      && r.store.nads == s.nads && r.store.daemonSets == s.daemonSets
      && (r.store.network.None? <==> s.network.value.finalizers == [])
      && (r.store.network.Some? ==> r.store.network.value.finalizers == s.network.value.finalizers)
  {
    var spec := s.network.value.spec;
    assert !NetworkInUse(s2, spec);
    TeardownLiveness(s2);
    AppendThenRemove(s.network.value.finalizers, FinalizerName);
    RemoveInserted(s.nads, NadKey(spec), NadBody(spec.bridgeName));
    RemoveInserted(s.daemonSets, DaemonSetKey, DaemonSetBody(spec.bridgeName));
  }

  /** Removing a key that was just inserted into a map without it gives the map back. */
  lemma RemoveInserted<B>(m: map<ObjectKey, B>, key: ObjectKey, v: B)
    requires key !in m
    ensures m[key := v] - {key} == m
  {
  }

  /**
   * Provisioning followed by a fault-free teardown is a round trip: the
   * network's own finalizers come back as they were (or the network is gone
   * when it had none), and dependents that did not exist before are gone again.
   */
  lemma ProvisionThenTeardown(s: Store)
    requires s.network.Some? && !s.network.value.deleting && ValidSpec(s.network.value.spec)
    requires !ContainsString(s.network.value.finalizers, FinalizerName)
    requires NadKey(s.network.value.spec) !in s.nads && DaemonSetKey !in s.daemonSets
    requires !NetworkInUse(s, s.network.value.spec)
    ensures var s1 := Reconcile(s, map[]).store;
      && Reconcile(s, map[]).outcome == Done
      && var s2 := RequestDeletion(s1);
      && s2.network.Some?
      && var r := Reconcile(s2, map[]);
      && r.outcome == Done
      && r.store.nads == s.nads && r.store.daemonSets == s.daemonSets
      && (r.store.network.None? <==> s.network.value.finalizers == [])
      && (r.store.network.Some? ==> r.store.network.value.finalizers == s.network.value.finalizers)
  {
    FreshProvisioning(s);
    var s1 := Reconcile(s, map[]).store;
    TeardownAfterProvisioning(s, RequestDeletion(s1));
  }

  /** The daemon set's identity is fixed: deleting it does not depend on the bridge name. */
  lemma DaemonSetIdentityIgnoresBridge(s: Store, bridge: string, other: string, faults: Faults)
    ensures DeleteBridgeDaemonSet(s, bridge, faults) == DeleteBridgeDaemonSet(s, other, faults)
    ensures EnsureBridgeDaemonSet(s, bridge, faults).trace == EnsureBridgeDaemonSet(s, other, faults).trace
  {
  }

  /**
   * The DeletionBlocked message can be read back: its count is the number
   * of users, and splitting its list on commas gives the users in order.
   */
  lemma InUseMessageDecodes(users: seq<UserId>)
    requires |users| >= 1
    requires forall i :: 0 <= i < |users| ==> ',' !in Render(users[i])
    ensures var prefix := "Network in use by ";
      var count := NatToString(|users|);
      var message := InUseMessage(users);
      && message[..|prefix|] == prefix
      && message[|prefix|..|prefix| + |count|] == count
      && ParseDigits(count) == |users|
      && Split(message[|prefix| + |count| + |" objects: "|..], ',') == RenderAll(users)
  {
    var count := NatToString(|users|);
    var texts := RenderAll(users);
    FourPartSlices("Network in use by ", count, " objects: ", Join(texts, ","));
    ParseNatToString(|users|);
    SplitJoin(texts, ',');
  }

  /** The first, second and last of four concatenated strings can be sliced back out. */
  lemma FourPartSlices(a: string, b: string, c: string, d: string)
    ensures (a + b + c + d)[..|a|] == a
    ensures (a + b + c + d)[|a|..|a| + |b|] == b
    ensures (a + b + c + d)[|a| + |b| + |c|..] == d
  {
    var m := a + b + c + d;
    assert m == a + (b + (c + d));
    assert m[..|a|] == a;
    assert m[|a|..] == b + (c + d);
  }

  /** The daemon-set half of provisioning does not depend on whether status writes fail. */
  lemma ProvisionDaemonSetIgnoresStatusFaults(s: Store, faults: Faults)
    requires s.network.Some? && ValidSpec(s.network.value.spec) && !s.network.value.deleting
    ensures var a := ProvisionDaemonSet(s, faults);
      var b := ProvisionDaemonSet(s, faults - {UpdateNetworkStatus});
      a.outcome == b.outcome && a.trace == b.trace
  {
    var bridge := s.network.value.spec.bridgeName;
    assert EnsureBridgeDaemonSet(s, bridge, faults) == EnsureBridgeDaemonSet(s, bridge, faults - {UpdateNetworkStatus});
  }

  /** The dependents of provisioning do not depend on whether status writes fail. */
  lemma ProvisionDependentsIgnoresStatusFaults(s: Store, faults: Faults)
    requires s.network.Some? && ValidSpec(s.network.value.spec) && !s.network.value.deleting
    ensures var a := ProvisionDependents(s, faults);
      var b := ProvisionDependents(s, faults - {UpdateNetworkStatus});
      a.outcome == b.outcome && a.trace == b.trace
  {
    var spec := s.network.value.spec;
    var nad := EnsureNetworkAttachmentDefinition(s, spec.nadNamespace, spec.nadName, spec.bridgeName, faults);
    assert nad == EnsureNetworkAttachmentDefinition(s, spec.nadNamespace, spec.nadName, spec.bridgeName, faults - {UpdateNetworkStatus});
    if nad.failure.None? {
      ProvisionDaemonSetIgnoresStatusFaults(nad.store, faults);
    }
  }

  /**
   * Status writes are best effort: whether they fail never changes what a
   * provisioning reconcile returns or which calls it makes.
   */
  lemma ProvisionIgnoresStatusFaults(s: Store, faults: Faults)
    requires s.network.Some? && ValidSpec(s.network.value.spec) && !s.network.value.deleting
    ensures var a := Provision(s, faults);
      var b := Provision(s, faults - {UpdateNetworkStatus});
      a.outcome == b.outcome && a.trace == b.trace
  {
    var fin := EnsureFinalizer(s, faults);
    assert fin == EnsureFinalizer(s, faults - {UpdateNetworkStatus});
    if fin.failure.None? {
      ProvisionDependentsIgnoresStatusFaults(fin.store, faults);
    }
  }

  /** Releasing the finalizer does not depend on whether status writes fail. */
  lemma ReleaseFinalizerIgnoresStatusFaults(s: Store, faults: Faults)
    requires s.network.Some? && s.network.value.deleting
    ensures var a := ReleaseFinalizer(s, faults);
      var b := ReleaseFinalizer(s, faults - {UpdateNetworkStatus});
      a.outcome == b.outcome && a.trace == b.trace
  {
    var fs := RemoveString(s.network.value.finalizers, FinalizerName);
    assert PersistFinalizerList(s, fs, faults) == PersistFinalizerList(s, fs, faults - {UpdateNetworkStatus});
  }

  /** Deleting the attachment definition and releasing does not depend on whether status writes fail. */
  lemma RemoveNadAndReleaseIgnoresStatusFaults(s: Store, faults: Faults)
    requires s.network.Some? && ValidSpec(s.network.value.spec) && s.network.value.deleting
    ensures var a := RemoveNadAndRelease(s, faults);
      var b := RemoveNadAndRelease(s, faults - {UpdateNetworkStatus});
      a.outcome == b.outcome && a.trace == b.trace
  {
    var spec := s.network.value.spec;
    var nad := DeleteNad(s, spec.nadNamespace, spec.nadName, faults);
    assert nad == DeleteNad(s, spec.nadNamespace, spec.nadName, faults - {UpdateNetworkStatus});
    if nad.failure.None? {
      ReleaseFinalizerIgnoresStatusFaults(nad.store, faults);
    }
  }

  /** Teardown of an unused network does not depend on whether status writes fail. */
  lemma TeardownUnusedIgnoresStatusFaults(s: Store, faults: Faults)
    requires s.network.Some? && ValidSpec(s.network.value.spec) && s.network.value.deleting
    ensures var a := TeardownUnused(s, faults);
      var b := TeardownUnused(s, faults - {UpdateNetworkStatus});
      a.outcome == b.outcome && a.trace == b.trace
  {
    var ds := DeleteBridgeDaemonSet(s, s.network.value.spec.bridgeName, faults);
    assert ds == DeleteBridgeDaemonSet(s, s.network.value.spec.bridgeName, faults - {UpdateNetworkStatus});
    if ds.failure.None? {
      RemoveNadAndReleaseIgnoresStatusFaults(ds.store, faults);
    }
  }

  /**
   * Whether a status write fails never changes what a teardown reconcile
   * returns or which calls it makes.
   */
  lemma TeardownIgnoresStatusFaults(s: Store, faults: Faults)
    requires s.network.Some? && ValidSpec(s.network.value.spec) && s.network.value.deleting
    ensures var a := Teardown(s, faults);
      var b := Teardown(s, faults - {UpdateNetworkStatus});
      a.outcome == b.outcome && a.trace == b.trace
  {
    var spec := s.network.value.spec;
    var usage := IsNetworkInUse(s, FullName(spec), spec.nadName, faults);
    assert usage == IsNetworkInUse(s, FullName(spec), spec.nadName, faults - {UpdateNetworkStatus});
    if usage.failure.None? && !usage.inUse {
      TeardownUnusedIgnoresStatusFaults(s, faults);
    }
  }

  /**
   * Every status-write error is discarded: a reconcile whose status writes
   * fail returns the same outcome and issues the same calls, in the same
   * order, as one whose status writes succeed.
   */
  lemma StatusFaultsIgnored(s: Store, faults: Faults)
    ensures Reconcile(s, faults).outcome == Reconcile(s, faults - {UpdateNetworkStatus}).outcome
    ensures Reconcile(s, faults).trace == Reconcile(s, faults - {UpdateNetworkStatus}).trace
  {
    if GetNetwork !in faults && s.network.Some? && ValidSpec(s.network.value.spec) {
      if s.network.value.deleting {
        TeardownIgnoresStatusFaults(s, faults);
      } else {
        ProvisionIgnoresStatusFaults(s, faults);
      }
    }
  }
}
