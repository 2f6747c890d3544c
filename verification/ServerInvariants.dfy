/** What a GameServer's status can say: in every reachable state, and after a pass that went through. */
module ServerInvariants {
  import opened Prelude
  import opened Conditions
  import opened GameTypes
  import opened Admission
  import opened Config
  import opened Services
  import opened Address
  import opened Stores
  import opened ServerViews
  import opened GameServers
  import opened GameServerReconcilers
  import opened ServerStatuses
  import opened ServerFixpoints
  import PodEnv

  const EMPTY_SERVER_STATUS := ServerStatus(NoServerPhase, "", 0, 0, 0, [])

  /** One entry per condition type, and a Ready phase is backed by the conditions. */
  predicate Honest(st: ServerStatus) {
    && DistinctKinds(st.conditions)
    && (st.phase == PhaseReady ==> Holds(st.conditions, READY) && Holds(st.conditions, TEMPLATE_RESOLVED))
  }

  ghost predicate AllHonest(st: Store) {
    forall k :: k in st.servers ==> Honest(st.servers[k].status)
  }

  lemma MarkKeepsKinds(gs: GameServer, st: ServerStatus, kind: string, s: ConditionStatus, reason: string,
                       message: string, now: int, other: string)
    requires DistinctKinds(st.conditions)
    ensures var after := Mark(gs, st, kind, s, reason, message, now);
            && after == st.(conditions := after.conditions)
            && DistinctKinds(after.conditions)
            && (Holds(after.conditions, kind) <==> s == ConditionTrue)
            && (other != kind ==> (Holds(after.conditions, other) <==> Holds(st.conditions, other)))
  {
    PutRefinesMapUpdate(st.conditions, Change(kind, s, reason, message, now, gs.generation), other);
  }

  lemma ValidIsHonest(gs: GameServer, now: int)
    requires Honest(gs.status)
    ensures var st := Resolved(gs, now);
            && Honest(st) && Holds(st.conditions, TEMPLATE_RESOLVED) && st.phase == gs.status.phase
    ensures var st := Valid(gs, now);
            && Honest(st) && Holds(st.conditions, TEMPLATE_RESOLVED) && st.phase == gs.status.phase
  {
    hide Mark, DistinctKinds, Holds;
    MarkKeepsKinds(gs, gs.status, TEMPLATE_RESOLVED, ConditionTrue, "Resolved", "GameTemplate resolved", now, READY);
    var st := Resolved(gs, now);
    MarkKeepsKinds(gs, st, CONFIG_VALID, ConditionTrue, "Valid", "config satisfies template", now, READY);
    MarkKeepsKinds(gs, st, CONFIG_VALID, ConditionTrue, "Valid", "config satisfies template", now, TEMPLATE_RESOLVED);
  }

  lemma RestorableIsHonest(gs: GameServer, now: int)
    requires Honest(gs.status)
    ensures var st := Restorable(gs, now);
            && Honest(st) && Holds(st.conditions, TEMPLATE_RESOLVED) && st.phase == gs.status.phase
  {
    hide Mark, DistinctKinds, Holds, Valid;
    ValidIsHonest(gs, now);
    var st := Valid(gs, now);
    MarkKeepsKinds(gs, st, RESTORE_RESOLVED, ConditionTrue, "SnapshotBound", "restoreFrom Backup snapshot ready", now,
        READY);
    MarkKeepsKinds(gs, st, RESTORE_RESOLVED, ConditionTrue, "SnapshotBound", "restoreFrom Backup snapshot ready", now,
        TEMPLATE_RESOLVED);
  }

  lemma TemplateMissingIsHonest(gs: GameServer, now: int)
    requires Honest(gs.status)
    ensures Honest(TemplateMissing(gs, now))
  {
    hide Mark, DistinctKinds, Holds;
    MarkKeepsKinds(gs, gs.status, TEMPLATE_RESOLVED, ConditionFalse, "NotFound", gs.spec.template, now, READY);
  }

  lemma InvalidIsHonest(gs: GameServer, e: ConfigError, now: int)
    requires Honest(gs.status)
    ensures Honest(Invalid(gs, e, now))
  {
    hide Mark, DistinctKinds, Holds, Resolved, Describe;
    ValidIsHonest(gs, now);
    MarkKeepsKinds(gs, Resolved(gs, now), CONFIG_VALID, ConditionFalse, "Invalid", Describe(e), now, READY);
  }

  lemma UnavailableIsHonest(gs: GameServer, why: string, now: int)
    requires Honest(gs.status)
    ensures Honest(Unavailable(gs, why, now))
  {
    hide Mark, DistinctKinds, Holds, Valid;
    ValidIsHonest(gs, now);
    MarkKeepsKinds(gs, Valid(gs, now), RESTORE_RESOLVED, ConditionFalse, "Unavailable", why, now, READY);
  }

  /** A bad size leaves phase and address as they were, so a server can stay Ready with an invalid configuration. */
  lemma BadStorageKeepsPhase(gs: GameServer, size: string, now: int)
    requires Honest(gs.status)
    ensures var st := BadStorage(gs, size, now);
            && Honest(st) && !Holds(st.conditions, CONFIG_VALID)
            && st.phase == gs.status.phase && st.address == gs.status.address
  {
    hide Mark, DistinctKinds, Holds, Restorable;
    RestorableIsHonest(gs, now);
    MarkKeepsKinds(gs, Restorable(gs, now), CONFIG_VALID, ConditionFalse, "InvalidStorage", size, now, READY);
    MarkKeepsKinds(gs, Restorable(gs, now), CONFIG_VALID, ConditionFalse, "InvalidStorage", size, now,
        TEMPLATE_RESOLVED);
    OnlyConditions(gs, now);
  }

  lemma OnlyConditions(gs: GameServer, now: int)
    ensures Restorable(gs, now).address == gs.status.address
  {
  }

  lemma FinishedIsHonest(k: Key, gs: GameServer, tpl: GameTemplate, replicas: int, applied: seq<NamedService>, now: int)
    requires Honest(gs.status)
    ensures var st := Finished(k, gs, tpl, replicas, applied, now);
            && Honest(st)
            && (st.phase == PhaseReady <==> !gs.spec.suspend && replicas >= 1)
            && (Holds(st.conditions, READY) <==> st.phase == PhaseReady)
  {
    hide Mark, DistinctKinds, Holds, Restorable, AddressOf;
    RestorableIsHonest(gs, now);
    var st0 := Restorable(gs, now).(readyReplicas := replicas, observedGeneration := gs.generation,
                                    templateGeneration := tpl.generation,
                                    address := AddressOf(k.ns, k.name, gs.spec.exposeOverride, tpl.spec.ports,
                                        applied));
    var (s, reason, message) := Verdict(gs, replicas);
    MarkKeepsKinds(gs, st0, READY, s, reason, message, now, TEMPLATE_RESOLVED);
  }

  // ---------------------------------------------------------------------------------------------
  // Every reachable state
  // ---------------------------------------------------------------------------------------------

  predicate ViewHonest(v: View) {
    v.server.Some? ==> Honest(v.server.value.status)
  }

  lemma ChildrenKeepHonest(k: Key, gs: GameServer, tpl: GameTemplate, source: Source, v: View, a: Answers)
    requires v.server == Some(gs) && Honest(gs.status)
    ensures ViewHonest(ReconcileChildren(k, gs, tpl, source, v, a))
  {
    hide Honest, Finished, BuildPVC, BuildDeployment, DesiredServices, ApplyServices, AppliedServices, AppliedClaim,
        AppliedDeployment;
    var claimed := ApplyClaim(v, BuildPVC(k.name, gs, tpl, source), a);
    var deployed := ApplyDeployment(claimed.view, BuildDeployment(k.name, gs, tpl), a);
    var desired := DesiredServices(k, gs, tpl);
    ServicesKeepTheRest(deployed.view, desired, a);
    var served := ApplyServices(deployed.view, desired, a).view;
    if served.deployment.Some? {
      FinishedIsHonest(k, gs, tpl, served.deployment.value.readyReplicas, AppliedServices(served, desired), a.now);
    }
  }

  lemma ViewStaysHonest(sx: Syntax, k: Key, i: Inputs, v: View, a: Answers, err: Option<ConfigError>)
    requires ViewHonest(v)
    ensures ViewHonest(ReconcileView(sx, k, i, v, a, err))
  {
    hide Honest, RestoreSource, TemplateMissing, Invalid, Unavailable, BadStorage, ReconcileChildren;
    if v.server.Some? {
      var gs := v.server.value;
      TemplateMissingIsHonest(gs, a.now);
      if err.Some? {
        InvalidIsHonest(gs, err.value, a.now);
      }
      if i.template.Some? {
        var tpl := i.template.value;
        BadStorageKeepsPhase(gs, ClaimSize(gs, tpl), a.now);
        var source := RestoreSource(gs, v.claim, i.backup, a);
        if source.NoSuch? {
          UnavailableIsHonest(gs, source.why, a.now);
        }
        ChildrenKeepHonest(k, gs, tpl, source, EnsureAccount(v, tpl, a).view, a);
      }
    }
  }

  lemma ReconcileKeepsHonest(sx: Syntax, st: Store, k: Key, a: Answers, err: Option<ConfigError>)
    requires AllHonest(st)
    ensures AllHonest(ReconcileServer(sx, st, k, a, err))
  {
    hide Honest, ReconcileView;
    ViewStaysHonest(sx, k, InputsOf(st, k), Project(st, k), a, err);
    var after := ReconcileServer(sx, st, k, a, err);
    forall x | x in after.servers
      ensures Honest(after.servers[x].status)
    {
      assert x != k ==> Get(after.servers, x) == Get(st.servers, x);
    }
  }

  ghost predicate Reconciles(sx: Syntax, st: Store, st': Store, k: Key, a: Answers, err: Option<ConfigError>) {
    st' == ReconcileServer(sx, st, k, a, err)
  }

  /** One step of a run: a reconcile, or anything else that leaves the servers' status alone (users editing, suspending
      or deleting servers, pods turning ready, children deleted); new servers start with an empty status. */
  ghost predicate HonestStep(sx: Syntax, st: Store, st': Store) {
    || (exists k, a, err :: Reconciles(sx, st, st', k, a, err))
    || (forall k :: k in st'.servers ==>
          st'.servers[k].status == if k in st.servers then st.servers[k].status else EMPTY_SERVER_STATUS)
  }

  /** In every reachable state, with any calls failing, phase Ready implies Ready=True and TemplateResolved=True. */
  lemma {:induction false} ReadyPhaseImpliesConditions(sx: Syntax, run: seq<Store>)
    requires |run| > 0 && run[0].servers == map[]
    requires forall i :: 0 <= i < |run| - 1 ==> HonestStep(sx, run[i], run[i + 1])
    ensures AllHonest(run[|run| - 1])
  {
    hide ReconcileServer, Honest;
    var n := |run| - 1;
    if n > 0 {
      ReadyPhaseImpliesConditions(sx, run[..n]);
      var before, after := run[n - 1], run[n];
      assert HonestStep(sx, before, after);
      if k, a, err :| Reconciles(sx, before, after, k, a, err) {
        ReconcileKeepsHonest(sx, before, k, a, err);
      } else {
        EmptyStatusIsHonest();
      }
    }
  }

  lemma EmptyStatusIsHonest()
    ensures Honest(EMPTY_SERVER_STATUS)
  {
  }

  // ---------------------------------------------------------------------------------------------
  // The published address
  // ---------------------------------------------------------------------------------------------

  /** The pass gets past claim building. */
  predicate Builds(sx: Syntax, i: Inputs, v: View, a: Answers, err: Option<ConfigError>) {
    && v.server.Some? && i.template.Some? && err.None?
    && !RestoreSource(v.server.value, v.claim, i.backup, a).NoSuch?
    && sx.isQuantity(ClaimSize(v.server.value, i.template.value))
  }

  lemma BuiltPass(sx: Syntax, k: Key, i: Inputs, v: View, a: Answers, err: Option<ConfigError>)
    requires FaultFree(a) && Builds(sx, i, v, a, err) && Distinct(PortNames(i.template.value.spec.ports))
    ensures var gs, tpl := v.server.value, i.template.value;
            ChildrenBuilt(k, gs, tpl, RestoreSource(gs, v.claim, i.backup, a), EnsureAccount(v, tpl, a).view,
                          ReconcileView(sx, k, i, v, a, err), a)
  {
    hide RestoreSource, ReconcileChildren, ChildrenBuilt, PortNames;
    var gs, tpl := v.server.value, i.template.value;
    EnsuredStays(v, gs.status, tpl, a, a);
    PassBuildsChildren(k, gs, tpl, RestoreSource(gs, v.claim, i.backup, a), EnsureAccount(v, tpl, a).view, a);
  }

  /** The pieces of a server fit together: its Services and its Deployment select its own pods and no other server
      selects them, the pods mount the server's claim and run under an account that exists, and a claim created now has
      a size that parses. */
  ghost predicate PartsFit(sx: Syntax, k: Key, gs: GameServer, tpl: GameTemplate, before: View, after: View) {
    && after.claim.Some? && after.deployment.Some?
    && var d := after.deployment.value.spec;
       && d.claim == ClaimKey(k).name
       && Selects(d.selector, d.podLabels)
       && (forall e :: e in ExposuresUsed(gs.spec.exposeOverride, tpl.spec.ports) ==>
             after.services.At(e).Some? && after.services.At(e).value.kind == e
             && Selects(after.services.At(e).value.selector, d.podLabels))
       && (forall other :: other != k.name ==> !Selects(SelectorLabels(other), d.podLabels))
       && (d.replicas == 0 <==> gs.spec.suspend)
       && (!tpl.spec.anyUID ==> after.account.Some? && d.serviceAccount == AccountKey(k).name)
       && (before.claim.None? ==> sx.isQuantity(after.claim.value.size))
  }

  lemma BuiltPartsFit(sx: Syntax, k: Key, i: Inputs, v: View, a: Answers, err: Option<ConfigError>)
    requires FaultFree(a) && Builds(sx, i, v, a, err) && Distinct(PortNames(i.template.value.spec.ports))
    ensures PartsFit(sx, k, v.server.value, i.template.value, v, ReconcileView(sx, k, i, v, a, err))
  {
    hide ReconcileView, RestoreSource, ExposuresUsed, Group, PortNames, Finished, Selects, SelectorLabels, BaseLabels,
        PVCName,
      ClaimSize, PodEnv.ResolvedEnv, FaultFree;
    var gs, tpl := v.server.value, i.template.value;
    var after := ReconcileView(sx, k, i, v, a, err);
    BuiltPass(sx, k, i, v, a, err);
    AccountThere(v, tpl, a);
    var before := EnsureAccount(v, tpl, a).view;
    forall other
      ensures Selects(SelectorLabels(other), BaseLabels(k.name, gs.spec.template)) <==> other == k.name
    {
      SelectorsSeparateServers(other, k.name, gs.spec.template);
    }
    forall e | e in ExposuresUsed(gs.spec.exposeOverride, tpl.spec.ports)
      ensures after.services.At(e).Some? && after.services.At(e).value.kind == e
      ensures after.services.At(e).value.selector == SelectorLabels(k.name)
    {
      StoredFor(k, gs, tpl, before.services, after, a, e);
    }
  }

  lemma AccountThere(v: View, tpl: GameTemplate, a: Answers)
    requires FaultFree(a)
    ensures var after := EnsureAccount(v, tpl, a).view;
            after.claim == v.claim && (!tpl.spec.anyUID ==> after.account.Some?)
  {
  }

  lemma StoredFor(k: Key, gs: GameServer, tpl: GameTemplate, before: Exposed, after: View, a: Answers, e: Exposure)
    requires ServicesApplied(before, after.services, DesiredServices(k, gs, tpl), a)
    requires e in ExposuresUsed(gs.spec.exposeOverride, tpl.spec.ports)
    ensures after.services.At(e).Some? && after.services.At(e).value.kind == e
    ensures after.services.At(e).value.selector == SelectorLabels(k.name)
  {
    hide ExposuresUsed, Group, AssignedPorts, MergedPorts, BaseLabels, SelectorLabels;
    var used := ExposuresUsed(gs.spec.exposeOverride, tpl.spec.ports);
    var i :| 0 <= i < |used| && used[i] == e;
    assert DesiredServices(k, gs, tpl)[i].service.kind == e;
  }

  lemma AppliedAreStored(before: Exposed, after: View, desired: seq<NamedService>, a: Answers)
    requires FaultFree(a) && ServicesApplied(before, after.services, desired, a)
    ensures Stored(AppliedServices(after, desired), desired)
  {
    hide Applied;
    var services := AppliedServices(after, desired);
    forall i | 0 <= i < |services|
      ensures services[i].name == desired[i].name && StoredAs(services[i].service, desired[i].service)
    {
      var e := desired[i].service.kind;
      var stored := Applied(a.alloc(e), before.At(e), desired[i].service);
      assert services[i].service == stored.(ingress := stored.ingress);
    }
  }

  /** After a pass that gets past claim building, over a template the webhook admits, the published address is the one
      to reach the stored Service carrying the chosen port under its effective exposure, on the port stored there. */
  lemma AddressReachesTheStoredService(sx: Syntax, k: Key, i: Inputs, v: View, a: Answers, err: Option<ConfigError>,
                                       n: nat, e: Exposure, pin: int)
    requires FaultFree(a) && Builds(sx, i, v, a, err) && Errors(i.template.value.spec) == []
    requires var ports := i.template.value.spec.ports;
             && (forall m :: 0 <= m < |ports| ==> ports[m].containerPort > 0)
             && ChosenPort(ports, n) && Effective(v.server.value.spec.exposeOverride, ports[n], e, pin)
    requires PinsInRange(v.server.value.spec.exposeOverride)
    ensures var after := ReconcileView(sx, k, i, v, a, err);
            && after.server.Some? && after.services.At(e).Some?
            && exists m :: Reaches(after.server.value.status.address,
                                   NamedService(ServiceName(k.name, e), after.services.At(e).value), m, k.ns, k.name, e,
                                   i.template.value.spec.ports[n])
  {
    hide ReconcileView, Errors, RestoreSource, Effective, FaultFree, PinsInRange, BuildDeployment, BuildPVC,
      AppliedServices, Stored, ServicesFor, AddressOf, EnsureAccount, Restorable, ServiceName;
    var gs, tpl := v.server.value, i.template.value;
    var ports, overrides := tpl.spec.ports, gs.spec.exposeOverride;
    AdmittedPortsDiffer(tpl.spec);
    BuiltPass(sx, k, i, v, a, err);
    var after := ReconcileView(sx, k, i, v, a, err);
    var desired := DesiredServices(k, gs, tpl);
    var services := AppliedServices(after, desired);
    AppliedAreStored(EnsureAccount(v, tpl, a).view.services, after, desired, a);
    PrimaryAddressIsConsistent(k.ns, k.name, gs.spec.template, overrides, ports, services, n, e, pin);
    FinishedAddress(k, gs, tpl, after.deployment.value.readyReplicas, services, a.now);
    var s, m :| 0 <= s < |services|
      && Reaches(AddressOf(k.ns, k.name, overrides, ports, services), services[s], m, k.ns, k.name, e, ports[n]);
    NamesAreSpelled(k.name, e);
    StoredInItsSlot(k, gs, tpl, EnsureAccount(v, tpl, a).view.services, after, a, s);
  }

  lemma FinishedAddress(k: Key, gs: GameServer, tpl: GameTemplate, replicas: int, applied: seq<NamedService>, now: int)
    ensures Finished(k, gs, tpl, replicas, applied, now).address
            == AddressOf(k.ns, k.name, gs.spec.exposeOverride, tpl.spec.ports, applied)
  {
    hide AddressOf;
  }

  lemma StoredInItsSlot(k: Key, gs: GameServer, tpl: GameTemplate, before: Exposed, after: View, a: Answers, s: nat)
    requires var desired := DesiredServices(k, gs, tpl);
             s < |desired| && ServicesApplied(before, after.services, desired, a)
    ensures var svc := AppliedServices(after, DesiredServices(k, gs, tpl))[s];
            after.services.At(svc.service.kind) == Some(svc.service)
  {
  }
}
