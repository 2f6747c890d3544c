/** The GameServer reconciler as the store-updating code it is. */
module GameServerReconcilers {
  import opened Prelude
  import opened Conditions
  import opened Objects
  import opened GameTypes
  import opened Config
  import opened Services
  import opened Address
  import opened Stores
  import opened ServerViews
  import opened GameServers
  import PodEnv

  class GameServerReconciler {
    var store: Store

    method UpdateStatus(k: Key, status: ServerStatus, a: Answers)
      requires k in store.servers
      modifies this
      ensures store == Embed(old(store), k, StoreStatus(Project(old(store), k), status, a))
    {
      hide Embed;
      EmbedProject(store, k);
      if a.Took(WriteStatus) {
        var written := store.servers[k].(status := status);
        WroteServer(store, k, written);
        store := store.(servers := store.servers[k := written]);
      }
    }

    method EnsureServiceAccount(k: Key, tpl: GameTemplate, a: Answers) returns (ok: bool)
      modifies this
      ensures var s := EnsureAccount(Project(old(store), k), tpl, a);
              store == Embed(old(store), k, s.view) && ok == s.ok
    {
      hide Embed;
      EmbedProject(store, k);
      if tpl.spec.anyUID {
        return true;
      }
      if !a.Ok(GetAccount) {
        return false;
      }
      if AccountKey(k) !in store.accounts {
        if a.Took(CreateAccount) {
          WroteAccount(store, k, STANDARD_ACCOUNT);
          store := store.(accounts := store.accounts[AccountKey(k) := STANDARD_ACCOUNT]);
        }
        return a.Ok(CreateAccount);
      }
      ok := true;
    }

    method ResolveRestoreSource(k: Key, gs: GameServer, a: Answers) returns (source: Source)
      ensures source == RestoreSource(gs, Project(store, k).claim,
                                      if gs.spec.restoreFrom.Some? then Get(store.backups, Key(k.ns,
                                          gs.spec.restoreFrom.value)) else None,
                                      a)
    {
      if gs.spec.restoreFrom.None? {
        return NoSource;
      }
      if !a.Ok(ProbeClaim) {
        return NoSuch("claim unreadable");
      }
      if ClaimKey(k) in store.pvcs {
        return NoSource;
      }
      var backupKey := Key(k.ns, gs.spec.restoreFrom.value);
      if !a.Ok(GetBackup) {
        return NoSuch("backup unreadable");
      }
      if backupKey !in store.backups {
        return NoSuch("backup not found");
      }
      var backup := store.backups[backupKey];
      if backup.status.phase != BackupReady {
        return NoSuch("backup not Ready");
      }
      if backup.status.volumeSnapshotName == "" {
        return NoSuch("backup names no snapshot");
      }
      source := Snapshot(backup.status.volumeSnapshotName);
    }

    method ApplyPVC(k: Key, desired: PVC, a: Answers) returns (ok: bool)
      modifies this
      ensures var s := ApplyClaim(Project(old(store), k), desired, a);
              store == Embed(old(store), k, s.view) && ok == s.ok
    {
      hide Embed;
      EmbedProject(store, k);
      if !a.Ok(GetClaim) {
        return false;
      }
      var key := ClaimKey(k);
      if key !in store.pvcs {
        if a.Took(WriteClaim) {
          WroteClaim(store, k, desired);
          store := store.(pvcs := store.pvcs[key := desired]);
        }
        return a.Ok(WriteClaim);
      }
      var existing := store.pvcs[key];
      if existing.labels != desired.labels {
        existing := existing.(labels := desired.labels);
        if a.Took(WriteClaim) {
          WroteClaim(store, k, existing);
          store := store.(pvcs := store.pvcs[key := existing]);
        }
        return a.Ok(WriteClaim);
      }
      ok := true;
    }

    method ApplyDeploymentTo(k: Key, desired: Deployment, a: Answers) returns (ok: bool)
      modifies this
      ensures var s := ApplyDeployment(Project(old(store), k), desired, a);
              store == Embed(old(store), k, s.view) && ok == s.ok
    {
      hide Embed;
      EmbedProject(store, k);
      if !a.Ok(GetDeployment) {
        return false;
      }
      var written := desired;
      if k in store.deployments {
        var existing := store.deployments[k];
        existing := existing.(labels := desired.labels);
        existing := existing.(spec := desired.spec);
        written := existing;
      }
      if a.Took(WriteDeployment) {
        WroteDeployment(store, k, written);
        store := store.(deployments := store.deployments[k := written]);
      }
      ok := a.Ok(WriteDeployment);
    }

    method PutService(k: Key, e: Exposure, written: Service, a: Answers)
      modifies this
      ensures var v := Project(old(store), k);
              store == Embed(old(store), k, if a.Took(WriteService(e)) then v.(services := v.services.With(e,
                  written)) else v)
    {
      hide Embed, ServiceName;
      EmbedProject(store, k);
      if a.Took(WriteService(e)) {
        WroteService(store, k, e, written);
        store := store.(services := store.services[ServiceKey(k, e) := written]);
      }
    }

    method ApplyServiceTo(k: Key, desired: NamedService, a: Answers) returns (applied: Option<Service>)
      requires desired.name == ServiceName(k.name, desired.service.kind)
      modifies this
      ensures var e := desired.service.kind;
              var s := ApplyService(Project(old(store), k), e, desired.service, a);
              && store == Embed(old(store), k, s.view)
              && applied.Some? == s.ok && (s.ok ==> applied == s.view.services.At(e))
    {
      hide Embed, MergedPorts, AssignedPorts, ServiceName;
      EmbedProject(store, k);
      var e := desired.service.kind;
      ghost var v := Project(store, k);
      if !a.Ok(GetService(e)) {
        return None;
      }
      var key := Key(k.ns, desired.name);
      assert v.services.At(e) == Get(store.services, key);
      if key !in store.services {
        var created := Applied(a.alloc(e), None, desired.service);
        PutService(k, e, created, a);
        if !a.Ok(WriteService(e)) || !a.Ok(RereadService(e)) {
          return None;
        }
        return Some(created);
      }
      var existing := store.services[key];
      existing := existing.(labels := desired.service.labels);
      existing := existing.(kind := desired.service.kind);
      existing := existing.(selector := desired.service.selector);
      var merged := MergeServicePorts(existing.ports, desired.service.ports);
      existing := existing.(ports := AssignedPorts(a.alloc(e), e, merged));
      PutService(k, e, existing, a);
      if !a.Ok(WriteService(e)) {
        return None;
      }
      applied := Some(existing);
    }

    method ApplyAllServices(k: Key, desired: seq<NamedService>, a: Answers)
      returns (ok: bool, applied: seq<NamedService>)
      requires Slots(k, desired)
      modifies this
      ensures var s := ApplyServices(Project(old(store), k), desired, a);
              && store == Embed(old(store), k, s.view) && ok == s.ok
              && (ok ==> applied == AppliedServices(s.view, desired))
    {
      hide Embed, Project, ApplyService, ServiceName;
      EmbedProject(store, k);
      ghost var base, v := store, Project(store, k);
      applied := [];
      for i := 0 to |desired|
        invariant var s := ApplyServices(v, desired[..i], a);
                  && s.ok && store == Embed(base, k, s.view) && applied == AppliedServices(s.view, desired[..i])
      {
        ghost var before := ApplyServices(v, desired[..i], a).view;
        assert desired[..i + 1][..i] == desired[..i];
        Chain(base, k, v, before);
        var svc := ApplyServiceTo(k, desired[i], a);
        ghost var stage := ApplyService(before, desired[i].service.kind, desired[i].service, a);
        Chain(base, k, before, stage.view);
        if svc.None? {
          FailureEndsThePass(v, desired, i, a);
          return false, applied;
        }
        NextApplied(before, desired, i, a);
        applied := applied + [NamedService(desired[i].name, svc.value)];
      }
      assert desired[..|desired|] == desired;
      ok := true;
    }

    method BuildDeploymentFor(name: string, gs: GameServer, tpl: GameTemplate, visited: seq<string>)
        returns (desired: Deployment)
      requires Distinct(visited) && Elements(visited) == gs.spec.config.Keys
      ensures desired == BuildDeployment(name, gs, tpl)
    {
      var env := PodEnv.ResolveEnv(tpl.spec, gs.spec, visited);
      var replicas := 1;
      if gs.spec.suspend {
        replicas := 0;
      }
      desired := Deployment(BaseLabels(name, gs.spec.template),
                            DeploymentSpec(replicas, SelectorLabels(name), BaseLabels(name, gs.spec.template),
                                           if tpl.spec.anyUID then ANYUID else RESTRICTED, tpl.spec.image, env,
                                           PVCName(name)),
                            0);
    }

    /** The claim, the Deployment, the Services, and then the status they add up to. */
    method ApplyChildren(k: Key, gs: GameServer, tpl: GameTemplate, source: Source, conditions: ConditionList,
                         a: Answers, visited: seq<string>)
      requires Distinct(visited) && Elements(visited) == gs.spec.config.Keys
      requires Get(store.servers, k) == Some(gs)
      requires conditions.generation == gs.generation && conditions.items == Restorable(gs, a.now).conditions
      modifies this, conditions
      ensures store == Embed(old(store), k, ReconcileChildren(k, gs, tpl, source, Project(old(store), k), a))
    {
      hide Embed, ApplyClaim, ApplyDeployment, BuildDeployment, BuildPVC, ApplyServices, AppliedServices, Put,
          ServicesFor,
        PodEnv.ResolvedEnv, AddressOf, Restorable;
      ghost var base, v1 := store, Project(store, k);
      ghost var v2 := ApplyClaim(v1, BuildPVC(k.name, gs, tpl, source), a).view;
      var done := ApplyPVC(k, BuildPVC(k.name, gs, tpl, source), a);
      if !done {
        return;
      }
      Chain(base, k, v2, v2);
      var deployment := BuildDeploymentFor(k.name, gs, tpl, visited);
      ghost var v3 := ApplyDeployment(v2, deployment, a).view;
      done := ApplyDeploymentTo(k, deployment, a);
      Chain(base, k, v2, v3);
      if !done {
        return;
      }
      Chain(base, k, v3, v3);
      var services := BuildServices(k.name, gs.spec, tpl.spec.ports);
      DesiredSlots(k, gs, tpl);
      ghost var v4 := ApplyServices(v3, services, a).view;
      var applied;
      done, applied := ApplyAllServices(k, services, a);
      Chain(base, k, v3, v4);
      if !done {
        return;
      }
      Chain(base, k, v4, v4);
      ClaimOnly(v1, BuildPVC(k.name, gs, tpl, source), a);
      DeploymentOnly(v2, deployment, a);
      ServicesKeepTheRest(v3, services, a);
      if !a.Ok(RefreshDeployment) || k !in store.deployments {
        return;
      }
      UpdateFinalStatus(k, gs, tpl, store.deployments[k], applied, conditions, a);
      Chain(base, k, v4, StoreStatus(v4, Finished(k, gs, tpl, v4.deployment.value.readyReplicas, applied, a.now), a));
    }

    method UpdateFinalStatus(k: Key, gs: GameServer, tpl: GameTemplate, current: Deployment,
                             applied: seq<NamedService>, conditions: ConditionList, a: Answers)
      requires Get(store.servers, k) == Some(gs)
      requires conditions.generation == gs.generation && conditions.items == Restorable(gs, a.now).conditions
      modifies this, conditions
      ensures var v := Project(old(store), k);
              v.server == Some(gs)
              && store == Embed(old(store), k, StoreStatus(v, Finished(k, gs, tpl, current.readyReplicas, applied,
                  a.now), a))
    {
      hide Embed, Put, AddressOf;
      var status := gs.status;
      status := status.(readyReplicas := current.readyReplicas);
      status := status.(observedGeneration := gs.generation);
      status := status.(templateGeneration := tpl.generation);
      var address := PrimaryAddress(k.ns, k.name, gs.spec.exposeOverride, tpl.spec.ports, applied);
      status := status.(address := address);
      if gs.spec.suspend {
        status := status.(phase := PhaseStopped);
        conditions.Set(READY, ConditionFalse, "Suspended", "spec.suspend=true", a.now);
      } else if current.readyReplicas >= 1 {
        status := status.(phase := PhaseReady);
        conditions.Set(READY, ConditionTrue, "PodReady", "pod is Ready", a.now);
      } else {
        status := status.(phase := PhaseProvisioning);
        conditions.Set(READY, ConditionFalse, "PodNotReady", "waiting for pod to become Ready", a.now);
      }
      UpdateStatus(k, status.(conditions := conditions.items), a);
    }

    method ReportUnavailable(k: Key, gs: GameServer, why: string, conditions: ConditionList, a: Answers)
      requires Get(store.servers, k) == Some(gs)
      requires conditions.generation == gs.generation && conditions.items == Valid(gs, a.now).conditions
      modifies this, conditions
      ensures var v := Project(old(store), k);
              v.server == Some(gs) && store == Embed(old(store), k, StoreStatus(v, Unavailable(gs, why, a.now), a))
    {
      hide Embed, Put, Valid;
      OnlyConditionsSoFar(gs, a.now);
      conditions.Set(RESTORE_RESOLVED, ConditionFalse, "Unavailable", why, a.now);
      var status := gs.status.(phase := PhaseDegraded);
      UpdateStatus(k, status.(conditions := conditions.items), a);
    }

    method ReportBadStorage(k: Key, gs: GameServer, size: string, conditions: ConditionList, a: Answers)
      requires Get(store.servers, k) == Some(gs)
      requires conditions.generation == gs.generation && conditions.items == Restorable(gs, a.now).conditions
      modifies this, conditions
      ensures var v := Project(old(store), k);
              v.server == Some(gs) && store == Embed(old(store), k, StoreStatus(v, BadStorage(gs, size, a.now), a))
    {
      hide Embed, Put, Valid;
      OnlyConditionsSoFar(gs, a.now);
      conditions.Set(CONFIG_VALID, ConditionFalse, "InvalidStorage", size, a.now);
      UpdateStatus(k, gs.status.(conditions := conditions.items), a);
    }

    /** From a valid configuration on: account, restore source, storage size, children. */
    method Provision(sx: Syntax, k: Key, gs: GameServer, tpl: GameTemplate, conditions: ConditionList, a: Answers,
                     visited: seq<string>)
      requires Distinct(visited) && Elements(visited) == gs.spec.config.Keys
      requires Get(store.servers, k) == Some(gs)
      requires conditions.generation == gs.generation && conditions.items == Valid(gs, a.now).conditions
      modifies this, conditions
      ensures store == Embed(old(store), k, ReconcileResolved(sx, k, gs, tpl, InputsOf(old(store), k).backup,
                                                              Project(old(store), k), a, None))
    {
      hide Embed, EnsureAccount, RestoreSource, ReconcileChildren, Put, Valid, ClaimSize, AccountKey, ClaimKey,
          ServiceKey, Unavailable, BadStorage, StoreStatus;
      ghost var base, v := store, Project(store, k);
      EmbedProject(store, k);
      if !tpl.spec.anyUID {
        var ensured := EnsureServiceAccount(k, tpl, a);
        if !ensured {
          return;
        }
      }
      ghost var v1 := EnsureAccount(v, tpl, a).view;
      AccountOnly(v, tpl, a);
      assert store == Embed(base, k, v1);
      Chain(base, k, v1, v1);
      SameInputs(base, k, v1);
      var source := ResolveRestoreSource(k, gs, a);
      if source.NoSuch? {
        ReportUnavailable(k, gs, source.why, conditions, a);
        Chain(base, k, v1, StoreStatus(v1, Unavailable(gs, source.why, a.now), a));
        return;
      }
      if gs.spec.restoreFrom.Some? {
        conditions.Set(RESTORE_RESOLVED, ConditionTrue, "SnapshotBound", "restoreFrom Backup snapshot ready", a.now);
      }
      if !sx.isQuantity(ClaimSize(gs, tpl)) {
        ReportBadStorage(k, gs, ClaimSize(gs, tpl), conditions, a);
        Chain(base, k, v1, StoreStatus(v1, BadStorage(gs, ClaimSize(gs, tpl), a.now), a));
        return;
      }
      ApplyChildren(k, gs, tpl, source, conditions, a, visited);
      Chain(base, k, v1, ReconcileChildren(k, gs, tpl, source, v1, a));
    }

    /** `visited` and `revisited` are the orders in which the two walks over the configuration map happen to go. */
    method Reconcile(sx: Syntax, k: Key, a: Answers, visited: seq<string>, revisited: seq<string>)
      returns (ghost err: Option<ConfigError>)
      requires k in store.servers ==>
                 && Distinct(visited) && Elements(visited) == store.servers[k].spec.config.Keys
                 && Distinct(revisited) && Elements(revisited) == store.servers[k].spec.config.Keys
      modifies this
      ensures Reported(sx, old(store), k, a, err)
      ensures store == ReconcileServer(sx, old(store), k, a, err)
    {
      hide Embed, Put, ReconcileResolved, ValidConfig, Violates, KeyNamed;
      err := None;
      ghost var base, v := store, Project(store, k);
      EmbedProject(store, k);
      if !a.Ok(GetServer) || k !in store.servers {
        return;
      }
      var gs := store.servers[k];
      var status := gs.status;
      var conditions := new ConditionList(status.conditions, gs.generation);
      if !a.Ok(GetTemplate) {
        return;
      }
      if gs.spec.template !in store.templates {
        conditions.Set(TEMPLATE_RESOLVED, ConditionFalse, "NotFound", gs.spec.template, a.now);
        status := status.(phase := PhasePending);
        UpdateStatus(k, status.(conditions := conditions.items), a);
        return;
      }
      var tpl := store.templates[gs.spec.template];
      conditions.Set(TEMPLATE_RESOLVED, ConditionTrue, "Resolved", "GameTemplate resolved", a.now);
      var problem := ValidateConfig(sx, gs.spec.config, tpl.spec.configKeys, visited);
      err := problem;
      if problem.Some? {
        conditions.Set(CONFIG_VALID, ConditionFalse, "Invalid", Describe(problem.value), a.now);
        status := status.(phase := PhaseDegraded);
        UpdateStatus(k, status.(conditions := conditions.items), a);
        InvalidView(sx, k, gs, tpl, InputsOf(base, k).backup, v, a, problem.value);
        return;
      }
      conditions.Set(CONFIG_VALID, ConditionTrue, "Valid", "config satisfies template", a.now);
      Provision(sx, k, gs, tpl, conditions, a, revisited);
    }
  }

  // ---------------------------------------------------------------------------------------------
  // Facts the methods rest on
  // ---------------------------------------------------------------------------------------------

  /** Each desired Service goes under the name of its exposure, no exposure twice. */
  predicate Slots(k: Key, desired: seq<NamedService>) {
    && (forall i :: 0 <= i < |desired| ==> desired[i].name == ServiceName(k.name, desired[i].service.kind))
    && (forall i, j :: 0 <= i < j < |desired| ==> desired[i].service.kind != desired[j].service.kind)
  }

  lemma DesiredSlots(k: Key, gs: GameServer, tpl: GameTemplate)
    ensures Slots(k, DesiredServices(k, gs, tpl))
  {
    BuildServicesConservesPorts(k.name, gs.spec.template, gs.spec.exposeOverride, tpl.spec.ports);
  }

  lemma AccountOnly(v: View, tpl: GameTemplate, a: Answers)
    ensures var after := EnsureAccount(v, tpl, a).view;
            after == v.(account := after.account)
    ensures tpl.spec.anyUID ==> EnsureAccount(v, tpl, a) == Stage(v, true)
  {
  }

  lemma OnlyConditionsSoFar(gs: GameServer, now: int)
    ensures Valid(gs, now) == gs.status.(conditions := Valid(gs, now).conditions)
  {
  }

  lemma ClaimOnly(v: View, desired: PVC, a: Answers)
    ensures var after := ApplyClaim(v, desired, a).view;
            after == v.(claim := after.claim)
  {
  }

  lemma DeploymentOnly(v: View, desired: Deployment, a: Answers)
    ensures var after := ApplyDeployment(v, desired, a).view;
            after == v.(deployment := after.deployment)
  {
  }

  lemma InvalidView(sx: Syntax, k: Key, gs: GameServer, tpl: GameTemplate, backup: Option<Backup>, v: View, a: Answers,
                    e: ConfigError)
    requires v.server == Some(gs)
    ensures ReconcileResolved(sx, k, gs, tpl, backup, v, a, Some(e)) == StoreStatus(v, Invalid(gs, e, a.now), a)
  {
  }

  /** A reconcile never writes what it only reads. */
  lemma SameInputs(st: Store, k: Key, v: View)
    ensures var after := Embed(st, k, v);
            after.templates == st.templates && after.backups == st.backups && after.snapshots == st.snapshots
  {
  }

  lemma {:induction false} FailureEndsThePass(v: View, desired: seq<NamedService>, i: nat, a: Answers)
    requires i < |desired|
    requires !ApplyServices(v, desired[..i + 1], a).ok
    ensures ApplyServices(v, desired, a) == ApplyServices(v, desired[..i + 1], a)
  {
    hide ApplyService;
    var n := |desired| - 1;
    if i < n {
      assert desired[..n][..i + 1] == desired[..i + 1];
      FailureEndsThePass(v, desired[..n], i, a);
    } else {
      assert desired[..i + 1] == desired;
    }
  }

  lemma NextApplied(v: View, desired: seq<NamedService>, i: nat, a: Answers)
    requires i < |desired|
    requires forall j :: 0 <= j < i ==> desired[j].service.kind != desired[i].service.kind
    requires ApplyService(v, desired[i].service.kind, desired[i].service, a).ok
    ensures var e := desired[i].service.kind;
            var after := ApplyService(v, e, desired[i].service, a).view;
            && after.services.At(e).Some?
            && AppliedServices(after, desired[..i + 1])
               == AppliedServices(v, desired[..i]) + [NamedService(desired[i].name, after.services.At(e).value)]
  {
    hide Applied;
  }
}
