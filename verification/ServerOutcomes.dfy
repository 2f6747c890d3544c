/** What one reconcile of a GameServer leaves in the store, said of server, template and store alone: names, labels,
    fields and conditions are spelled out, and the environment theorems are about the Deployment that is stored. */
module ServerOutcomes {
  import opened Prelude
  import opened Conditions
  import opened Objects
  import opened GameTypes
  import opened Admission
  import opened Config
  import opened Services
  import opened ServiceLayouts
  import opened Stores
  import opened ServerViews
  import opened GameServers
  import opened GameServerReconcilers
  import opened ServerFixpoints
  import opened ServerInvariants
  import Address
  import PodEnv

  // ---------------------------------------------------------------------------------------------
  // When a pass builds the children
  // ---------------------------------------------------------------------------------------------

  /** The server's own size, else the template's, else 10Gi. */
  predicate SizeAsked(gs: GameServer, tpl: GameTemplate, size: string) {
    && (gs.spec.size != "" ==> size == gs.spec.size)
    && (gs.spec.size == "" && tpl.spec.defaultSize != "" ==> size == tpl.spec.defaultSize)
    && (gs.spec.size == "" && tpl.spec.defaultSize == "" ==> size == "10Gi")
  }

  /** A claim that is still to be restored has a ready Backup that names its snapshot. */
  predicate SourceAvailable(st: Store, k: Key, gs: GameServer) {
    gs.spec.restoreFrom.Some? && Key(k.ns, k.name + "-data") !in st.pvcs ==>
      && var from := Key(k.ns, gs.spec.restoreFrom.value);
         && from in st.backups && st.backups[from].status.phase == BackupReady
         && st.backups[from].status.volumeSnapshotName != ""
  }

  predicate HasTemplate(st: Store, k: Key, gs: GameServer, tpl: GameTemplate) {
    && k in st.servers && st.servers[k] == gs
    && gs.spec.template in st.templates && st.templates[gs.spec.template] == tpl
  }

  /** A server over a template the webhook admits, with a valid configuration, an available restore source and a size
      that parses. */
  ghost predicate Buildable(sx: Syntax, st: Store, k: Key, gs: GameServer, tpl: GameTemplate) {
    && HasTemplate(st, k, gs, tpl)
    && Errors(tpl.spec) == [] && ValidConfig(sx, gs.spec.config, tpl.spec.configKeys)
    && SourceAvailable(st, k, gs)
    && forall size :: SizeAsked(gs, tpl, size) ==> sx.isQuantity(size)
  }

  lemma SizeIsAsked(gs: GameServer, tpl: GameTemplate)
    ensures forall size :: SizeAsked(gs, tpl, size) <==> size == ClaimSize(gs, tpl)
  {
  }

  /** Without faults the source is unavailable exactly when it should be. */
  lemma SourceIsAvailable(st: Store, k: Key, gs: GameServer, a: Answers)
    requires k in st.servers && st.servers[k] == gs && FaultFree(a)
    ensures var source := RestoreSource(gs, Project(st, k).claim, InputsOf(st, k).backup, a);
            && (SourceAvailable(st, k, gs) <==> !source.NoSuch?)
            && (source.NoSuch? ==> source == RestoreSource(gs, None, InputsOf(st, k).backup, a))
            && (SourceAvailable(st, k, gs) && Key(k.ns, k.name + "-data") !in st.pvcs ==>
                  if gs.spec.restoreFrom.None? then source == NoSource
                  else source == Snapshot(st.backups[Key(k.ns,
                      gs.spec.restoreFrom.value)].status.volumeSnapshotName))
  {
  }

  lemma NoProblem(sx: Syntax, st: Store, k: Key, gs: GameServer, tpl: GameTemplate, a: Answers,
                  err: Option<ConfigError>)
    requires HasTemplate(st, k, gs, tpl) && FaultFree(a) && Reported(sx, st, k, a, err)
    ensures err.None? <==> ValidConfig(sx, gs.spec.config, tpl.spec.configKeys)
    ensures ReportedFor(sx, gs.spec.config, tpl.spec.configKeys, err)
  {
    hide ValidConfig, FirstProblem;
    var visited :| IsWalk(visited, gs.spec.config)
      && err == FirstProblem(sx, gs.spec.config, tpl.spec.configKeys, visited);
    FirstProblemDecides(sx, gs.spec.config, tpl.spec.configKeys, visited);
  }

  lemma BuildableBuilds(sx: Syntax, st: Store, k: Key, gs: GameServer, tpl: GameTemplate, a: Answers,
                        err: Option<ConfigError>)
    requires Buildable(sx, st, k, gs, tpl) && FaultFree(a) && Reported(sx, st, k, a, err)
    ensures Builds(sx, InputsOf(st, k), Project(st, k), a, err)
  {
    hide ValidConfig, ReportedFor, RestoreSource, Errors, ClaimSize, SizeAsked, SourceAvailable;
    NoProblem(sx, st, k, gs, tpl, a, err);
    SizeIsAsked(gs, tpl);
    SourceIsAvailable(st, k, gs, a);
  }

  // ---------------------------------------------------------------------------------------------
  // What it leaves
  // ---------------------------------------------------------------------------------------------

  /** The Deployment of a server: one pod, or none while suspended, of the template's image under the server's labels,
      mounting its claim, with the environment merged from the four sources. */
  ghost predicate DeploymentIs(d: Deployment, name: string, gs: GameServer, tpl: GameTemplate) {
    && ChildLabels(d.labels, name, gs.spec.template) && ChildLabels(d.spec.podLabels, name, gs.spec.template)
    && PodSelector(d.spec.selector, name)
    && d.spec.replicas == (if gs.spec.suspend then 0 else 1)
    && d.spec.image == tpl.spec.image && d.spec.claim == name + "-data"
    && d.spec.serviceAccount == (if tpl.spec.anyUID then "gameserver-anyuid" else "gameserver-restricted")
    && PodEnv.IsMerge(PodEnv.Sources(tpl.spec, gs.spec), d.spec.env)
  }

  /** The claim of a server: an existing one gets its labels back, a new one has the size and class asked for,
      belongs to the server and is seeded from the Backup it is restored from. */
  predicate ClaimIs(claim: PVC, before: Option<PVC>, st: Store, k: Key, gs: GameServer, tpl: GameTemplate) {
    && ChildLabels(claim.labels, k.name, gs.spec.template)
    && if before.Some? then claim == before.value.(labels := claim.labels)
       else
         && SizeAsked(gs, tpl, claim.size) && claim.owner == Some(k.name)
         && (if gs.spec.className == "" then claim.className.None? else claim.className == Some(gs.spec.className))
         && (if gs.spec.restoreFrom.None? then claim.dataSource.None?
             else
               && var from := Key(k.ns, gs.spec.restoreFrom.value);
                  from in st.backups && claim.dataSource == Some(st.backups[from].status.volumeSnapshotName))
  }

  /** Every Service laid out for the server is stored under its name, over what was there. */
  ghost predicate ServicesAre(before: map<Key, Service>, after: map<Key, Service>, k: Key, gs: GameServer,
                              tpl: GameTemplate, a: Answers) {
    forall services :: Layout(services, k.name, gs.spec.template, gs.spec.exposeOverride, tpl.spec.ports) ==>
      forall i :: 0 <= i < |services| ==> StoredAt(before, after, k, services[i], a)
  }

  ghost predicate StoredAt(before: map<Key, Service>, after: map<Key, Service>, k: Key, svc: NamedService, a: Answers) {
    var key := Key(k.ns, svc.name);
    key in after && StoredOver(after[key], Get(before, key), svc.service, a.alloc(svc.service.kind))
  }

  /** Pods of the restricted profile run under an account that is created when missing; the other one is not the
      operator's. */
  predicate AccountIs(before: map<Key, Labels>, after: map<Key, Labels>, k: Key, tpl: GameTemplate) {
    var key := Key(k.ns, "gameserver-restricted");
    if tpl.spec.anyUID || key in before then after == before
    else after == before[key := map["app.kubernetes.io/name" := "gameserver",
                                    "app.kubernetes.io/managed-by" := "gameserver-operator"]]
  }

  /** The conditions of a pass that found template, configuration and restore source in order. */
  ghost predicate InOrderSaid(gs: GameServer, before: seq<Condition>, after: seq<Condition>, now: int) {
    && Becomes(before, after, "TemplateResolved", ConditionTrue, "Resolved", "GameTemplate resolved", now,
        gs.generation)
    && Becomes(before, after, "ConfigValid", ConditionTrue, "Valid", "config satisfies template", now, gs.generation)
    && (if gs.spec.restoreFrom.Some? then
          Becomes(before, after, "RestoreSourceResolved", ConditionTrue, "SnapshotBound",
                  "restoreFrom Backup snapshot ready", now, gs.generation)
        else Find(after, "RestoreSourceResolved") == Find(before, "RestoreSourceResolved"))
  }

  const MARKED := {"TemplateResolved", "ConfigValid", "RestoreSourceResolved", "Ready"}

  /** The status of a completed pass. */
  ghost predicate StatusIs(gs: GameServer, tpl: GameTemplate, st: ServerStatus, replicas: int, now: int) {
    && st.readyReplicas == replicas
    && st.observedGeneration == gs.generation && st.templateGeneration == tpl.generation
    && st.phase == (if gs.spec.suspend then PhaseStopped else if replicas >= 1 then PhaseReady else PhaseProvisioning)
    && InOrderSaid(gs, gs.status.conditions, st.conditions, now)
    && SameBut(gs.status.conditions, st.conditions, MARKED)
    && (if gs.spec.suspend then
          Becomes(gs.status.conditions, st.conditions, "Ready", ConditionFalse, "Suspended", "spec.suspend=true", now,
                  gs.generation)
        else if replicas >= 1 then
          Becomes(gs.status.conditions, st.conditions, "Ready", ConditionTrue, "PodReady", "pod is Ready", now,
                  gs.generation)
        else
          Becomes(gs.status.conditions, st.conditions, "Ready", ConditionFalse, "PodNotReady",
                  "waiting for pod to become Ready", now, gs.generation))
  }

  lemma MarkBecomes(gs: GameServer, st: ServerStatus, kind: string, s: ConditionStatus, reason: string, message: string,
                    now: int)
    ensures var after := Mark(gs, st, kind, s, reason, message, now);
            && after == st.(conditions := after.conditions)
            && Becomes(st.conditions, after.conditions, kind, s, reason, message, now, gs.generation)
            && SameBut(st.conditions, after.conditions, {kind})
  {
    hide Put, Becomes, SameBut;
    PutBecomes(st.conditions, Change(kind, s, reason, message, now, gs.generation));
  }

  lemma ResolvedBecomes(gs: GameServer, now: int)
    ensures var st := Resolved(gs, now);
            && st == gs.status.(conditions := st.conditions)
            && Becomes(gs.status.conditions, st.conditions, "TemplateResolved", ConditionTrue, "Resolved",
                       "GameTemplate resolved", now, gs.generation)
            && SameBut(gs.status.conditions, st.conditions, {"TemplateResolved"})
  {
    hide Mark, Becomes, SameBut;
    MarkBecomes(gs, gs.status, TEMPLATE_RESOLVED, ConditionTrue, "Resolved", "GameTemplate resolved", now);
  }

  lemma ValidBecomes(gs: GameServer, now: int)
    ensures var st := Valid(gs, now);
            && st == gs.status.(conditions := st.conditions)
            && Becomes(gs.status.conditions, st.conditions, "TemplateResolved", ConditionTrue, "Resolved",
                       "GameTemplate resolved", now, gs.generation)
            && Becomes(gs.status.conditions, st.conditions, "ConfigValid", ConditionTrue, "Valid",
                       "config satisfies template", now, gs.generation)
            && SameBut(gs.status.conditions, st.conditions, {"TemplateResolved", "ConfigValid"})
  {
    hide Mark, Resolved, Find;
    ResolvedBecomes(gs, now);
    MarkBecomes(gs, Resolved(gs, now), CONFIG_VALID, ConditionTrue, "Valid", "config satisfies template", now);
  }

  lemma RestorableBecomes(gs: GameServer, now: int)
    ensures var st := Restorable(gs, now);
            && st == gs.status.(conditions := st.conditions)
            && InOrderSaid(gs, gs.status.conditions, st.conditions, now)
            && SameBut(gs.status.conditions, st.conditions, MARKED - {"Ready"})
  {
    hide Mark, Valid, Find;
    ValidBecomes(gs, now);
    if gs.spec.restoreFrom.Some? {
      MarkBecomes(gs, Valid(gs, now), RESTORE_RESOLVED, ConditionTrue, "SnapshotBound",
          "restoreFrom Backup snapshot ready", now);
    }
  }

  lemma FinishedIs(k: Key, gs: GameServer, tpl: GameTemplate, replicas: int, applied: seq<NamedService>, now: int)
    ensures StatusIs(gs, tpl, Finished(k, gs, tpl, replicas, applied, now), replicas, now)
  {
    hide Mark, Restorable, Find, Address.AddressOf;
    RestorableBecomes(gs, now);
    var st0 := Restorable(gs, now).(readyReplicas := replicas, observedGeneration := gs.generation,
                                    templateGeneration := tpl.generation,
                                    address := Address.AddressOf(k.ns, k.name, gs.spec.exposeOverride, tpl.spec.ports,
                                        applied));
    MarkBecomes(gs, st0, READY, ConditionFalse, "Suspended", "spec.suspend=true", now);
    MarkBecomes(gs, st0, READY, ConditionTrue, "PodReady", "pod is Ready", now);
    MarkBecomes(gs, st0, READY, ConditionFalse, "PodNotReady", "waiting for pod to become Ready", now);
  }

  lemma DeploymentBuilt(name: string, gs: GameServer, tpl: GameTemplate, existing: Option<Deployment>)
    ensures var d := AppliedDeployment(existing, BuildDeployment(name, gs, tpl));
            && DeploymentIs(d, name, gs, tpl)
            && d.readyReplicas == if existing.Some? then existing.value.readyReplicas else 0
  {
    hide PodEnv.IsMerge, PodEnv.ResolvedEnv;
    PodEnv.ResolvedEnvIsTheMerge(tpl.spec, gs.spec, PodEnv.ResolvedEnv(tpl.spec, gs.spec));
  }

  lemma ClaimBuilt(st: Store, k: Key, gs: GameServer, tpl: GameTemplate, a: Answers)
    requires HasTemplate(st, k, gs, tpl) && SourceAvailable(st, k, gs) && FaultFree(a)
    ensures var source := RestoreSource(gs, Project(st, k).claim, InputsOf(st, k).backup, a);
            var before := Get(st.pvcs, Key(k.ns, k.name + "-data"));
            ClaimIs(AppliedClaim(before, BuildPVC(k.name, gs, tpl, source)), before, st, k, gs, tpl)
  {
    hide RestoreSource, ClaimSize;
    SizeIsAsked(gs, tpl);
    SourceIsAvailable(st, k, gs, a);
  }

  lemma AccountBuilt(st: Store, k: Key, tpl: GameTemplate, v: View, a: Answers)
    requires v == Project(st, k) && FaultFree(a)
    ensures AccountIs(st.accounts, Set(st.accounts, AccountKey(k), EnsureAccount(v, tpl, a).view.account), k, tpl)
  {
    SetBack(st.accounts, AccountKey(k));
  }

  lemma ServicesBuilt(st: Store, k: Key, gs: GameServer, tpl: GameTemplate, after: Store, a: Answers)
    requires ServicesApplied(Project(st, k).services, Project(after, k).services, DesiredServices(k, gs, tpl), a)
    ensures ServicesAre(st.services, after.services, k, gs, tpl, a)
  {
    hide Layout, ServicesFor, StoredAt, StoredOver, Applied;
    forall services: seq<NamedService>, i: int |
      && Layout(services, k.name, gs.spec.template, gs.spec.exposeOverride, tpl.spec.ports)
      && 0 <= i < |services|
      ensures StoredAt(st.services, after.services, k, services[i], a)
    {
      ServicesHaveLayout(services, k.name, gs.spec.template, gs.spec.exposeOverride, tpl.spec.ports);
      ServiceBuilt(st, k, gs, tpl, after, i, a);
    }
  }

  lemma ServiceBuilt(st: Store, k: Key, gs: GameServer, tpl: GameTemplate, after: Store, i: nat, a: Answers)
    requires ServicesApplied(Project(st, k).services, Project(after, k).services, DesiredServices(k, gs, tpl), a)
    requires i < |DesiredServices(k, gs, tpl)|
    ensures StoredAt(st.services, after.services, k, DesiredServices(k, gs, tpl)[i], a)
  {
    hide StoredOver, Applied, ExposuresUsed, Group;
    var svc := DesiredServices(k, gs, tpl)[i];
    var e := svc.service.kind;
    assert svc.name == ServiceName(k.name, e);
    AppliedIsStoredOver(a.alloc(e), Get(st.services, ServiceKey(k, e)), svc.service);
    assert Project(after, k).services.At(e) == Get(after.services, ServiceKey(k, e));
    assert Project(st, k).services.At(e) == Get(st.services, ServiceKey(k, e));
  }

  /** What the children and the status are once a pass has built them. */
  ghost predicate Outcome(st: Store, after: Store, k: Key, gs: GameServer, tpl: GameTemplate, a: Answers) {
    && k in after.deployments && DeploymentIs(after.deployments[k], k.name, gs, tpl)
    && after.deployments[k].readyReplicas == (if k in st.deployments then st.deployments[k].readyReplicas else 0)
    && Key(k.ns, k.name + "-data") in after.pvcs
    && ClaimIs(after.pvcs[Key(k.ns, k.name + "-data")], Get(st.pvcs, Key(k.ns, k.name + "-data")), st, k, gs, tpl)
    && ServicesAre(st.services, after.services, k, gs, tpl, a)
    && AccountIs(st.accounts, after.accounts, k, tpl)
    && k in after.servers && after.servers[k] == gs.(status := after.servers[k].status)
    && StatusIs(gs, tpl, after.servers[k].status, after.deployments[k].readyReplicas, a.now)
  }

  /** A fault-free pass over a server that can be built stores its Deployment, claim, Services, account and status as
      the operator documents them. */
  lemma PassIsExact(sx: Syntax, st: Store, k: Key, gs: GameServer, tpl: GameTemplate, a: Answers,
                    err: Option<ConfigError>)
    requires Buildable(sx, st, k, gs, tpl) && FaultFree(a) && Reported(sx, st, k, a, err)
    ensures Outcome(st, ReconcileServer(sx, st, k, a, err), k, gs, tpl, a)
  {
    hide ReconcileView, ReportedFor, Embed, ServicesApplied, Errors, ValidConfig, SourceAvailable, SizeAsked, Builds,
      DeploymentIs, ClaimIs, ServicesAre, AccountIs, StatusIs, FaultFree, BuildDeployment, BuildPVC, RestoreSource,
      EnsureAccount, Finished, DesiredServices, AppliedServices;
    var i, v := InputsOf(st, k), Project(st, k);
    var w := ReconcileView(sx, k, i, v, a, err);
    var after := Embed(st, k, w);
    BuildableBuilds(sx, st, k, gs, tpl, a, err);
    PortsDiffer(tpl);
    BuiltPass(sx, k, i, v, a, err);
    AccountOnly(v, tpl, a);
    var before := EnsureAccount(v, tpl, a).view;
    Chain(st, k, w, w);
    assert Project(after, k) == w;
    DeploymentBuilt(k.name, gs, tpl, v.deployment);
    ClaimBuilt(st, k, gs, tpl, a);
    ServicesBuilt(st, k, gs, tpl, after, a);
    AccountBuilt(st, k, tpl, v, a);
    AccountsAfter(st, k, w);
    FinishedIs(k, gs, tpl, w.deployment.value.readyReplicas, AppliedServices(w, DesiredServices(k, gs, tpl)), a.now);
  }

  lemma PortsDiffer(tpl: GameTemplate)
    requires Errors(tpl.spec) == []
    ensures Distinct(PortNames(tpl.spec.ports))
  {
    AdmittedPortsDiffer(tpl.spec);
  }

  lemma AccountsAfter(st: Store, k: Key, w: View)
    ensures Embed(st, k, w).accounts == Set(st.accounts, AccountKey(k), w.account)
  {
  }

  // ---------------------------------------------------------------------------------------------
  // What it leaves when it ends early
  // ---------------------------------------------------------------------------------------------

  /** Of the store only the server's status has changed, and the account may have been created. */
  predicate OnlyReported(st: Store, after: Store, k: Key, gs: GameServer) {
    && k in after.servers
    && after == st.(servers := st.servers[k := gs.(status := after.servers[k].status)], accounts := after.accounts)
  }

  lemma EmbedStatus(st: Store, k: Key, gs: GameServer, w: View)
    requires Project(st, k).server == Some(gs) && w.server.Some?
        && w.server.value == gs.(status := w.server.value.status)
    requires w == Project(st, k).(server := w.server, account := w.account)
    ensures var after := Embed(st, k, w);
            && OnlyReported(st, after, k, gs) && after.servers[k].status == w.server.value.status
            && after.accounts == Set(st.accounts, AccountKey(k), w.account)
  {
    hide Get, ServiceKey, ClaimKey, AccountKey, SetServices;
    PartsBack(st, k);
  }

  lemma MissingTemplateIsReported(sx: Syntax, st: Store, k: Key, gs: GameServer, a: Answers, err: Option<ConfigError>)
    requires k in st.servers && st.servers[k] == gs && gs.spec.template !in st.templates && FaultFree(a)
    ensures var after := ReconcileServer(sx, st, k, a, err);
            && OnlyReported(st, after, k, gs) && after.accounts == st.accounts
            && var stt := after.servers[k].status;
               && stt == gs.status.(phase := PhasePending, conditions := stt.conditions)
               && Becomes(gs.status.conditions, stt.conditions, "TemplateResolved", ConditionFalse, "NotFound",
                          gs.spec.template, a.now, gs.generation)
               && SameBut(gs.status.conditions, stt.conditions, {"TemplateResolved"})
  {
    hide Mark, Becomes, SameBut, Embed;
    MarkBecomes(gs, gs.status, TEMPLATE_RESOLVED, ConditionFalse, "NotFound", gs.spec.template, a.now);
    EmbedStatus(st, k, gs, ReconcileView(sx, k, InputsOf(st, k), Project(st, k), a, err));
    SetBack(st.accounts, AccountKey(k));
  }

  lemma RejectedConfigIsReported(sx: Syntax, st: Store, k: Key, gs: GameServer, tpl: GameTemplate, a: Answers,
                                 err: Option<ConfigError>)
    requires HasTemplate(st, k, gs, tpl) && FaultFree(a) && Reported(sx, st, k, a, err)
    requires !ValidConfig(sx, gs.spec.config, tpl.spec.configKeys)
    ensures var after := ReconcileServer(sx, st, k, a, err);
            && OnlyReported(st, after, k, gs) && after.accounts == st.accounts && err.Some?
            && var stt := after.servers[k].status;
               && stt == gs.status.(phase := PhaseDegraded, conditions := stt.conditions)
               && Becomes(gs.status.conditions, stt.conditions, "TemplateResolved", ConditionTrue, "Resolved",
                          "GameTemplate resolved", a.now, gs.generation)
               && Becomes(gs.status.conditions, stt.conditions, "ConfigValid", ConditionFalse, "Invalid",
                          Describe(err.value), a.now, gs.generation)
               && SameBut(gs.status.conditions, stt.conditions, {"TemplateResolved", "ConfigValid"})
  {
    hide Mark, Resolved, Find, Embed, ValidConfig, ReportedFor, Describe;
    NoProblem(sx, st, k, gs, tpl, a, err);
    ResolvedBecomes(gs, a.now);
    MarkBecomes(gs, Resolved(gs, a.now), CONFIG_VALID, ConditionFalse, "Invalid", Describe(err.value), a.now);
    EmbedStatus(st, k, gs, ReconcileView(sx, k, InputsOf(st, k), Project(st, k), a, err));
    SetBack(st.accounts, AccountKey(k));
  }

  lemma UnavailableBecomes(gs: GameServer, why: string, now: int)
    ensures var st := Unavailable(gs, why, now);
            && st == gs.status.(phase := PhaseDegraded, conditions := st.conditions)
            && Becomes(gs.status.conditions, st.conditions, "TemplateResolved", ConditionTrue, "Resolved",
                       "GameTemplate resolved", now, gs.generation)
            && Becomes(gs.status.conditions, st.conditions, "ConfigValid", ConditionTrue, "Valid",
                       "config satisfies template", now, gs.generation)
            && Becomes(gs.status.conditions, st.conditions, "RestoreSourceResolved", ConditionFalse, "Unavailable", why,
                       now, gs.generation)
            && SameBut(gs.status.conditions, st.conditions, MARKED - {"Ready"})
  {
    hide Mark, Valid, Find;
    ValidBecomes(gs, now);
    MarkBecomes(gs, Valid(gs, now), RESTORE_RESOLVED, ConditionFalse, "Unavailable", why, now);
  }

  lemma BadStorageBecomes(gs: GameServer, size: string, now: int)
    ensures var before, st := gs.status.conditions, BadStorage(gs, size, now);
            && st == gs.status.(conditions := st.conditions)
            && Becomes(before, st.conditions, "TemplateResolved", ConditionTrue, "Resolved", "GameTemplate resolved",
                now,
                       gs.generation)
            && Find(st.conditions, "ConfigValid") ==
                 Some(Condition("ConfigValid", ConditionFalse, "InvalidStorage", size, now, gs.generation))
            && (if gs.spec.restoreFrom.Some? then
                  Becomes(before, st.conditions, "RestoreSourceResolved", ConditionTrue, "SnapshotBound",
                          "restoreFrom Backup snapshot ready", now, gs.generation)
                else Find(st.conditions, "RestoreSourceResolved") == Find(before, "RestoreSourceResolved"))
            && SameBut(before, st.conditions, MARKED - {"Ready"})
  {
    hide Mark, Restorable, Find;
    RestorableBecomes(gs, now);
    MarkBecomes(gs, Restorable(gs, now), CONFIG_VALID, ConditionFalse, "InvalidStorage", size, now);
  }

  lemma UnavailableSourceIsReported(sx: Syntax, st: Store, k: Key, gs: GameServer, tpl: GameTemplate, a: Answers,
                                    err: Option<ConfigError>)
    requires HasTemplate(st, k, gs, tpl) && FaultFree(a) && Reported(sx, st, k, a, err)
    requires ValidConfig(sx, gs.spec.config, tpl.spec.configKeys) && !SourceAvailable(st, k, gs)
    ensures var after := ReconcileServer(sx, st, k, a, err);
            && OnlyReported(st, after, k, gs) && AccountIs(st.accounts, after.accounts, k, tpl)
            && var stt := after.servers[k].status;
               && stt == gs.status.(phase := PhaseDegraded, conditions := stt.conditions)
               && Becomes(gs.status.conditions, stt.conditions, "TemplateResolved", ConditionTrue, "Resolved",
                          "GameTemplate resolved", a.now, gs.generation)
               && Becomes(gs.status.conditions, stt.conditions, "ConfigValid", ConditionTrue, "Valid",
                          "config satisfies template", a.now, gs.generation)
               && (exists why :: Becomes(gs.status.conditions, stt.conditions, "RestoreSourceResolved", ConditionFalse,
                                         "Unavailable", why, a.now, gs.generation))
               && SameBut(gs.status.conditions, stt.conditions, MARKED - {"Ready"})
  {
    hide Unavailable, Becomes, SameBut, Embed, ValidConfig, ReportedFor, RestoreSource, SourceAvailable, EnsureAccount,
      AccountIs, FaultFree;
    NoProblem(sx, st, k, gs, tpl, a, err);
    SourceIsAvailable(st, k, gs, a);
    EnsuredStays(Project(st, k), gs.status, tpl, a, a);
    Answered(a);
    var why := RestoreSource(gs, Project(st, k).claim, InputsOf(st, k).backup, a).why;
    UnavailableBecomes(gs, why, a.now);
    EmbedStatus(st, k, gs, ReconcileView(sx, k, InputsOf(st, k), Project(st, k), a, err));
    AccountBuilt(st, k, tpl, Project(st, k), a);
  }

  lemma Answered(a: Answers)
    requires FaultFree(a)
    ensures forall c :: a.Ok(c) && a.Took(c)
  {
  }

  /** A size that does not parse leaves phase and children alone and stamps ConfigValid anew. */
  lemma BadSizeIsReported(sx: Syntax, st: Store, k: Key, gs: GameServer, tpl: GameTemplate, a: Answers,
                          err: Option<ConfigError>, size: string)
    requires HasTemplate(st, k, gs, tpl) && FaultFree(a) && Reported(sx, st, k, a, err)
    requires ValidConfig(sx, gs.spec.config, tpl.spec.configKeys) && SourceAvailable(st, k, gs)
    requires SizeAsked(gs, tpl, size) && !sx.isQuantity(size)
    ensures var after := ReconcileServer(sx, st, k, a, err);
            && OnlyReported(st, after, k, gs) && AccountIs(st.accounts, after.accounts, k, tpl)
            && var before, stt := gs.status.conditions, after.servers[k].status;
               && stt == gs.status.(conditions := stt.conditions)
               && Becomes(before, stt.conditions, "TemplateResolved", ConditionTrue, "Resolved",
                          "GameTemplate resolved", a.now, gs.generation)
               && Find(stt.conditions, "ConfigValid") ==
                    Some(Condition("ConfigValid", ConditionFalse, "InvalidStorage", size, a.now, gs.generation))
               && (if gs.spec.restoreFrom.Some? then
                     Becomes(before, stt.conditions, "RestoreSourceResolved", ConditionTrue, "SnapshotBound",
                             "restoreFrom Backup snapshot ready", a.now, gs.generation)
                   else Find(stt.conditions, "RestoreSourceResolved") == Find(before, "RestoreSourceResolved"))
               && SameBut(before, stt.conditions, MARKED - {"Ready"})
  {
    hide BadStorage, Becomes, SameBut, Find, Embed, ValidConfig, ReportedFor, RestoreSource, SourceAvailable,
      EnsureAccount, AccountIs, FaultFree, ClaimSize, SizeAsked;
    NoProblem(sx, st, k, gs, tpl, a, err);
    SourceIsAvailable(st, k, gs, a);
    SizeIsAsked(gs, tpl);
    EnsuredStays(Project(st, k), gs.status, tpl, a, a);
    Answered(a);
    BadStorageBecomes(gs, size, a.now);
    EmbedStatus(st, k, gs, ReconcileView(sx, k, InputsOf(st, k), Project(st, k), a, err));
    AccountBuilt(st, k, tpl, Project(st, k), a);
  }

  // ---------------------------------------------------------------------------------------------
  // The environment of the pod
  // ---------------------------------------------------------------------------------------------

  /** The environment of the stored Deployment gives every key of the template its variable: an override, else the
      configured value, else the default, else the template's own variable. */
  lemma KeyReachesThePod(sx: Syntax, st: Store, k: Key, gs: GameServer, tpl: GameTemplate, a: Answers,
                         err: Option<ConfigError>, i: nat)
    requires Buildable(sx, st, k, gs, tpl) && FaultFree(a) && Reported(sx, st, k, a, err)
    requires i < |tpl.spec.configKeys|
    ensures var after, key := ReconcileServer(sx, st, k, a, err), tpl.spec.configKeys[i];
            && k in after.deployments
            && PodEnv.Find(after.deployments[k].spec.env, key.envVar) ==
               if PodEnv.LastWith(gs.spec.envOverride, key.envVar).Some? then
                 PodEnv.LastWith(gs.spec.envOverride, key.envVar)
               else if key.name in gs.spec.config then Some(EnvVar(key.envVar, gs.spec.config[key.name], None))
               else if key.default != "" then Some(EnvVar(key.envVar, key.default, None))
               else PodEnv.LastWith(tpl.spec.env, key.envVar)
  {
    hide ReconcileServer, Buildable, Reported, FaultFree, ClaimIs, ServicesAre, AccountIs, StatusIs, PodEnv.Find,
      PodEnv.LastWith, PodEnv.IsMerge;
    StoredEnv(sx, st, k, gs, tpl, a, err);
    AdmittedIffAdmissible(tpl.spec);
    PodEnv.KeyResolution(tpl.spec, gs.spec, i);
  }

  /** Any other variable of the pod is an override's, else the template's own. */
  lemma VariableReachesThePod(sx: Syntax, st: Store, k: Key, gs: GameServer, tpl: GameTemplate, a: Answers,
                              err: Option<ConfigError>, name: string)
    requires Buildable(sx, st, k, gs, tpl) && FaultFree(a) && Reported(sx, st, k, a, err)
    requires forall i :: 0 <= i < |tpl.spec.configKeys| ==> tpl.spec.configKeys[i].envVar != name
    ensures var after := ReconcileServer(sx, st, k, a, err);
            && k in after.deployments
            && PodEnv.Find(after.deployments[k].spec.env, name) ==
               if PodEnv.LastWith(gs.spec.envOverride, name).Some? then PodEnv.LastWith(gs.spec.envOverride, name)
               else PodEnv.LastWith(tpl.spec.env, name)
  {
    hide ReconcileServer, Buildable, Reported, FaultFree, ClaimIs, ServicesAre, AccountIs, StatusIs, PodEnv.Find,
      PodEnv.LastWith, PodEnv.IsMerge;
    StoredEnv(sx, st, k, gs, tpl, a, err);
    PodEnv.OtherVariables(tpl.spec, gs.spec, name);
  }

  lemma StoredEnv(sx: Syntax, st: Store, k: Key, gs: GameServer, tpl: GameTemplate, a: Answers,
      err: Option<ConfigError>)
    requires Buildable(sx, st, k, gs, tpl) && FaultFree(a) && Reported(sx, st, k, a, err)
    ensures var after := ReconcileServer(sx, st, k, a, err);
            k in after.deployments && after.deployments[k].spec.env == PodEnv.ResolvedEnv(tpl.spec, gs.spec)
    ensures Errors(tpl.spec) == [] && ValidConfig(sx, gs.spec.config, tpl.spec.configKeys)
  {
    hide ReconcileServer, Reported, FaultFree, ClaimIs, ServicesAre, AccountIs, StatusIs, PodEnv.IsMerge,
      PodEnv.ResolvedEnv, ValidConfig, Errors, SourceAvailable;
    PassIsExact(sx, st, k, gs, tpl, a, err);
    var after := ReconcileServer(sx, st, k, a, err);
    PodEnv.ResolvedEnvIsTheMerge(tpl.spec, gs.spec, after.deployments[k].spec.env);
  }

  /** In the stored Deployment every required key's variable is set, and wherever no override names it an enum key that
      is configured or defaulted holds one of its choices, a configured int key an int and a configured bool key a
      bool. */
  lemma TypedConfigIsDeployed(sx: Syntax, st: Store, k: Key, gs: GameServer, tpl: GameTemplate, a: Answers,
                              err: Option<ConfigError>, i: nat)
    requires Buildable(sx, st, k, gs, tpl) && FaultFree(a) && Reported(sx, st, k, a, err)
    requires i < |tpl.spec.configKeys|
    ensures var after, key := ReconcileServer(sx, st, k, a, err), tpl.spec.configKeys[i];
            && k in after.deployments
            && var found := PodEnv.Find(after.deployments[k].spec.env, key.envVar);
               && (key.required ==> found.Some?)
               && (PodEnv.LastWith(gs.spec.envOverride, key.envVar).None? ==>
                     && (key.kind == EnumType && (key.name in gs.spec.config || key.default != "") ==>
                           found.Some? && found.value.source.None? && found.value.value in key.choices)
                     && (key.name in gs.spec.config ==>
                           && found.Some? && found.value.source.None? && found.value.value == gs.spec.config[key.name]
                           && (key.kind == IntType ==> sx.isInt(found.value.value))
                           && (key.kind == BoolType ==> sx.isBool(found.value.value))))
  {
    hide ReconcileServer, Buildable, Reported, FaultFree, PodEnv.Find, PodEnv.LastWith, PodEnv.ResolvedEnv, ValidConfig,
      Errors;
    StoredEnv(sx, st, k, gs, tpl, a, err);
    KeyReachesThePod(sx, st, k, gs, tpl, a, err, i);
    PodEnv.TypedConfigReachesThePod(sx, tpl.spec, gs.spec, i);
  }

  /** Exactly when the pod of a server gets a value of the key's type: when it is configured, or the default, which the
      webhook does not check unless the key is an enum, fits. */
  lemma DeployedValueFitsIff(sx: Syntax, st: Store, k: Key, gs: GameServer, tpl: GameTemplate, a: Answers,
                             err: Option<ConfigError>, i: nat)
    requires Buildable(sx, st, k, gs, tpl) && FaultFree(a) && Reported(sx, st, k, a, err)
    requires i < |tpl.spec.configKeys|
    requires var key := tpl.spec.configKeys[i];
             && PodEnv.LastWith(gs.spec.envOverride, key.envVar).None?
             && (key.name in gs.spec.config || key.default != "")
    ensures var after, key := ReconcileServer(sx, st, k, a, err), tpl.spec.configKeys[i];
            && k in after.deployments
            && var found := PodEnv.Find(after.deployments[k].spec.env, key.envVar);
               && found.Some? && found.value.source.None?
               && (Allows(sx, key, found.value.value) <==> key.name in gs.spec.config || Allows(sx, key, key.default))
               && (key.kind == EnumType ==> Allows(sx, key, found.value.value))
  {
    hide ReconcileServer, Buildable, Reported, FaultFree, PodEnv.Find, PodEnv.LastWith, PodEnv.ResolvedEnv, ValidConfig,
      Errors, Fits, Allows;
    StoredEnv(sx, st, k, gs, tpl, a, err);
    PodEnv.ValueFitsIff(sx, tpl.spec, gs.spec, i);
    var key, env := tpl.spec.configKeys[i], ReconcileServer(sx, st, k, a, err).deployments[k].spec.env;
    FitsIsAllows(sx, PodEnv.Find(env, key.envVar).value.value);
    FitsIsAllows(sx, key.default);
  }
}
