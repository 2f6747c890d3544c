/** The GameServer reconciler: what one pass over a server leaves in the store, whichever of its calls fail. */
module GameServers {
  import opened Prelude
  import opened Conditions
  import opened Objects
  import opened GameTypes
  import opened Config
  import opened Services
  import opened Address
  import opened Stores
  import opened ServerViews
  import PodEnv

  const READY := "Ready"
  const TEMPLATE_RESOLVED := "TemplateResolved"
  const CONFIG_VALID := "ConfigValid"
  const RESTORE_RESOLVED := "RestoreSourceResolved"

  /** The API calls of one reconcile, in the order they are made. */
  datatype Call =
    | GetServer | GetTemplate
    | GetAccount | CreateAccount
    | ProbeClaim | GetBackup
    | GetClaim | WriteClaim
    | GetDeployment | WriteDeployment
    | GetService(exposure: Exposure) | WriteService(exposure: Exposure) | RereadService(exposure: Exposure)
    | RefreshDeployment
    | WriteStatus

  /** What a reconcile's calls come to, the time it stamps conditions with, and what the apiserver would assign. */
  datatype Answers = Answers(now: int, fate: Call -> CallResult, alloc: Exposure -> Allocation)
  {
    predicate Ok(c: Call) { fate(c).Acknowledged? }

    predicate Took(c: Call) { fate(c).TookEffect() }
  }

  /** What a reconcile reads but never writes. */
  datatype Inputs = Inputs(template: Option<GameTemplate>, backup: Option<Backup>)

  /** What a stage leaves behind, and whether the reconcile goes on. */
  datatype Stage = Stage(view: View, ok: bool)

  // ---------------------------------------------------------------------------------------------
  // Status
  // ---------------------------------------------------------------------------------------------

  function Mark(gs: GameServer, st: ServerStatus, kind: string, s: ConditionStatus, reason: string, message: string,
                now: int)
    : ServerStatus
  {
    st.(conditions := Put(st.conditions, Change(kind, s, reason, message, now, gs.generation)))
  }

  function StoreStatus(v: View, st: ServerStatus, a: Answers): View
    requires v.server.Some?
  {
    if a.Took(WriteStatus) then v.(server := Some(v.server.value.(status := st))) else v
  }

  function Complaint(e: ConfigError): (s: string)
    ensures |s| == 12
  {
    match e
    case UnknownKey(_) => "unknown key "
    case NotAnInt(_) => "not an int: "
    case NotABool(_) => "not a bool: "
    case NotInEnum(_) => "not in enum "
    case MissingRequired(_) => "missing key "
  }

  function Describe(e: ConfigError): string {
    Complaint(e) + e.key
  }

  function TemplateMissing(gs: GameServer, now: int): ServerStatus {
    Mark(gs, gs.status, TEMPLATE_RESOLVED, ConditionFalse, "NotFound", gs.spec.template, now).(phase := PhasePending)
  }

  function Resolved(gs: GameServer, now: int): ServerStatus {
    Mark(gs, gs.status, TEMPLATE_RESOLVED, ConditionTrue, "Resolved", "GameTemplate resolved", now)
  }

  function Invalid(gs: GameServer, e: ConfigError, now: int): ServerStatus {
    Mark(gs, Resolved(gs, now), CONFIG_VALID, ConditionFalse, "Invalid", Describe(e), now).(phase := PhaseDegraded)
  }

  function Valid(gs: GameServer, now: int): ServerStatus {
    Mark(gs, Resolved(gs, now), CONFIG_VALID, ConditionTrue, "Valid", "config satisfies template", now)
  }

  function Unavailable(gs: GameServer, why: string, now: int): ServerStatus {
    Mark(gs, Valid(gs, now), RESTORE_RESOLVED, ConditionFalse, "Unavailable", why, now).(phase := PhaseDegraded)
  }

  function Restorable(gs: GameServer, now: int): ServerStatus {
    if gs.spec.restoreFrom.Some? then
      Mark(gs, Valid(gs, now), RESTORE_RESOLVED, ConditionTrue, "SnapshotBound", "restoreFrom Backup snapshot ready",
          now)
    else Valid(gs, now)
  }

  /** The phase is left as it was. */
  function BadStorage(gs: GameServer, size: string, now: int): ServerStatus {
    Mark(gs, Restorable(gs, now), CONFIG_VALID, ConditionFalse, "InvalidStorage", size, now)
  }

  function Finished(k: Key, gs: GameServer, tpl: GameTemplate, replicas: int, applied: seq<NamedService>,
                    now: int): ServerStatus {
    var st := Restorable(gs, now).(readyReplicas := replicas, observedGeneration := gs.generation,
                                   templateGeneration := tpl.generation,
                                   address := AddressOf(k.ns, k.name, gs.spec.exposeOverride, tpl.spec.ports, applied));
    if gs.spec.suspend then
      Mark(gs, st, READY, ConditionFalse, "Suspended", "spec.suspend=true", now).(phase := PhaseStopped)
    else if replicas >= 1 then
      Mark(gs, st, READY, ConditionTrue, "PodReady", "pod is Ready", now).(phase := PhaseReady)
    else
      Mark(gs, st, READY, ConditionFalse, "PodNotReady", "waiting for pod to become Ready",
          now).(phase := PhaseProvisioning)
  }

  // ---------------------------------------------------------------------------------------------
  // Children
  // ---------------------------------------------------------------------------------------------

  const STANDARD_ACCOUNT: Labels :=
    map["app.kubernetes.io/name" := "gameserver", "app.kubernetes.io/managed-by" := "gameserver-operator"]

  function EnsureAccount(v: View, tpl: GameTemplate, a: Answers): Stage {
    if tpl.spec.anyUID then Stage(v, true)
    else if !a.Ok(GetAccount) || v.account.Some? then Stage(v, a.Ok(GetAccount))
    else Stage(if a.Took(CreateAccount) then v.(account := Some(STANDARD_ACCOUNT)) else v, a.Ok(CreateAccount))
  }

  /** Which snapshot, if any, a claim is to be seeded from. */
  datatype Source = NoSource | Snapshot(name: string) | NoSuch(why: string)

  function RestoreSource(gs: GameServer, claim: Option<PVC>, backup: Option<Backup>, a: Answers): Source {
    if gs.spec.restoreFrom.None? then NoSource
    else if !a.Ok(ProbeClaim) then NoSuch("claim unreadable")
    else if claim.Some? then NoSource
    else if !a.Ok(GetBackup) then NoSuch("backup unreadable")
    else if backup.None? then NoSuch("backup not found")
    else if backup.value.status.phase != BackupReady then NoSuch("backup not Ready")
    else if backup.value.status.volumeSnapshotName == "" then NoSuch("backup names no snapshot")
    else Snapshot(backup.value.status.volumeSnapshotName)
  }

  function ClaimSize(gs: GameServer, tpl: GameTemplate): string {
    if gs.spec.size != "" then gs.spec.size
    else if tpl.spec.defaultSize != "" then tpl.spec.defaultSize
    else "10Gi"
  }

  function BuildPVC(name: string, gs: GameServer, tpl: GameTemplate, source: Source): PVC {
    PVC(BaseLabels(name, gs.spec.template), ClaimSize(gs, tpl),
        if gs.spec.className != "" then Some(gs.spec.className) else None,
        if source.Snapshot? && source.name != "" then Some(source.name) else None,
        Some(name))
  }

  /** Create if missing; an existing claim only ever gets its labels back. */
  function AppliedClaim(existing: Option<PVC>, desired: PVC): PVC {
    if existing.None? then desired else existing.value.(labels := desired.labels)
  }

  function ApplyClaim(v: View, desired: PVC, a: Answers): Stage {
    if !a.Ok(GetClaim) then Stage(v, false)
    else if v.claim.Some? && v.claim.value.labels == desired.labels then Stage(v, true)
    else Stage(if a.Took(WriteClaim) then v.(claim := Some(AppliedClaim(v.claim, desired))) else v, a.Ok(WriteClaim))
  }

  ghost function BuildDeployment(name: string, gs: GameServer, tpl: GameTemplate): Deployment {
    Deployment(BaseLabels(name, gs.spec.template),
               DeploymentSpec(if gs.spec.suspend then 0 else 1, SelectorLabels(name), BaseLabels(name,
                   gs.spec.template),
                              if tpl.spec.anyUID then ANYUID else RESTRICTED, tpl.spec.image,
                              PodEnv.ResolvedEnv(tpl.spec, gs.spec), PVCName(name)),
               0)
  }

  function AppliedDeployment(existing: Option<Deployment>, desired: Deployment): Deployment {
    if existing.None? then desired else existing.value.(labels := desired.labels, spec := desired.spec)
  }

  function ApplyDeployment(v: View, desired: Deployment, a: Answers): Stage {
    if !a.Ok(GetDeployment) then Stage(v, false)
    else Stage(if a.Took(WriteDeployment) then v.(deployment := Some(AppliedDeployment(v.deployment, desired))) else v,
               a.Ok(WriteDeployment))
  }

  function ApplyService(v: View, e: Exposure, desired: Service, a: Answers): Stage {
    if !a.Ok(GetService(e)) then Stage(v, false)
    else
      var stored := Applied(a.alloc(e), v.services.At(e), desired);
      Stage(if a.Took(WriteService(e)) then v.(services := v.services.With(e, stored)) else v,
            a.Ok(WriteService(e)) && (v.services.At(e).None? ==> a.Ok(RereadService(e))))
  }

  /** Services are applied one after the other; the first failure ends the pass. */
  function ApplyServices(v: View, desired: seq<NamedService>, a: Answers): Stage {
    if desired == [] then Stage(v, true)
    else
      var n := |desired| - 1;
      var before := ApplyServices(v, desired[..n], a);
      if before.ok then ApplyService(before.view, desired[n].service.kind, desired[n].service, a) else before
  }

  /** The Services a status is computed from: those stored under the desired names. */
  function AppliedServices(v: View, desired: seq<NamedService>): (applied: seq<NamedService>)
    ensures |applied| == |desired|
  {
    seq(|desired|, i requires 0 <= i < |desired| =>
      var stored := v.services.At(desired[i].service.kind);
      if stored.Some? then NamedService(desired[i].name, stored.value) else desired[i])
  }

  // ---------------------------------------------------------------------------------------------
  // One reconcile
  // ---------------------------------------------------------------------------------------------

  function DesiredServices(k: Key, gs: GameServer, tpl: GameTemplate): seq<NamedService> {
    ServicesFor(k.name, gs.spec.template, gs.spec.exposeOverride, tpl.spec.ports)
  }

  ghost function ReconcileChildren(k: Key, gs: GameServer, tpl: GameTemplate, source: Source, v: View, a: Answers): View
    requires v.server == Some(gs)
  {
    var claimed := ApplyClaim(v, BuildPVC(k.name, gs, tpl, source), a);
    if !claimed.ok then claimed.view
    else
      var deployed := ApplyDeployment(claimed.view, BuildDeployment(k.name, gs, tpl), a);
      if !deployed.ok then deployed.view
      else
        var desired := DesiredServices(k, gs, tpl);
        var served := ApplyServices(deployed.view, desired, a);
        ServicesKeepTheRest(deployed.view, desired, a);
        if !served.ok || !a.Ok(RefreshDeployment) || served.view.deployment.None? then served.view
        else
          StoreStatus(served.view,
                      Finished(k, gs, tpl, served.view.deployment.value.readyReplicas,
                               AppliedServices(served.view, desired), a.now), a)
  }

  lemma {:induction false} ServicesKeepTheRest(v: View, desired: seq<NamedService>, a: Answers)
    ensures var after := ApplyServices(v, desired, a).view;
            after == v.(services := after.services)
  {
    if desired != [] {
      ServicesKeepTheRest(v, desired[..|desired| - 1], a);
    }
  }

  ghost function ReconcileResolved(sx: Syntax, k: Key, gs: GameServer, tpl: GameTemplate, backup: Option<Backup>,
                                   v: View, a: Answers, err: Option<ConfigError>): View
    requires v.server == Some(gs)
  {
    if err.Some? then StoreStatus(v, Invalid(gs, err.value, a.now), a)
    else
      var ensured := EnsureAccount(v, tpl, a);
      if !ensured.ok then ensured.view
      else
        var source := RestoreSource(gs, v.claim, backup, a);
        if source.NoSuch? then StoreStatus(ensured.view, Unavailable(gs, source.why, a.now), a)
        else if !sx.isQuantity(ClaimSize(gs, tpl)) then StoreStatus(ensured.view, BadStorage(gs, ClaimSize(gs, tpl),
            a.now), a)
        else ReconcileChildren(k, gs, tpl, source, ensured.view, a)
  }

  /** What one reconcile makes of a server's part of the store; `err` is the problem validation reports, if any. */
  ghost function ReconcileView(sx: Syntax, k: Key, i: Inputs, v: View, a: Answers, err: Option<ConfigError>): View {
    if !a.Ok(GetServer) || v.server.None? || !a.Ok(GetTemplate) then v
    else if i.template.None? then StoreStatus(v, TemplateMissing(v.server.value, a.now), a)
    else ReconcileResolved(sx, k, v.server.value, i.template.value, i.backup, v, a, err)
  }

  function InputsOf(st: Store, k: Key): Inputs {
    if k !in st.servers then Inputs(None, None)
    else
      var spec := st.servers[k].spec;
      Inputs(Get(st.templates, spec.template),
             if spec.restoreFrom.Some? then Get(st.backups, Key(k.ns, spec.restoreFrom.value)) else None)
  }

  ghost function ReconcileServer(sx: Syntax, st: Store, k: Key, a: Answers, err: Option<ConfigError>): Store {
    Embed(st, k, ReconcileView(sx, k, InputsOf(st, k), Project(st, k), a, err))
  }

  /** Different problems are described differently. */
  lemma DescriptionsDiffer(e: ConfigError, f: ConfigError)
    ensures Describe(e) == Describe(f) <==> e == f
  {
    if Describe(e) == Describe(f) {
      assert Describe(e)[..12] == Complaint(e) && Describe(f)[..12] == Complaint(f);
      assert Describe(e)[12..] == e.key && Describe(f)[12..] == f.key;
      assert Complaint(e)[0] == Complaint(f)[0] && Complaint(e)[5] == Complaint(f)[5];
      assert Complaint(e)[7] == Complaint(f)[7];
    }
  }

  /** `err` is what validation reports on some walk over the configuration, if the reconcile gets as far as
      validating. */
  ghost predicate Reported(sx: Syntax, st: Store, k: Key, a: Answers, err: Option<ConfigError>) {
    k in st.servers && a.Ok(GetServer) && a.Ok(GetTemplate) && InputsOf(st, k).template.Some? ==>
      ReportedFor(sx, st.servers[k].spec.config, InputsOf(st, k).template.value.spec.configKeys, err)
  }

  ghost predicate ReportedFor(sx: Syntax, config: map<string, string>, keys: seq<ConfigKey>, err: Option<ConfigError>) {
    exists visited :: IsWalk(visited, config) && err == FirstProblem(sx, config, keys, visited)
  }
}
