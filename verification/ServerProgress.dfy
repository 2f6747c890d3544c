/** How far one reconcile of a GameServer gets, call by call, and exactly which parts of the store it has written then:
    every write follows the answers before it, and the first one that fails ends the pass. */
module ServerProgress {
  import opened Prelude
  import opened Conditions
  import opened Objects
  import opened GameTypes
  import opened Config
  import opened Services
  import opened Stores
  import opened ServerViews
  import opened GameServers
  import opened GameServerReconcilers
  import opened ServerStatuses
  import opened ServerFixpoints
  import opened ServerOutcomes

  // ---------------------------------------------------------------------------------------------
  // Stages
  // ---------------------------------------------------------------------------------------------

  /** Server and template are read, and the configuration is accepted. */
  predicate Accepted(i: Inputs, v: View, a: Answers, err: Option<ConfigError>) {
    a.Ok(GetServer) && v.server.Some? && a.Ok(GetTemplate) && i.template.Some? && err.None?
  }

  /** The account is looked for, and created when it is missing. */
  predicate CreatesAccount(i: Inputs, v: View, a: Answers, err: Option<ConfigError>) {
    Accepted(i, v, a, err) && !i.template.value.spec.anyUID && a.Ok(GetAccount) && v.account.None?
  }

  predicate HasAccount(i: Inputs, v: View, a: Answers, err: Option<ConfigError>) {
    && Accepted(i, v, a, err)
    && (i.template.value.spec.anyUID || (a.Ok(GetAccount) && (v.account.Some? || a.Ok(CreateAccount))))
  }

  /** No restore is asked for, or the claim exists, or the Backup is ready and names its snapshot. */
  predicate HasSource(i: Inputs, v: View, a: Answers, err: Option<ConfigError>) {
    && HasAccount(i, v, a, err)
    && (|| v.server.value.spec.restoreFrom.None?
        || (&& a.Ok(ProbeClaim)
            && (|| v.claim.Some?
                || (&& a.Ok(GetBackup) && i.backup.Some? && i.backup.value.status.phase == BackupReady
                    && i.backup.value.status.volumeSnapshotName != ""))))
  }

  ghost predicate HasSize(sx: Syntax, i: Inputs, v: View, a: Answers, err: Option<ConfigError>) {
    HasSource(i, v, a, err) && exists size :: SizeAsked(v.server.value, i.template.value, size) && sx.isQuantity(size)
  }

  predicate ClaimFits(k: Key, v: View) {
    v.server.Some? && v.claim.Some? && ChildLabels(v.claim.value.labels, k.name, v.server.value.spec.template)
  }

  ghost predicate WritesClaim(sx: Syntax, k: Key, i: Inputs, v: View, a: Answers, err: Option<ConfigError>) {
    HasSize(sx, i, v, a, err) && a.Ok(GetClaim) && !ClaimFits(k, v) && a.Took(WriteClaim)
  }

  ghost predicate HasClaim(sx: Syntax, k: Key, i: Inputs, v: View, a: Answers, err: Option<ConfigError>) {
    HasSize(sx, i, v, a, err) && a.Ok(GetClaim) && (ClaimFits(k, v) || a.Ok(WriteClaim))
  }

  ghost predicate WritesDeployment(sx: Syntax, k: Key, i: Inputs, v: View, a: Answers, err: Option<ConfigError>) {
    HasClaim(sx, k, i, v, a, err) && a.Ok(GetDeployment) && a.Took(WriteDeployment)
  }

  ghost predicate HasDeployment(sx: Syntax, k: Key, i: Inputs, v: View, a: Answers, err: Option<ConfigError>) {
    HasClaim(sx, k, i, v, a, err) && a.Ok(GetDeployment) && a.Ok(WriteDeployment)
  }

  /** A Service is applied: read, written, and read again when it was created. */
  predicate Serves(v: View, e: Exposure, a: Answers) {
    a.Ok(GetService(e)) && a.Ok(WriteService(e)) && (v.services.At(e).None? ==> a.Ok(RereadService(e)))
  }

  predicate ServesBefore(v: View, desired: seq<NamedService>, a: Answers, n: int) {
    forall j :: 0 <= j < n && j < |desired| ==> Serves(v, desired[j].service.kind, a)
  }

  /** The pass gets to the n-th desired Service and its write takes effect. */
  ghost predicate WritesServiceAt(sx: Syntax, k: Key, i: Inputs, v: View, a: Answers, err: Option<ConfigError>,
                                  desired: seq<NamedService>, n: int) {
    && HasDeployment(sx, k, i, v, a, err) && 0 <= n < |desired| && ServesBefore(v, desired, a, n)
    && a.Ok(GetService(desired[n].service.kind)) && a.Took(WriteService(desired[n].service.kind))
  }

  ghost predicate Finishes(sx: Syntax, k: Key, i: Inputs, v: View, a: Answers, err: Option<ConfigError>,
                           desired: seq<NamedService>) {
    && HasDeployment(sx, k, i, v, a, err) && ServesBefore(v, desired, a, |desired|)
    && a.Ok(RefreshDeployment)
  }

  // ---------------------------------------------------------------------------------------------
  // The stages are the reconciler's
  // ---------------------------------------------------------------------------------------------

  lemma AccountStage(i: Inputs, v: View, a: Answers, err: Option<ConfigError>)
    requires Accepted(i, v, a, err)
    ensures var s := EnsureAccount(v, i.template.value, a);
            && s.ok == HasAccount(i, v, a, err)
            && s.view == v.(account := if CreatesAccount(i, v, a, err) && a.Took(CreateAccount)
                                       then Some(STANDARD_ACCOUNT) else v.account)
  {
  }

  lemma SourceStage(i: Inputs, v: View, a: Answers, err: Option<ConfigError>)
    requires HasAccount(i, v, a, err)
    ensures RestoreSource(v.server.value, v.claim, i.backup, a).NoSuch? <==> !HasSource(i, v, a, err)
  {
  }

  lemma SizeStage(sx: Syntax, i: Inputs, v: View, a: Answers, err: Option<ConfigError>)
    requires HasSource(i, v, a, err)
    ensures sx.isQuantity(ClaimSize(v.server.value, i.template.value)) <==> HasSize(sx, i, v, a, err)
  {
    SizeIsAsked(v.server.value, i.template.value);
  }

  lemma LabelsSpelled(name: string, template: string)
    ensures forall labels :: ChildLabels(labels, name, template) <==> labels == BaseLabels(name, template)
  {
  }

  /** What the Services end up as, whichever calls fail. */
  lemma {:induction false} ServiceStages(v: View, desired: seq<NamedService>, a: Answers)
    requires KindsDiffer(desired)
    ensures var s := ApplyServices(v, desired, a);
            && s.ok == ServesBefore(v, desired, a, |desired|)
            && s.view == v.(services := s.view.services)
            && SlotsAfter(v, s.view.services, desired, a)
  {
    hide Applied, Serves;
    if desired != [] {
      var n := |desired| - 1;
      ServiceStages(v, desired[..n], a);
      LastStage(v, ApplyServices(v, desired[..n], a).view, desired, a);
    }
  }

  /** Every slot holds the desired Service applied over what it held, if its write took effect and everything before it
      went through; otherwise what it held. */
  ghost predicate SlotsAfter(v: View, after: Exposed, desired: seq<NamedService>, a: Answers) {
    && (forall n :: 0 <= n < |desired| ==> SlotAfter(v, after, desired, a, n))
    && (forall e :: (forall n :: 0 <= n < |desired| ==> desired[n].service.kind != e) ==>
          after.At(e) == v.services.At(e))
  }

  predicate SlotAfter(v: View, after: Exposed, desired: seq<NamedService>, a: Answers, n: int)
    requires 0 <= n < |desired|
  {
    var e := desired[n].service.kind;
    after.At(e) ==
    if ServesBefore(v, desired, a, n) && a.Ok(GetService(e)) && a.Took(WriteService(e)) then
      Some(Applied(a.alloc(e), v.services.At(e), desired[n].service))
    else v.services.At(e)
  }

  lemma LastStage(v: View, mid: View, desired: seq<NamedService>, a: Answers)
    requires KindsDiffer(desired) && desired != [] && mid == v.(services := mid.services)
    requires SlotsAfter(v, mid.services, desired[..|desired| - 1], a)
    ensures var n := |desired| - 1;
            var e := desired[n].service.kind;
            var s := if ServesBefore(v, desired[..n], a, n) then ApplyService(mid, e, desired[n].service, a)
                     else Stage(mid, false);
            && s.ok == ServesBefore(v, desired, a, |desired|)
            && s.view == v.(services := s.view.services)
            && SlotsAfter(v, s.view.services, desired, a)
  {
    hide Applied;
    var n := |desired| - 1;
    var before, e := desired[..n], desired[n].service.kind;
    assert forall j :: 0 <= j < n ==> before[j] == desired[j];
    assert mid.services.At(e) == v.services.At(e);
    assert forall m :: 0 <= m <= n ==> (ServesBefore(v, before, a, m) <==> ServesBefore(v, desired, a, m));
    var s := if ServesBefore(v, before, a, n) then ApplyService(mid, e, desired[n].service, a) else Stage(mid, false);
    forall m | 0 <= m < n
      ensures SlotAfter(v, s.view.services, desired, a, m)
    {
      assert SlotAfter(v, mid.services, before, a, m);
    }
  }

  // ---------------------------------------------------------------------------------------------
  // The whole pass
  // ---------------------------------------------------------------------------------------------

  /** Which parts a pass has written: each exactly when the calls up to its write were answered and the write took
      effect.  Everything else is what it was. */
  ghost predicate Progress(sx: Syntax, k: Key, i: Inputs, v: View, a: Answers, err: Option<ConfigError>, after: View) {
    && after.account == (if CreatesAccount(i, v, a, err) && a.Took(CreateAccount) then Some(STANDARD_ACCOUNT)
                         else v.account)
    && (!HasSize(sx, i, v, a, err) ==>
          after.claim == v.claim && after.deployment == v.deployment && after.services == v.services)
    && (HasSize(sx, i, v, a, err) ==>
          var gs, tpl := v.server.value, i.template.value;
          var desired := DesiredServices(k, gs, tpl);
          && after.claim == (if WritesClaim(sx, k, i, v, a, err) then
                               Some(AppliedClaim(v.claim, BuildPVC(k.name, gs, tpl,
                                   RestoreSource(gs, v.claim, i.backup, a))))
                             else v.claim)
          && after.deployment == (if WritesDeployment(sx, k, i, v, a, err) then
                                    Some(AppliedDeployment(v.deployment, BuildDeployment(k.name, gs, tpl)))
                                  else v.deployment)
          && (if HasDeployment(sx, k, i, v, a, err) then SlotsAfter(v, after.services, desired, a)
              else after.services == v.services)
          && after.server == (if Finishes(sx, k, i, v, a, err, desired) && a.Took(WriteStatus) then
                                Some(With(gs, Finished(k, gs, tpl, after.deployment.value.readyReplicas,
                                                       AppliedServices(after, desired), a.now)))
                              else v.server))
  }

  lemma ChildrenProgress(sx: Syntax, k: Key, i: Inputs, v: View, a: Answers, err: Option<ConfigError>, w: View)
    requires HasSize(sx, i, v, a, err) && w == v.(account := w.account)
    ensures var gs, tpl := v.server.value, i.template.value;
            var after := ReconcileChildren(k, gs, tpl, RestoreSource(gs, v.claim, i.backup, a), w, a);
            after.account == w.account && Progress(sx, k, i, v, a, err, after.(account :=
                if CreatesAccount(i, v, a, err) && a.Took(CreateAccount) then Some(STANDARD_ACCOUNT) else v.account))
  {
    hide HasSize, BuildPVC, BuildDeployment, Finished, ApplyServices, DesiredServices, ServesBefore, SlotAfter,
      RestoreSource, AppliedDeployment, AppliedClaim, Applied, SlotsAfter, ChildLabels, BaseLabels, HasSource,
      HasAccount;
    StagesFollow(sx, i, v, a, err);
    var gs, tpl := v.server.value, i.template.value;
    var claimed := ApplyClaim(w, BuildPVC(k.name, gs, tpl, RestoreSource(gs, v.claim, i.backup, a)), a);
    var deployed := ApplyDeployment(claimed.view, BuildDeployment(k.name, gs, tpl), a);
    var desired := DesiredServices(k, gs, tpl);
    LabelsSpelled(k.name, gs.spec.template);
    ClaimLabels(k.name, gs, tpl, RestoreSource(gs, v.claim, i.backup, a));
    DesiredSlots(k, gs, tpl);
    ServiceStages(deployed.view, desired, a);
    SameSlots(deployed.view, v, desired, a);
  }

  lemma ClaimLabels(name: string, gs: GameServer, tpl: GameTemplate, source: Source)
    ensures BuildPVC(name, gs, tpl, source).labels == BaseLabels(name, gs.spec.template)
  {
  }

  /** The stages of the Services look at their slots only. */
  lemma SameSlots(w: View, v: View, desired: seq<NamedService>, a: Answers)
    requires w.services == v.services
    ensures forall n :: ServesBefore(w, desired, a, n) <==> ServesBefore(v, desired, a, n)
    ensures forall after :: SlotsAfter(w, after, desired, a) <==> SlotsAfter(v, after, desired, a)
  {
    hide Applied;
    forall n
      ensures ServesBefore(w, desired, a, n) <==> ServesBefore(v, desired, a, n)
    {
    }
    forall after, n | 0 <= n < |desired|
      ensures SlotAfter(w, after, desired, a, n) <==> SlotAfter(v, after, desired, a, n)
    {
    }
  }

  /** Whichever calls fail, a reconcile has written exactly what the answers before each write allowed. */
  lemma PassIsStepwise(sx: Syntax, k: Key, i: Inputs, v: View, a: Answers, err: Option<ConfigError>)
    ensures Progress(sx, k, i, v, a, err, ReconcileView(sx, k, i, v, a, err))
  {
    hide RestoreSource, EnsureAccount, ReconcileChildren, HasSize, ClaimSize, TemplateMissing, Invalid, Unavailable,
      BadStorage, HasAccount, HasSource, CreatesAccount, WritesClaim, WritesDeployment, HasDeployment, Finishes,
      AppliedClaim, BuildPVC, BuildDeployment, AppliedDeployment, DesiredServices, SlotsAfter;
    StagesFollow(sx, i, v, a, err);
    if Accepted(i, v, a, err) {
      AccountStage(i, v, a, err);
      if HasAccount(i, v, a, err) {
        SourceStage(i, v, a, err);
        if HasSource(i, v, a, err) {
          SizeStage(sx, i, v, a, err);
          if HasSize(sx, i, v, a, err) {
            ChildrenProgress(sx, k, i, v, a, err, EnsureAccount(v, i.template.value, a).view);
          }
        }
      }
    }
  }

  lemma StagesFollow(sx: Syntax, i: Inputs, v: View, a: Answers, err: Option<ConfigError>)
    ensures HasSize(sx, i, v, a, err) ==> HasSource(i, v, a, err)
    ensures HasSource(i, v, a, err) ==> HasAccount(i, v, a, err)
    ensures HasAccount(i, v, a, err) || CreatesAccount(i, v, a, err) ==> Accepted(i, v, a, err)
  {
  }
}
