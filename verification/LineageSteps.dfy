/** The steps of the restore runs are the GameServer reconciler's own. */
module LineageSteps {
  import opened Prelude
  import opened Objects
  import opened GameTypes
  import opened Config
  import opened Services
  import opened Stores
  import opened ServerViews
  import opened GameServers
  import opened GameServerReconcilers
  import opened ServerFixpoints
  import opened RestoreLineage

  /** The pass gets as far as applying the claim. */
  predicate ReachesClaim(sx: Syntax, i: Inputs, v: View, a: Answers, err: Option<ConfigError>) {
    && a.Ok(GetServer) && v.server.Some? && a.Ok(GetTemplate) && i.template.Some? && err.None?
    && EnsureAccount(v, i.template.value, a).ok
    && !RestoreSource(v.server.value, v.claim, i.backup, a).NoSuch?
    && sx.isQuantity(ClaimSize(v.server.value, i.template.value))
  }

  function DesiredClaim(k: Key, i: Inputs, v: View, a: Answers): PVC
    requires v.server.Some? && i.template.Some?
  {
    var gs := v.server.value;
    BuildPVC(k.name, gs, i.template.value, RestoreSource(gs, v.claim, i.backup, a))
  }

  lemma ChildrenLeaveTheClaim(k: Key, gs: GameServer, tpl: GameTemplate, source: Source, v: View, a: Answers)
    requires v.server == Some(gs)
    ensures ReconcileChildren(k, gs, tpl, source, v, a).claim
            == ApplyClaim(v, BuildPVC(k.name, gs, tpl, source), a).view.claim
  {
    hide BuildPVC, BuildDeployment, DesiredServices, Finished, ApplyServices, AppliedServices, AppliedClaim,
      AppliedDeployment;
    var claimed := ApplyClaim(v, BuildPVC(k.name, gs, tpl, source), a);
    var deployed := ApplyDeployment(claimed.view, BuildDeployment(k.name, gs, tpl), a);
    ServicesKeepTheRest(deployed.view, DesiredServices(k, gs, tpl), a);
  }

  /** What a whole reconcile makes of the claim is what applying it makes of it; a pass that does not get there leaves
      it alone. */
  lemma ReconcileAppliesTheClaim(sx: Syntax, k: Key, i: Inputs, v: View, a: Answers, err: Option<ConfigError>)
    ensures ReconcileView(sx, k, i, v, a, err).claim ==
            if ReachesClaim(sx, i, v, a, err) then ApplyClaim(v, DesiredClaim(k, i, v, a), a).view.claim else v.claim
  {
    hide RestoreSource, ReconcileChildren, TemplateMissing, Invalid, Unavailable, BadStorage, BuildPVC, AppliedClaim,
      ClaimSize;
    if v.server.Some? && i.template.Some? {
      var gs, tpl := v.server.value, i.template.value;
      var source := RestoreSource(gs, v.claim, i.backup, a);
      ChildrenLeaveTheClaim(k, gs, tpl, source, EnsureAccount(v, tpl, a).view, a);
    }
  }

  /** A write to a server's part that leaves its claim and its restoreFrom alone is an outside step. */
  lemma OutsideTheClaim(f: Fixed, s: State, s': State, k: Key, w: View)
    requires Shaped(f, s.store) && s' == s.(store := Embed(s.store, k, w)) && w.claim == ClaimOf(s.store, k)
    requires match Get(s.store.servers, k)
             case None => w.server.None?
             case Some(gs) => w.server.Some? && w.server.value.spec.restoreFrom == gs.spec.restoreFrom
    ensures OutsideStep(f, s, s')
  {
    hide SetServices, PVCName, Set;
    SetBack(s.store.pvcs, ClaimKey(k));
    forall j | j in s'.store.servers
      ensures s'.store.servers[j].spec.restoreFrom == f.restoreFrom(j)
    {
      assert Get(s'.store.servers, j) == if j == k then w.server else Get(s.store.servers, j);
    }
  }

  /** Writing a claim alone leaves the servers and Backups as they were. */
  lemma ClaimWritten(f: Fixed, st: Store, k: Key, claim: Option<PVC>)
    requires Shaped(f, st)
    ensures var after := Embed(st, k, Project(st, k).(claim := claim));
            Shaped(f, after) && after.servers == st.servers && ClaimOf(after, k) == claim
  {
    hide SetServices, PVCName, Set;
    PartsBack(st, k);
  }

  /** A whole GameServer reconcile, as the reconciler's postcondition states it, is a sequence of the runs' steps: one
      that gets to the claim resolves its source, applies the claim and does the rest from outside; any other is an
      outside step. */
  lemma ReconcileTakesLineageSteps(f: Fixed, sx: Syntax, s: State, s': State, k: Key, a: Answers,
                                   err: Option<ConfigError>)
    requires Shaped(f, s.store) && k !in s.pending
    requires s' == s.(store := ReconcileServer(sx, s.store, k, a, err))
    ensures var i, v := InputsOf(s.store, k), Project(s.store, k);
            if ReachesClaim(sx, i, v, a, err) then
              exists resolved, applied ::
                && ResolveStep(s, resolved, k, i.template.value, a) && k in resolved.pending
                && ApplyStep(resolved, applied, k, a) && OutsideStep(f, applied, s')
            else OutsideStep(f, s, s')
  {
    hide ReconcileView, Embed, Shaped, OutsideStep, ApplyClaim, BuildPVC, RestoreSource, EnsureAccount, ClaimSize;
    var st := s.store;
    var i, v := InputsOf(st, k), Project(st, k);
    var w := ReconcileView(sx, k, i, v, a, err);
    ReconcileAppliesTheClaim(sx, k, i, v, a, err);
    SpecStays(sx, k, i, v, a, err);
    if ReachesClaim(sx, i, v, a, err) {
      var gs, tpl := v.server.value, i.template.value;
      var source := RestoreSource(gs, v.claim, i.backup, a);
      var stage := ApplyClaim(v, DesiredClaim(k, i, v, a), a);
      ClaimOnly(v, DesiredClaim(k, i, v, a), a);
      var resolved := s.(pending := s.pending[k := Pending(gs, tpl, source)]);
      var applied := State(Embed(st, k, stage.view), s.pending);
      assert resolved.pending - {k} == s.pending;
      assert ResolveStep(s, resolved, k, tpl, a);
      assert ApplyStep(resolved, applied, k, a);
      ClaimWritten(f, st, k, stage.view.claim);
      Chain(st, k, stage.view, w);
      OutsideTheClaim(f, applied, s', k, w);
    } else {
      OutsideTheClaim(f, s, s', k, w);
    }
  }
}
