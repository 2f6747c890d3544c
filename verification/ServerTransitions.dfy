/** Two things a GameServer's status can wrongly say, and exactly what one reconcile does to each: a Ready condition
    under a phase that is no longer Ready, and a Ready phase over a configuration that is not valid. */
module ServerTransitions {
  import opened Prelude
  import opened Conditions
  import opened GameTypes
  import opened Config
  import opened Services
  import opened Address
  import opened Stores
  import opened ServerViews
  import opened GameServers
  import opened GameServerReconcilers
  import opened ServerStatuses
  import opened ServerFixpoints

  // ---------------------------------------------------------------------------------------------
  // Where a pass ends
  // ---------------------------------------------------------------------------------------------

  /** Server and template are read. */
  predicate Reads(i: Inputs, v: View, a: Answers) {
    a.Ok(GetServer) && v.server.Some? && a.Ok(GetTemplate)
  }

  /** The pass ends at a missing template, a rejected configuration or an unavailable restore source. */
  predicate EndsEarly(i: Inputs, v: View, a: Answers, err: Option<ConfigError>) {
    && Reads(i, v, a)
    && (|| i.template.None?
        || err.Some?
        || (EnsureAccount(v, i.template.value, a).ok && RestoreSource(v.server.value, v.claim, i.backup, a).NoSuch?))
  }

  /** The pass gets as far as the size of the claim. */
  predicate ReachesSize(i: Inputs, v: View, a: Answers, err: Option<ConfigError>) {
    && Reads(i, v, a) && i.template.Some? && err.None?
    && EnsureAccount(v, i.template.value, a).ok && !RestoreSource(v.server.value, v.claim, i.backup, a).NoSuch?
  }

  predicate EndsAtSize(sx: Syntax, i: Inputs, v: View, a: Answers, err: Option<ConfigError>) {
    ReachesSize(i, v, a, err) && !sx.isQuantity(ClaimSize(v.server.value, i.template.value))
  }

  /** Every write to a child is acknowledged and the Deployment is read back. */
  ghost predicate ChildrenApplied(k: Key, gs: GameServer, tpl: GameTemplate, source: Source, v: View, a: Answers) {
    var claimed := ApplyClaim(v, BuildPVC(k.name, gs, tpl, source), a);
    var deployed := ApplyDeployment(claimed.view, BuildDeployment(k.name, gs, tpl), a);
    && claimed.ok && deployed.ok
    && ApplyServices(deployed.view, DesiredServices(k, gs, tpl), a).ok && a.Ok(RefreshDeployment)
  }

  /** The pass gets to its last status write. */
  ghost predicate Completes(sx: Syntax, k: Key, i: Inputs, v: View, a: Answers, err: Option<ConfigError>) {
    && ReachesSize(i, v, a, err) && sx.isQuantity(ClaimSize(v.server.value, i.template.value))
    && ChildrenApplied(k, v.server.value, i.template.value, RestoreSource(v.server.value, v.claim, i.backup, a),
                       EnsureAccount(v, i.template.value, a).view, a)
  }

  // ---------------------------------------------------------------------------------------------
  // What each end writes
  // ---------------------------------------------------------------------------------------------

  ghost predicate WrittenEarly(gs: GameServer, st: ServerStatus, now: int) {
    || st == TemplateMissing(gs, now)
    || (exists e :: st == Invalid(gs, e, now))
    || (exists why :: st == Unavailable(gs, why, now))
  }

  ghost predicate WrittenLast(k: Key, gs: GameServer, tpl: GameTemplate, st: ServerStatus, now: int) {
    exists replicas, applied :: st == Finished(k, gs, tpl, replicas, applied, now)
  }

  /** The pass left the server's status as it was, or replaced it by one it had reason to write. */
  ghost predicate StatusFollows(sx: Syntax, k: Key, i: Inputs, v: View, a: Answers, err: Option<ConfigError>,
                                after: View) {
    if a.Took(WriteStatus) && (EndsEarly(i, v, a, err) || EndsAtSize(sx, i, v, a, err)
                               || Completes(sx, k, i, v, a, err)) then
      && after.server.Some?
      && var gs, st := v.server.value, after.server.value.status;
         && after.server.value == gs.(status := st)
         && (EndsEarly(i, v, a, err) ==> WrittenEarly(gs, st, a.now))
         && (EndsAtSize(sx, i, v, a, err) ==> st == BadStorage(gs, ClaimSize(gs, i.template.value), a.now))
         && (Completes(sx, k, i, v, a, err) ==> WrittenLast(k, gs, i.template.value, st, a.now))
    else after.server == v.server
  }

  lemma ChildrenStatus(k: Key, gs: GameServer, tpl: GameTemplate, source: Source, v: View, a: Answers)
    requires v.server == Some(gs)
    ensures var after := ReconcileChildren(k, gs, tpl, source, v, a);
            if a.Took(WriteStatus) && ChildrenApplied(k, gs, tpl, source, v, a) then
              && after.server.Some? && after.server.value == gs.(status := after.server.value.status)
              && WrittenLast(k, gs, tpl, after.server.value.status, a.now)
            else after.server == v.server
  {
    hide Finished, BuildPVC, BuildDeployment, DesiredServices, ApplyServices, AppliedServices, AppliedClaim,
      AppliedDeployment;
    var claimed := ApplyClaim(v, BuildPVC(k.name, gs, tpl, source), a);
    var deployed := ApplyDeployment(claimed.view, BuildDeployment(k.name, gs, tpl), a);
    var desired := DesiredServices(k, gs, tpl);
    ServicesKeepTheRest(deployed.view, desired, a);
  }

  lemma ReconcileStatus(sx: Syntax, k: Key, i: Inputs, v: View, a: Answers, err: Option<ConfigError>)
    ensures StatusFollows(sx, k, i, v, a, err, ReconcileView(sx, k, i, v, a, err))
  {
    hide RestoreSource, TemplateMissing, Invalid, Unavailable, BadStorage, ReconcileChildren, ClaimSize, EnsureAccount,
      ChildrenApplied, WrittenLast;
    if v.server.Some? && i.template.Some? {
      var gs, tpl := v.server.value, i.template.value;
      AccountOnly(v, tpl, a);
      ChildrenStatus(k, gs, tpl, RestoreSource(gs, v.claim, i.backup, a), EnsureAccount(v, tpl, a).view, a);
    }
  }

  lemma MarkHolds(gs: GameServer, st: ServerStatus, kind: string, s: ConditionStatus, reason: string, message: string,
                  now: int, other: string)
    ensures var after := Mark(gs, st, kind, s, reason, message, now);
            && after == st.(conditions := after.conditions)
            && (Holds(after.conditions, other) <==>
                  if kind == other then s == ConditionTrue else Holds(st.conditions, other))
  {
    MarkSays(gs, st, kind, s, reason, message, now);
    if kind != other {
      MarkKeepsOthers(gs, st, kind, s, reason, message, now, other);
    }
  }

  lemma EarlyEndsSay(gs: GameServer, st: ServerStatus, now: int)
    requires WrittenEarly(gs, st, now)
    ensures st.phase != PhaseReady && (Holds(st.conditions, READY) <==> Holds(gs.status.conditions, READY))
  {
    hide Mark, Holds, Describe;
    MarkHolds(gs, gs.status, TEMPLATE_RESOLVED, ConditionFalse, "NotFound", gs.spec.template, now, READY);
    MarkHolds(gs, gs.status, TEMPLATE_RESOLVED, ConditionTrue, "Resolved", "GameTemplate resolved", now, READY);
    MarkHolds(gs, Resolved(gs, now), CONFIG_VALID, ConditionTrue, "Valid", "config satisfies template", now, READY);
    if e :| st == Invalid(gs, e, now) {
      MarkHolds(gs, Resolved(gs, now), CONFIG_VALID, ConditionFalse, "Invalid", Describe(e), now, READY);
    } else if why :| st == Unavailable(gs, why, now) {
      MarkHolds(gs, Valid(gs, now), RESTORE_RESOLVED, ConditionFalse, "Unavailable", why, now, READY);
    }
  }

  lemma RestorableSays(gs: GameServer, now: int)
    ensures var st := Restorable(gs, now);
            && st.phase == gs.status.phase && st.address == gs.status.address
            && (Holds(st.conditions, READY) <==> Holds(gs.status.conditions, READY))
            && Holds(st.conditions, CONFIG_VALID)
  {
    hide Mark, Holds;
    var restored := "restoreFrom Backup snapshot ready";
    forall other
      ensures var st := Valid(gs, now);
              && st.phase == gs.status.phase && st.address == gs.status.address
              && (other == READY ==> (Holds(st.conditions, other) <==> Holds(gs.status.conditions, other)))
              && (other == CONFIG_VALID ==> Holds(st.conditions, other))
    {
      MarkHolds(gs, gs.status, TEMPLATE_RESOLVED, ConditionTrue, "Resolved", "GameTemplate resolved", now, other);
      MarkHolds(gs, Resolved(gs, now), CONFIG_VALID, ConditionTrue, "Valid", "config satisfies template", now, other);
    }
    MarkHolds(gs, Valid(gs, now), RESTORE_RESOLVED, ConditionTrue, "SnapshotBound", restored, now, READY);
    MarkHolds(gs, Valid(gs, now), RESTORE_RESOLVED, ConditionTrue, "SnapshotBound", restored, now, CONFIG_VALID);
  }

  lemma BadStorageSays(gs: GameServer, size: string, now: int)
    ensures var st := BadStorage(gs, size, now);
            && st.phase == gs.status.phase && st.address == gs.status.address
            && (Holds(st.conditions, READY) <==> Holds(gs.status.conditions, READY))
            && !Holds(st.conditions, CONFIG_VALID)
  {
    hide Mark, Holds, Restorable;
    RestorableSays(gs, now);
    MarkHolds(gs, Restorable(gs, now), CONFIG_VALID, ConditionFalse, "InvalidStorage", size, now, READY);
    MarkHolds(gs, Restorable(gs, now), CONFIG_VALID, ConditionFalse, "InvalidStorage", size, now, CONFIG_VALID);
  }

  lemma FinishedSays(k: Key, gs: GameServer, tpl: GameTemplate, replicas: int, applied: seq<NamedService>, now: int)
    ensures var st := Finished(k, gs, tpl, replicas, applied, now);
            (Holds(st.conditions, READY) <==> st.phase == PhaseReady) && Holds(st.conditions, CONFIG_VALID)
  {
    hide Mark, Holds, Restorable, AddressOf;
    RestorableSays(gs, now);
    var st0 := Restorable(gs, now).(readyReplicas := replicas, observedGeneration := gs.generation,
                                    templateGeneration := tpl.generation,
                                    address := AddressOf(k.ns, k.name, gs.spec.exposeOverride, tpl.spec.ports,
                                        applied));
    var (s, reason, message) := Verdict(gs, replicas);
    MarkHolds(gs, st0, READY, s, reason, message, now, READY);
    MarkHolds(gs, st0, READY, s, reason, message, now, CONFIG_VALID);
  }

  // ---------------------------------------------------------------------------------------------
  // A Ready condition under another phase
  // ---------------------------------------------------------------------------------------------

  /** The condition still says Ready although the phase no longer does. */
  predicate Stale(st: ServerStatus) {
    Holds(st.conditions, READY) && st.phase != PhaseReady
  }

  predicate ViewStale(v: View) {
    v.server.Some? && Stale(v.server.value.status)
  }

  /** Exactly when a reconcile leaves a stale Ready condition.  A status stored by a pass that ended at a missing
      template, a rejected configuration or an unavailable restore source turns a held condition stale; one stored at
      the end of a complete pass cures it; anything else, a malformed size included, leaves things as they were. */
  lemma StaleReadyIff(sx: Syntax, k: Key, i: Inputs, v: View, a: Answers, err: Option<ConfigError>)
    ensures ViewStale(ReconcileView(sx, k, i, v, a, err)) <==>
            if a.Took(WriteStatus) && EndsEarly(i, v, a, err) then Holds(v.server.value.status.conditions, READY)
            else ViewStale(v) && !(a.Took(WriteStatus) && Completes(sx, k, i, v, a, err))
  {
    hide Holds, ReconcileView, WrittenEarly, BadStorage, Finished, Completes, EndsAtSize, EndsEarly;
    StatusSays(sx, k, i, v, a, err);
  }

  /** What the stored status says, by where the pass ended. */
  lemma StatusSays(sx: Syntax, k: Key, i: Inputs, v: View, a: Answers, err: Option<ConfigError>)
    ensures var after := ReconcileView(sx, k, i, v, a, err);
            if a.Took(WriteStatus) && (EndsEarly(i, v, a, err) || EndsAtSize(sx, i, v, a, err)
                                       || Completes(sx, k, i, v, a, err)) then
              && v.server.Some? && after.server.Some?
              && var before, st := v.server.value.status, after.server.value.status;
                 && (EndsEarly(i, v, a, err) ==>
                       st.phase != PhaseReady && (Holds(st.conditions, READY) <==> Holds(before.conditions, READY)))
                 && (EndsAtSize(sx, i, v, a, err) ==>
                       && st.phase == before.phase && st.address == before.address
                       && (Holds(st.conditions, READY) <==> Holds(before.conditions, READY))
                       && !Holds(st.conditions, CONFIG_VALID))
                 && (Completes(sx, k, i, v, a, err) ==>
                       && (Holds(st.conditions, READY) <==> st.phase == PhaseReady)
                       && Holds(st.conditions, CONFIG_VALID))
            else after.server == v.server
  {
    hide Holds, ReconcileView, WrittenEarly, BadStorage, Finished, RestoreSource, EnsureAccount, ClaimSize,
      ChildrenApplied;
    ReconcileStatus(sx, k, i, v, a, err);
    var after := ReconcileView(sx, k, i, v, a, err);
    if v.server.Some? && after.server.Some? {
      var gs, st := v.server.value, after.server.value.status;
      if WrittenEarly(gs, st, a.now) {
        EarlyEndsSay(gs, st, a.now);
      }
      if i.template.Some? {
        BadStorageSays(gs, ClaimSize(gs, i.template.value), a.now);
        if replicas, applied :| st == Finished(k, gs, i.template.value, replicas, applied, a.now) {
          FinishedSays(k, gs, i.template.value, replicas, applied, a.now);
        }
      }
    }
  }

  /** An input: losing the template sets the phase back and keeps a stale Ready=True. */
  lemma MissingTemplateLeavesStaleReady(sx: Syntax, k: Key, i: Inputs, v: View, a: Answers, err: Option<ConfigError>)
    requires FaultFree(a) && v.server.Some? && i.template.None?
    requires v.server.value.status.phase == PhaseReady && Holds(v.server.value.status.conditions, READY)
    ensures var after := ReconcileView(sx, k, i, v, a, err);
            && after.server.Some?
            && var st := after.server.value.status; st.phase == PhasePending && Holds(st.conditions, READY)
  {
    hide Mark, Holds;
    var gs := v.server.value;
    MarkHolds(gs, gs.status, TEMPLATE_RESOLVED, ConditionFalse, "NotFound", gs.spec.template, a.now, READY);
  }

  // ---------------------------------------------------------------------------------------------
  // A Ready phase over a configuration that is not valid
  // ---------------------------------------------------------------------------------------------

  /** The phase says Ready although ConfigValid is not True. */
  predicate Misconfigured(st: ServerStatus) {
    st.phase == PhaseReady && !Holds(st.conditions, CONFIG_VALID)
  }

  predicate ViewMisconfigured(v: View) {
    v.server.Some? && Misconfigured(v.server.value.status)
  }

  /** Exactly when a reconcile leaves a Ready phase over a configuration that is not valid.  A status stored for a size
      that does not parse does so whenever the phase was Ready; one stored anywhere else cures it; a pass that stores
      none leaves things as they were. */
  lemma MisconfiguredIff(sx: Syntax, k: Key, i: Inputs, v: View, a: Answers, err: Option<ConfigError>)
    ensures ViewMisconfigured(ReconcileView(sx, k, i, v, a, err)) <==>
            if a.Took(WriteStatus) && EndsAtSize(sx, i, v, a, err) then v.server.value.status.phase == PhaseReady
            else
              && ViewMisconfigured(v)
              && !(a.Took(WriteStatus) && (EndsEarly(i, v, a, err) || Completes(sx, k, i, v, a, err)))
  {
    hide Holds, ReconcileView, WrittenEarly, BadStorage, Finished, Completes, EndsEarly, EndsAtSize;
    StatusSays(sx, k, i, v, a, err);
  }

  /** So it arises exactly when a Ready server's pass gets to a size that does not parse and stores its status. */
  lemma MisconfiguredArisesIff(sx: Syntax, k: Key, i: Inputs, v: View, a: Answers, err: Option<ConfigError>)
    requires !ViewMisconfigured(v)
    ensures ViewMisconfigured(ReconcileView(sx, k, i, v, a, err)) <==>
            && ReachesSize(i, v, a, err) && !sx.isQuantity(ClaimSize(v.server.value, i.template.value))
            && v.server.value.status.phase == PhaseReady && a.Took(WriteStatus)
  {
    hide Holds, ReconcileView, Completes, EndsEarly, ReachesSize;
    MisconfiguredIff(sx, k, i, v, a, err);
  }

  /** An input: a Ready server is given a size that does not parse, and stays Ready at its address while ConfigValid
      turns False. */
  lemma BadSizeLeavesReadyPhase(sx: Syntax, k: Key, i: Inputs, v: View, a: Answers)
    requires FaultFree(a) && v.server.Some? && i.template.Some?
    requires var gs := v.server.value;
             && gs.spec.restoreFrom.None? && gs.spec.size != "" && !sx.isQuantity(gs.spec.size)
             && gs.status.phase == PhaseReady && Holds(gs.status.conditions, READY)
    ensures var after := ReconcileView(sx, k, i, v, a, None);
            && after.server.Some?
            && var before, st := v.server.value.status, after.server.value.status;
               && st.phase == PhaseReady && st.address == before.address
               && Holds(st.conditions, READY) && !Holds(st.conditions, CONFIG_VALID)
  {
    hide Holds, ReconcileView, Completes;
    StatusSays(sx, k, i, v, a, None);
  }
}
