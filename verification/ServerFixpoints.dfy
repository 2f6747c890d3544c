/** Reconciling a GameServer twice: when the second pass leaves the store alone, and what the first one built. */
module ServerFixpoints {
  import opened Prelude
  import opened Conditions
  import opened Objects
  import opened GameTypes
  import opened Admission
  import opened Config
  import opened Services
  import opened Address
  import opened Stores
  import opened ServerViews
  import opened GameServers
  import opened GameServerReconcilers
  import opened ServerStatuses

  ghost predicate FaultFree(a: Answers) {
    && (forall c :: a.fate(c).Acknowledged?)
    && (forall e :: a.alloc(e).InRange())
  }

  // ---------------------------------------------------------------------------------------------
  // What a pass leaves of the children
  // ---------------------------------------------------------------------------------------------

  /** The slot of each desired Service holds what applying it over the old slot stores; other slots are untouched, so
      a Service for an exposure no longer wanted stays. */
  ghost predicate ServicesApplied(before: Exposed, after: Exposed, desired: seq<NamedService>, a: Answers) {
    && (forall i :: 0 <= i < |desired| ==>
          var e := desired[i].service.kind;
          after.At(e) == Some(Applied(a.alloc(e), before.At(e), desired[i].service)))
    && (forall e :: (forall i :: 0 <= i < |desired| ==> desired[i].service.kind != e) ==> after.At(e) == before.At(e))
  }

  predicate KindsDiffer(desired: seq<NamedService>) {
    forall i, j :: 0 <= i < j < |desired| ==> desired[i].service.kind != desired[j].service.kind
  }

  lemma {:induction false} ServicesAreApplied(v: View, desired: seq<NamedService>, a: Answers)
    requires FaultFree(a) && KindsDiffer(desired)
    ensures var s := ApplyServices(v, desired, a);
            && s.ok && s.view == v.(services := s.view.services)
            && ServicesApplied(v.services, s.view.services, desired, a)
  {
    hide Applied, FaultFree;
    if desired != [] {
      var n := |desired| - 1;
      ServicesAreApplied(v, desired[..n], a);
      var mid := ApplyServices(v, desired[..n], a).view;
      var last := desired[n].service;
      assert forall i :: 0 <= i < n ==> desired[..n][i] == desired[i];
      LastServiceApplied(v, mid, desired, a);
    }
  }

  lemma LastServiceApplied(v: View, mid: View, desired: seq<NamedService>, a: Answers)
    requires FaultFree(a) && KindsDiffer(desired) && desired != []
    requires mid == v.(services := mid.services)
    requires ServicesApplied(v.services, mid.services, desired[..|desired| - 1], a)
    ensures var last := desired[|desired| - 1].service;
            var s := ApplyService(mid, last.kind, last, a);
            && s.ok && s.view == v.(services := s.view.services)
            && ServicesApplied(v.services, s.view.services, desired, a)
  {
    hide Applied;
    var n := |desired| - 1;
    var last := desired[n].service;
    assert forall i :: 0 <= i < n ==> desired[..n][i] == desired[i];
    assert mid.services.At(last.kind) == v.services.At(last.kind);
    var s := ApplyService(mid, last.kind, last, a);
    forall e | forall i :: 0 <= i < |desired| ==> desired[i].service.kind != e
      ensures s.view.services.At(e) == v.services.At(e)
    {
      assert desired[n].service.kind != e;
    }
  }

  /** Applying Services that are already stored as they would be applied changes nothing. */
  lemma {:induction false} SecondPassIdle(v: View, desired: seq<NamedService>, a: Answers)
    requires FaultFree(a)
    requires forall i :: 0 <= i < |desired| ==>
               var e := desired[i].service.kind;
               v.services.At(e).Some? && Applied(a.alloc(e), v.services.At(e),
                   desired[i].service) == v.services.At(e).value
    ensures ApplyServices(v, desired, a) == Stage(v, true)
  {
    hide Applied, FaultFree;
    if desired != [] {
      var n := |desired| - 1;
      assert forall i :: 0 <= i < n ==> desired[..n][i] == desired[i];
      SecondPassIdle(v, desired[..n], a);
      SameServiceIdle(v, desired[n].service.kind, desired[n].service, a);
    }
  }

  lemma SameServiceIdle(v: View, e: Exposure, desired: Service, a: Answers)
    requires FaultFree(a) && v.services.At(e).Some?
    requires Applied(a.alloc(e), v.services.At(e), desired) == v.services.At(e).value
    ensures ApplyService(v, e, desired, a) == Stage(v, true)
  {
    hide Applied;
  }

  lemma DesiredKinds(k: Key, gs: GameServer, tpl: GameTemplate)
    requires Distinct(PortNames(tpl.spec.ports))
    ensures var desired := DesiredServices(k, gs, tpl);
            && KindsDiffer(desired)
            && forall i :: 0 <= i < |desired| ==> Reappliable(desired[i].service)
  {
    var desired := DesiredServices(k, gs, tpl);
    DesiredSlots(k, gs, tpl);
    var used := ExposuresUsed(gs.spec.exposeOverride, tpl.spec.ports);
    forall i | 0 <= i < |desired|
      ensures Reappliable(desired[i].service)
    {
      GroupNamesAreDistinct(gs.spec.exposeOverride, tpl.spec.ports, used[i]);
      GroupsFollowTheTemplate(gs.spec.exposeOverride, tpl.spec.ports, used[i]);
    }
  }

  predicate Reappliable(desired: Service) {
    && DistinctPorts(desired.ports)
    && (desired.kind == ClusterIP ==> forall i :: 0 <= i < |desired.ports| ==> desired.ports[i].nodePort == 0)
  }

  /** What the children look like once a pass got through. */
  ghost predicate ChildrenBuilt(k: Key, gs: GameServer, tpl: GameTemplate, source: Source, before: View, after: View,
                                a: Answers) {
    && after == before.(server := after.server, claim := after.claim, deployment := after.deployment,
        services := after.services)
    && after.claim == Some(AppliedClaim(before.claim, BuildPVC(k.name, gs, tpl, source)))
    && after.deployment == Some(AppliedDeployment(before.deployment, BuildDeployment(k.name, gs, tpl)))
    && ServicesApplied(before.services, after.services, DesiredServices(k, gs, tpl), a)
    && after.server == Some(With(gs, Finished(k, gs, tpl, after.deployment.value.readyReplicas,
                                              AppliedServices(after, DesiredServices(k, gs, tpl)), a.now)))
  }

  /** A fault-free pass builds every child: the claim keeps everything but its labels if it existed, the Deployment's
      labels and spec are the built ones, each desired Service is applied, and the status describes the result. */
  lemma PassBuildsChildren(k: Key, gs: GameServer, tpl: GameTemplate, source: Source, v: View, a: Answers)
    requires v.server == Some(gs) && FaultFree(a) && Distinct(PortNames(tpl.spec.ports))
    ensures ChildrenBuilt(k, gs, tpl, source, v, ReconcileChildren(k, gs, tpl, source, v, a), a)
  {
    hide BuildPVC, BuildDeployment, DesiredServices, ServicesApplied, Finished, ApplyServices, KindsDiffer,
        Reappliable, PortNames;
    var v2 := ApplyClaim(v, BuildPVC(k.name, gs, tpl, source), a).view;
    ClaimApplied(v, BuildPVC(k.name, gs, tpl, source), a);
    var v3 := ApplyDeployment(v2, BuildDeployment(k.name, gs, tpl), a).view;
    DesiredKinds(k, gs, tpl);
    ServicesAreApplied(v3, DesiredServices(k, gs, tpl), a);
    var v4 := ApplyServices(v3, DesiredServices(k, gs, tpl), a).view;
    var after := ReconcileChildren(k, gs, tpl, source, v, a);
    assert v4.deployment.Some?;
    assert after == v4.(server := after.server);
    assert AppliedServices(after, DesiredServices(k, gs, tpl)) == AppliedServices(v4, DesiredServices(k, gs, tpl));
  }

  lemma ClaimApplied(v: View, desired: PVC, a: Answers)
    requires FaultFree(a)
    ensures ApplyClaim(v, desired, a) == Stage(v.(claim := Some(AppliedClaim(v.claim, desired))), true)
  {
  }

  /** A pass over children that are already built leaves them alone. */
  lemma BuiltChildrenStay(k: Key, gs: GameServer, tpl: GameTemplate, source: Source, source': Source, before: View,
                          v: View, a: Answers, b: Answers)
    requires FaultFree(a) && FaultFree(b) && Distinct(PortNames(tpl.spec.ports))
    requires ChildrenBuilt(k, gs, tpl, source, before, v, a) && v.server.Some?
    ensures ReconcileChildren(k, v.server.value, tpl, source', v, b) == v
  {
    hide Finished, ApplyServices, PortNames, DesiredServices, Applied, AddressOf, Reappliable, AppliedServices;
    var gs' := v.server.value;
    var desired := DesiredServices(k, gs, tpl);
    assert DesiredServices(k, gs', tpl) == desired by { SameDesired(k, gs, gs'.status, tpl); }
    SameBuilt(k.name, gs, gs'.status, tpl);
    ClaimLabelsStay(k.name, gs, gs'.status, tpl, source, source', before.claim);
    DesiredKinds(k, gs, tpl);
    forall i | 0 <= i < |desired|
      ensures var e := desired[i].service.kind;
              v.services.At(e).Some? && Applied(b.alloc(e), v.services.At(e),
                  desired[i].service) == v.services.At(e).value
    {
      var e := desired[i].service.kind;
      assert Reappliable(desired[i].service);
      ReapplyIdle(a.alloc(e), b.alloc(e), before.services.At(e), desired[i].service);
    }
    SecondPassIdle(v, desired, b);
    var replicas := v.deployment.value.readyReplicas;
    FinishedSettles(k, gs, tpl, replicas, AppliedServices(v, desired), a.now, b.now);
  }

  lemma ReapplyIdle(alloc: Allocation, alloc': Allocation, existing: Option<Service>, desired: Service)
    requires alloc.InRange() && Reappliable(desired)
    ensures Applied(alloc', Some(Applied(alloc, existing, desired)), desired) == Applied(alloc, existing, desired)
  {
    ApplyIsIdempotent(alloc, alloc', existing, desired);
  }

  lemma SameDesired(k: Key, gs: GameServer, st: ServerStatus, tpl: GameTemplate)
    ensures DesiredServices(k, With(gs, st), tpl) == DesiredServices(k, gs, tpl)
  {
  }

  lemma SameBuilt(name: string, gs: GameServer, st: ServerStatus, tpl: GameTemplate)
    ensures BuildDeployment(name, With(gs, st), tpl) == BuildDeployment(name, gs, tpl)
  {
  }

  lemma ClaimLabelsStay(name: string, gs: GameServer, st: ServerStatus, tpl: GameTemplate, source: Source,
                        source': Source, claim: Option<PVC>)
    ensures var stored := AppliedClaim(claim, BuildPVC(name, gs, tpl, source));
            stored.labels == BuildPVC(name, With(gs, st), tpl, source').labels
  {
  }

  // ---------------------------------------------------------------------------------------------
  // The fixpoint
  // ---------------------------------------------------------------------------------------------

  /** The pass gets to the storage size and finds it malformed. */
  predicate StuckOnStorage(sx: Syntax, i: Inputs, v: View, a: Answers, err: Option<ConfigError>) {
    && v.server.Some? && i.template.Some? && err.None?
    && !RestoreSource(v.server.value, v.claim, i.backup, a).NoSuch?
    && !sx.isQuantity(ClaimSize(v.server.value, i.template.value))
  }

  lemma EnsuredStays(v: View, st: ServerStatus, tpl: GameTemplate, a: Answers, b: Answers)
    requires v.server.Some? && FaultFree(a) && FaultFree(b)
    ensures var once := EnsureAccount(v, tpl, a);
            && once.ok && once.view == v.(account := once.view.account)
            && forall w: View :: w.account == once.view.account ==> EnsureAccount(w, tpl, b) == Stage(w, true)
  {
  }

  lemma SourceStays(gs: GameServer, st: ServerStatus, claim: Option<PVC>, backup: Option<Backup>, a: Answers,
                    b: Answers)
    requires FaultFree(a) && FaultFree(b)
    ensures RestoreSource(With(gs, st), claim, backup, b) == RestoreSource(gs, claim, backup, a)
    ensures claim.Some? ==> RestoreSource(With(gs, st), claim, backup, b) == NoSource
  {
  }

  /** The two passes reject the configuration, if they do, with the same words. */
  predicate SameReport(i: Inputs, v: View, err: Option<ConfigError>, err': Option<ConfigError>) {
    v.server.Some? && i.template.Some? && err.Some? && err'.Some? ==> Describe(err'.value) == Describe(err.value)
  }

  lemma SecondViewOfResolved(sx: Syntax, k: Key, gs: GameServer, tpl: GameTemplate, backup: Option<Backup>, v: View,
                             a: Answers, b: Answers, err: Option<ConfigError>, err': Option<ConfigError>)
    requires v.server == Some(gs) && FaultFree(a) && FaultFree(b) && Distinct(PortNames(tpl.spec.ports))
    requires err.None? <==> err'.None?
    ensures var once := ReconcileResolved(sx, k, gs, tpl, backup, v, a, err);
            && once.server.Some?
            && once.server.value == With(gs, once.server.value.status)
            && (ReconcileResolved(sx, k, once.server.value, tpl, backup, once, b, err') == once <==>
                && (a.now == b.now || !StuckOnStorage(sx, Inputs(Some(tpl), backup), v, a, err))
                && SameReport(Inputs(Some(tpl), backup), v, err, err'))
  {
    hide EnsureAccount, RestoreSource, Invalid, Unavailable, BadStorage, ReconcileChildren, PortNames, ChildrenBuilt,
      Describe;
    var once := ReconcileResolved(sx, k, gs, tpl, backup, v, a, err);
    if err.Some? {
      InvalidSettlesIff(gs, err.value, err'.value, a.now, b.now);
    } else {
      EnsuredStays(v, gs.status, tpl, a, b);
      var ensured := EnsureAccount(v, tpl, a).view;
      var source := RestoreSource(gs, v.claim, backup, a);
      if source.NoSuch? {
        UnavailableSettles(gs, source.why, a.now, b.now);
        SourceStays(gs, once.server.value.status, v.claim, backup, a, b);
      } else if !sx.isQuantity(ClaimSize(gs, tpl)) {
        BadStorageSettlesIff(gs, ClaimSize(gs, tpl), a.now, b.now);
        SourceStays(gs, once.server.value.status, v.claim, backup, a, b);
      } else {
        PassBuildsChildren(k, gs, tpl, source, ensured, a);
        BuiltView(k, gs, tpl, source, ensured, once, a);
        BuiltChildrenStay(k, gs, tpl, source, NoSource, ensured, once, a, b);
        SourceStays(gs, once.server.value.status, once.claim, backup, a, b);
      }
    }
  }

  lemma BuiltView(k: Key, gs: GameServer, tpl: GameTemplate, source: Source, before: View, after: View, a: Answers)
    requires ChildrenBuilt(k, gs, tpl, source, before, after, a)
    ensures after.account == before.account && after.claim.Some? && after.server.Some?
    ensures after.server.value == With(gs, after.server.value.status)
  {
  }

  lemma SecondView(sx: Syntax, k: Key, i: Inputs, v: View, a: Answers, b: Answers, err: Option<ConfigError>,
                   err': Option<ConfigError>)
    requires FaultFree(a) && FaultFree(b)
    requires i.template.Some? ==> Distinct(PortNames(i.template.value.spec.ports))
    requires v.server.Some? && i.template.Some? ==> (err.None? <==> err'.None?)
    ensures ReconcileView(sx, k, i, ReconcileView(sx, k, i, v, a, err), b, err') == ReconcileView(sx, k, i, v, a, err)
            <==> (a.now == b.now || !StuckOnStorage(sx, i, v, a, err)) && SameReport(i, v, err, err')
  {
    hide ReconcileResolved, TemplateMissing, PortNames, StuckOnStorage, Describe;
    NeedsServer(sx, i, v, a, err);
    if v.server.Some? {
      var gs := v.server.value;
      if i.template.Some? {
        SecondViewOfResolved(sx, k, gs, i.template.value, i.backup, v, a, b, err, err');
        assert i == Inputs(Some(i.template.value), i.backup);
      } else {
        TemplateMissingSettles(gs, a.now, b.now);
      }
    }
  }

  lemma NeedsServer(sx: Syntax, i: Inputs, v: View, a: Answers, err: Option<ConfigError>)
    ensures v.server.None? || i.template.None? ==> !StuckOnStorage(sx, i, v, a, err)
  {
  }

  /** With a template the webhook admits, a second reconcile with nothing in between leaves the whole store unchanged:
      conditions with their transition times, phase, address, node ports and all.  There are exactly two exceptions: a
      malformed storage size, which restamps ConfigValid on every pass at a later clock, and a rejected configuration
      of which the second pass happens to report another problem. */
  lemma ReconcileIsIdempotent(sx: Syntax, st: Store, k: Key, a: Answers, b: Answers, err: Option<ConfigError>,
                              err': Option<ConfigError>)
    requires FaultFree(a) && FaultFree(b)
    requires InputsOf(st, k).template.Some? ==> Errors(InputsOf(st, k).template.value.spec) == []
    requires Reported(sx, st, k, a, err) && Reported(sx, ReconcileServer(sx, st, k, a, err), k, b, err')
    ensures var once := ReconcileServer(sx, st, k, a, err);
            ReconcileServer(sx, once, k, b, err') == once <==>
            && (a.now == b.now || !StuckOnStorage(sx, InputsOf(st, k), Project(st, k), a, err))
            && SameReport(InputsOf(st, k), Project(st, k), err, err')
  {
    hide ReconcileView, StuckOnStorage, SameReport, Errors, Embed, ReportedFor;
    var i, v := InputsOf(st, k), Project(st, k);
    if i.template.Some? {
      AdmittedPortsDiffer(i.template.value.spec);
    }
    SpecStays(sx, k, i, v, a, err);
    var w := ReconcileView(sx, k, i, v, a, err);
    var once := Embed(st, k, w);
    Chain(st, k, w, w);
    InputsStay(st, k, w);
    ReportsAgree(sx, st, once, k, a, b, err, err');
    SecondView(sx, k, i, v, a, b, err, err');
    var w' := ReconcileView(sx, k, i, w, b, err');
    Chain(st, k, w, w');
    Chain(st, k, w', w');
  }

  lemma SpecStays(sx: Syntax, k: Key, i: Inputs, v: View, a: Answers, err: Option<ConfigError>)
    ensures var after := ReconcileView(sx, k, i, v, a, err);
            && (v.server.None? ==> after == v)
            && (v.server.Some? ==> after.server.Some? && after.server.value == With(v.server.value,
                after.server.value.status))
  {
    hide RestoreSource, ReconcileChildren, TemplateMissing, Invalid, Unavailable, BadStorage, EnsureAccount;
    if v.server.Some? && i.template.Some? {
      var gs, tpl := v.server.value, i.template.value;
      AccountOnly(v, tpl, a);
      ChildrenKeepSpec(k, gs, tpl, RestoreSource(gs, v.claim, i.backup, a), EnsureAccount(v, tpl, a).view, a);
    }
  }

  lemma ChildrenKeepSpec(k: Key, gs: GameServer, tpl: GameTemplate, source: Source, v: View, a: Answers)
    requires v.server == Some(gs)
    ensures var after := ReconcileChildren(k, gs, tpl, source, v, a);
            after.server.Some? && after.server.value == With(gs, after.server.value.status)
  {
    hide BuildPVC, BuildDeployment, DesiredServices, Finished, ApplyServices, AppliedServices, AppliedClaim,
      AppliedDeployment;
    var claimed := ApplyClaim(v, BuildPVC(k.name, gs, tpl, source), a);
    var deployed := ApplyDeployment(claimed.view, BuildDeployment(k.name, gs, tpl), a);
    ServicesKeepTheRest(deployed.view, DesiredServices(k, gs, tpl), a);
  }

  /** Both passes validate the same configuration against the same keys. */
  lemma ReportsAgree(sx: Syntax, st: Store, once: Store, k: Key, a: Answers, b: Answers, err: Option<ConfigError>,
                     err': Option<ConfigError>)
    requires FaultFree(a) && FaultFree(b)
    requires Reported(sx, st, k, a, err) && Reported(sx, once, k, b, err')
    requires InputsOf(once, k) == InputsOf(st, k)
    requires k in st.servers <==> k in once.servers
    requires k in st.servers ==> once.servers[k].spec == st.servers[k].spec
    ensures k in st.servers && InputsOf(st, k).template.Some? ==> (err.None? <==> err'.None?)
  {
    hide IsWalk, FirstProblem, InputsOf;
    if k in st.servers && InputsOf(st, k).template.Some? {
      var config, keys := st.servers[k].spec.config, InputsOf(st, k).template.value.spec.configKeys;
      ReportDecides(sx, config, keys, err);
      ReportDecides(sx, config, keys, err');
    }
  }

  lemma ReportDecides(sx: Syntax, config: map<string, string>, keys: seq<ConfigKey>, err: Option<ConfigError>)
    requires ReportedFor(sx, config, keys, err)
    ensures err.None? <==> ValidConfig(sx, config, keys)
    ensures err.Some? ==> Violates(sx, config, keys, err.value)
  {
    hide IsWalk, FirstProblem, ValidConfig, Violates;
    var visited :| IsWalk(visited, config) && err == FirstProblem(sx, config, keys, visited);
    FirstProblemDecides(sx, config, keys, visited);
  }

  /** Two passes can report these two outcomes, one after the other. */
  ghost predicate ReportedInTurn(sx: Syntax, st: Store, k: Key, a: Answers, b: Answers, err: Option<ConfigError>,
                                 err': Option<ConfigError>) {
    Reported(sx, st, k, a, err) && Reported(sx, ReconcileServer(sx, st, k, a, err), k, b, err')
  }

  ghost predicate Repeats(sx: Syntax, st: Store, k: Key, a: Answers, b: Answers, err: Option<ConfigError>,
                          err': Option<ConfigError>) {
    ReconcileServer(sx, ReconcileServer(sx, st, k, a, err), k, b, err') == ReconcileServer(sx, st, k, a, err)
  }

  /** With a storage size that parses, the second pass is sure to repeat the first exactly when at most one configured
      key is bad: with two, the walk decides which of them the condition names. */
  lemma RepeatsOnEveryWalkIff(sx: Syntax, st: Store, k: Key, a: Answers, b: Answers)
    requires FaultFree(a) && FaultFree(b) && k in st.servers && InputsOf(st, k).template.Some?
    requires Errors(InputsOf(st, k).template.value.spec) == []
    requires sx.isQuantity(ClaimSize(st.servers[k], InputsOf(st, k).template.value))
    ensures (forall err, err' :: ReportedInTurn(sx, st, k, a, b, err, err') ==> Repeats(sx, st, k, a, b, err,
        err')) <==>
            AtMostOneBadKey(sx, st.servers[k].spec.config, InputsOf(st, k).template.value.spec.configKeys)
  {
    hide Repeats, ReportedInTurn, Errors, AtMostOneBadKey, ReportedFor, InputsOf, FaultFree, ClaimSize;
    var config, keys := st.servers[k].spec.config, InputsOf(st, k).template.value.spec.configKeys;
    forall err, err'
      ensures ReportedInTurn(sx, st, k, a, b, err, err') <==>
              ReportedFor(sx, config, keys, err) && ReportedFor(sx, config, keys, err')
      ensures ReportedInTurn(sx, st, k, a, b, err, err') ==> (Repeats(sx, st, k, a, b, err, err') <==> err == err')
    {
      SameWalks(sx, st, k, a, b, err, err');
      if ReportedFor(sx, config, keys, err) && ReportedFor(sx, config, keys, err') {
        RepeatsIffSame(sx, st, k, a, b, err, err');
      }
    }
    if AtMostOneBadKey(sx, config, keys) {
      OneReport(sx, config, keys);
    } else {
      var err, err' := TwoReports(sx, config, keys);
      assert ReportedInTurn(sx, st, k, a, b, err, err');
    }
  }

  lemma OneReport(sx: Syntax, config: map<string, string>, keys: seq<ConfigKey>)
    requires AtMostOneBadKey(sx, config, keys)
    ensures forall err, err' ::
              ReportedFor(sx, config, keys, err) && ReportedFor(sx, config, keys, err') ==> err == err'
  {
    hide IsWalk, FirstProblem, AtMostOneBadKey;
    OneReportIff(sx, config, keys);
  }

  lemma TwoReports(sx: Syntax, config: map<string, string>, keys: seq<ConfigKey>)
    returns (err: Option<ConfigError>, err': Option<ConfigError>)
    requires !AtMostOneBadKey(sx, config, keys)
    ensures ReportedFor(sx, config, keys, err) && ReportedFor(sx, config, keys, err') && err != err'
  {
    hide IsWalk, FirstProblem, AtMostOneBadKey;
    OneReportIff(sx, config, keys);
    var v, w :| IsWalk(v, config) && IsWalk(w, config)
      && FirstProblem(sx, config, keys, v) != FirstProblem(sx, config, keys, w);
    err, err' := FirstProblem(sx, config, keys, v), FirstProblem(sx, config, keys, w);
  }

  lemma SameWalks(sx: Syntax, st: Store, k: Key, a: Answers, b: Answers, err: Option<ConfigError>,
                  err': Option<ConfigError>)
    requires FaultFree(a) && FaultFree(b) && k in st.servers && InputsOf(st, k).template.Some?
    ensures var config, keys := st.servers[k].spec.config, InputsOf(st, k).template.value.spec.configKeys;
            ReportedInTurn(sx, st, k, a, b, err, err') <==>
            ReportedFor(sx, config, keys, err) && ReportedFor(sx, config, keys, err')
  {
    hide ReconcileView, Embed, ReportedFor;
    var i, v := InputsOf(st, k), Project(st, k);
    SpecStays(sx, k, i, v, a, err);
    var w := ReconcileView(sx, k, i, v, a, err);
    Chain(st, k, w, w);
    InputsStay(st, k, w);
    SpecReadsBack(st, k, w);
  }

  lemma SpecReadsBack(st: Store, k: Key, w: View)
    requires w.server.Some?
    ensures k in Embed(st, k, w).servers && Embed(st, k, w).servers[k] == w.server.value
  {
  }

  lemma RepeatsIffSame(sx: Syntax, st: Store, k: Key, a: Answers, b: Answers, err: Option<ConfigError>,
                       err': Option<ConfigError>)
    requires FaultFree(a) && FaultFree(b) && k in st.servers && InputsOf(st, k).template.Some?
    requires Errors(InputsOf(st, k).template.value.spec) == []
    requires sx.isQuantity(ClaimSize(st.servers[k], InputsOf(st, k).template.value))
    requires var config, keys := st.servers[k].spec.config, InputsOf(st, k).template.value.spec.configKeys;
             ReportedFor(sx, config, keys, err) && ReportedFor(sx, config, keys, err')
    ensures Repeats(sx, st, k, a, b, err, err') <==> err == err'
  {
    hide ReconcileServer, Errors, Describe, ReportedFor, RestoreSource, ClaimSize;
    var config, keys := st.servers[k].spec.config, InputsOf(st, k).template.value.spec.configKeys;
    SameWalks(sx, st, k, a, b, err, err');
    ReconcileIsIdempotent(sx, st, k, a, b, err, err');
    ReportDecides(sx, config, keys, err);
    ReportDecides(sx, config, keys, err');
    if err.Some? {
      DescriptionsDiffer(err'.value, err.value);
    }
  }

  /** An input: a template without keys, and a configuration with two unknown ones.  One pass can report the first and
      the next the second, even at the same clock. */
  lemma TwoUnknownKeysDoNotSettle(sx: Syntax, a: Answers, b: Answers)
    requires FaultFree(a) && FaultFree(b)
    ensures var k := Key("games", "one");
            var st := TwoUnknownKeys();
            && Errors(st.templates["t"].spec) == []
            && Reported(sx, st, k, a, Some(UnknownKey("x")))
            && var once := ReconcileServer(sx, st, k, a, Some(UnknownKey("x")));
               && Reported(sx, once, k, b, Some(UnknownKey("y")))
               && ReconcileServer(sx, once, k, b, Some(UnknownKey("y"))) != once
  {
    hide ReconcileServer, Errors, Reported, ReportedFor;
    var k, st := Key("games", "one"), TwoUnknownKeys();
    var config := map["x" := "1", "y" := "2"];
    NoPortsAdmitted();
    UnknownReported(sx, "x", "y");
    UnknownReported(sx, "y", "x");
    assert map["y" := "2", "x" := "1"] == config;
    SameWalks(sx, st, k, a, b, Some(UnknownKey("x")), Some(UnknownKey("y")));
    ReconcileIsIdempotent(sx, st, k, a, b, Some(UnknownKey("x")), Some(UnknownKey("y")));
    DescriptionsDiffer(UnknownKey("y"), UnknownKey("x"));
  }

  function TwoUnknownKeys(): Store {
    var spec := ServerSpec("t", map["x" := "1", "y" := "2"], "", "", [], false, [], None);
    Store(map["t" := GameTemplate(TemplateSpec("image", [], [], [], "", false), 1)],
          map[Key("games", "one") := GameServer(spec, 1, ServerStatus(NoServerPhase, "", 0, 0, 0, []))],
          map[], map[], map[], map[], map[], map[])
  }

  lemma NoPortsAdmitted()
    ensures Errors(TemplateSpec("image", [], [], [], "", false)) == []
  {
  }

  lemma UnknownReported(sx: Syntax, first: string, second: string)
    requires first != second
    ensures forall config: map<string, string> :: config.Keys == {first, second} ==>
              ReportedFor(sx, config, [], Some(UnknownKey(first)))
  {
    forall config: map<string, string> | config.Keys == {first, second}
      ensures ReportedFor(sx, config, [], Some(UnknownKey(first)))
    {
      var visited := [first, second];
      assert Elements(visited) == {first, second};
      assert IsWalk(visited, config);
      WalkStaysInside(config, visited);
      assert BadKey(sx, config, [], first);
      HeadIsMetFirst(sx, config, [], visited);
      assert FirstProblem(sx, config, [], visited) == Some(UnknownKey(first));
    }
  }

  lemma AdmittedPortsDiffer(tpl: TemplateSpec)
    requires Errors(tpl) == []
    ensures Distinct(PortNames(tpl.ports))
  {
    hide Errors;
    AdmittedIffAdmissible(tpl);
  }

  lemma InputsStay(st: Store, k: Key, v: View)
    requires k in st.servers ==> v.server.Some? && v.server.value.spec == st.servers[k].spec
    requires k !in st.servers ==> v.server.None?
    ensures InputsOf(Embed(st, k, v), k) == InputsOf(st, k)
  {
  }
}
