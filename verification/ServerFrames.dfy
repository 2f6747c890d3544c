/** Reconciles of different GameServers: what one leaves of the other's objects, and why their order does not matter. */
module ServerFrames {
  import opened Prelude
  import opened Objects
  import opened GameTypes
  import opened Config
  import opened Services
  import opened Stores
  import opened ServerViews
  import opened GameServers

  // ---------------------------------------------------------------------------------------------
  // The shared account
  // ---------------------------------------------------------------------------------------------

  /** The reconcile gets to the ServiceAccount and is meant to create it. */
  predicate WantsAccount(i: Inputs, v: View, a: Answers, err: Option<ConfigError>) {
    && a.Ok(GetServer) && v.server.Some? && a.Ok(GetTemplate) && i.template.Some? && err.None?
    && !i.template.value.spec.anyUID && a.Ok(GetAccount)
  }

  function Filled(wanted: bool, account: Option<Labels>): Option<Labels> {
    if wanted && account.None? then Some(STANDARD_ACCOUNT) else account
  }

  function WithAccount(v: View, x: Option<Labels>): View {
    v.(account := x)
  }

  lemma {:induction false} ServicesIgnoreAccount(v: View, desired: seq<NamedService>, a: Answers, x: Option<Labels>)
    ensures var s := ApplyServices(v, desired, a);
            && ApplyServices(WithAccount(v, x), desired, a) == Stage(WithAccount(s.view, x), s.ok)
            && s.view.account == v.account
  {
    hide Applied;
    if desired != [] {
      ServicesIgnoreAccount(v, desired[..|desired| - 1], a, x);
    }
  }

  lemma ChildrenIgnoreAccount(k: Key, gs: GameServer, tpl: GameTemplate, source: Source, v: View, a: Answers,
                              x: Option<Labels>)
    requires v.server == Some(gs)
    ensures var r := ReconcileChildren(k, gs, tpl, source, v, a);
            && ReconcileChildren(k, gs, tpl, source, WithAccount(v, x), a) == WithAccount(r, x)
            && r.account == v.account
  {
    hide BuildPVC, BuildDeployment, DesiredServices, Finished, ApplyServices, AppliedServices, AppliedClaim,
        AppliedDeployment;
    var claimed := ApplyClaim(v, BuildPVC(k.name, gs, tpl, source), a);
    var deployed := ApplyDeployment(claimed.view, BuildDeployment(k.name, gs, tpl), a);
    var desired := DesiredServices(k, gs, tpl);
    ServicesIgnoreAccount(deployed.view, desired, a, x);
    var served := ApplyServices(deployed.view, desired, a).view;
    AppliedIgnoresAccount(served, desired, x);
    ServicesKeepTheRest(deployed.view, desired, a);
  }

  lemma AppliedIgnoresAccount(v: View, desired: seq<NamedService>, x: Option<Labels>)
    ensures AppliedServices(WithAccount(v, x), desired) == AppliedServices(v, desired)
  {
  }

  lemma ResolvedIgnoresAccount(sx: Syntax, k: Key, gs: GameServer, tpl: GameTemplate, backup: Option<Backup>, v: View,
                               a: Answers, err: Option<ConfigError>, x: Option<Labels>)
    requires v.server == Some(gs)
    requires var wanted := err.None? && !tpl.spec.anyUID && a.Ok(GetAccount);
             wanted && v.account.Some? != x.Some? ==> a.Ok(CreateAccount)
    ensures var creates := err.None? && !tpl.spec.anyUID && a.Ok(GetAccount) && a.Took(CreateAccount);
            var r := ReconcileResolved(sx, k, gs, tpl, backup, v, a, err);
            && r.account == Filled(creates, v.account)
            && ReconcileResolved(sx, k, gs, tpl, backup, WithAccount(v, x), a, err) == WithAccount(r, Filled(creates,
                x))
  {
    hide RestoreSource, Invalid, Unavailable, BadStorage, ReconcileChildren, STANDARD_ACCOUNT;
    var ensured := EnsureAccount(v, tpl, a).view;
    var source := RestoreSource(gs, v.claim, backup, a);
    var filled := Filled(err.None? && !tpl.spec.anyUID && a.Ok(GetAccount) && a.Took(CreateAccount), x);
    ChildrenIgnoreAccount(k, gs, tpl, source, ensured, a, filled);
  }

  /** The reconcile creates the account if it finds none. */
  predicate Creates(i: Inputs, v: View, a: Answers, err: Option<ConfigError>) {
    WantsAccount(i, v, a, err) && a.Took(CreateAccount)
  }

  /** Which account a reconcile finds makes no difference to anything else, unless it makes the difference between
      finding one and failing to create one. */
  lemma ReconcileIgnoresAccount(sx: Syntax, k: Key, i: Inputs, v: View, a: Answers, err: Option<ConfigError>,
                                x: Option<Labels>)
    requires WantsAccount(i, v, a, err) && v.account.Some? != x.Some? ==> a.Ok(CreateAccount)
    ensures var r := ReconcileView(sx, k, i, v, a, err);
            && r.account == Filled(Creates(i, v, a, err), v.account)
            && ReconcileView(sx, k, i, WithAccount(v, x), a, err) == WithAccount(r, Filled(Creates(i, v, a, err), x))
  {
    hide ReconcileResolved, TemplateMissing, STANDARD_ACCOUNT;
    if a.Ok(GetServer) && v.server.Some? && a.Ok(GetTemplate) && i.template.Some? {
      ResolvedIgnoresAccount(sx, k, v.server.value, i.template.value, i.backup, v, a, err, x);
    }
  }

  // ---------------------------------------------------------------------------------------------
  // Commutation
  // ---------------------------------------------------------------------------------------------

  lemma OtherInputs(st: Store, j: Key, k: Key, v: View)
    requires j != k
    ensures InputsOf(Embed(st, j, v), k) == InputsOf(st, k)
  {
    assert Get(Embed(st, j, v).servers, k) == Get(st.servers, k);
  }

  /** What the second of two reconciles makes of the store the first one left. */
  lemma SecondReconcile(sx: Syntax, st: Store, j: Key, k: Key, b: Answers, err: Option<ConfigError>, v: View)
    requires j != k
    ensures var i, w := InputsOf(st, k), Project(st, k);
            var seen := if j.ns == k.ns then v.account else w.account;
            ReconcileServer(sx, Embed(st, j, v), k, b, err)
            == Embed(Embed(st, j, v), k, ReconcileView(sx, k, i, WithAccount(w, seen), b, err))
  {
    hide ReconcileView, Embed, Project;
    OtherInputs(st, j, k, v);
    EmbedFramesOthers(st, k, j, v);
  }

  /** Later writes to a shared account win. */
  lemma AccountOverwritten(st: Store, j: Key, k: Key, v: View, w: View)
    requires j != k && j.ns == k.ns
    ensures Embed(Embed(st, j, v), k, w) == Embed(Embed(st, j, WithAccount(v, w.account)), k, w)
  {
    hide Set, SetServices, ServiceName;
    SetTwice(st.accounts, AccountKey(k), v.account, w.account);
    SetTwice(st.accounts, AccountKey(k), w.account, w.account);
  }

  /** Both servers live in one namespace, its ServiceAccount is missing, and both reconciles are meant to create it. */
  predicate Contested(st: Store, j: Key, k: Key, a: Answers, b: Answers, err: Option<ConfigError>,
                      err': Option<ConfigError>) {
    && j.ns == k.ns && Project(st, j).account.None?
    && WantsAccount(InputsOf(st, j), Project(st, j), a, err) && WantsAccount(InputsOf(st, k), Project(st, k), b, err')
  }

  /** Both creations are acknowledged, or neither takes effect. */
  predicate SameLuck(a: Answers, b: Answers) {
    (a.Ok(CreateAccount) && b.Ok(CreateAccount)) || (!a.Took(CreateAccount) && !b.Took(CreateAccount))
  }

  lemma SharedAccount(st: Store, j: Key, k: Key)
    ensures j.ns == k.ns ==> Project(st, j).account == Project(st, k).account
  {
  }

  /** Reconciles of distinct servers commute, whichever of their calls fail: both orders leave the same store, each
      server being assigned the ports its own calls are granted.  Only where both are to create the account they share
      must the two creations meet the same luck. */
  lemma ReconcilesCommute(sx: Syntax, st: Store, j: Key, k: Key, a: Answers, b: Answers, err: Option<ConfigError>,
                          err': Option<ConfigError>)
    requires j != k && (Contested(st, j, k, a, b, err, err') ==> SameLuck(a, b))
    ensures ReconcileServer(sx, ReconcileServer(sx, st, j, a, err), k, b, err')
            == ReconcileServer(sx, ReconcileServer(sx, st, k, b, err'), j, a, err)
  {
    hide ReconcileView, WantsAccount, Embed, STANDARD_ACCOUNT, Project;
    var vj, vk := Project(st, j), Project(st, k);
    var ij, ik := InputsOf(st, j), InputsOf(st, k);
    var rj, rk := ReconcileView(sx, j, ij, vj, a, err), ReconcileView(sx, k, ik, vk, b, err');
    var cj, ck := Creates(ij, vj, a, err), Creates(ik, vk, b, err');
    SharedAccount(st, j, k);
    ReconcileIgnoresAccount(sx, j, ij, vj, a, err, vj.account);
    ReconcileIgnoresAccount(sx, k, ik, vk, b, err', vk.account);
    SecondReconcile(sx, st, j, k, b, err', rj);
    SecondReconcile(sx, st, k, j, a, err, rk);
    if j.ns == k.ns {
      ReconcileIgnoresAccount(sx, j, ij, vj, a, err, rk.account);
      ReconcileIgnoresAccount(sx, k, ik, vk, b, err', rj.account);
      var z := Filled(ck, rj.account);
      assert z == Filled(cj, rk.account);
      AccountOverwritten(st, j, k, rj, WithAccount(rk, z));
      AccountOverwritten(st, k, j, rk, WithAccount(rj, z));
      EmbedsCommute(st, j, k, WithAccount(rj, z), WithAccount(rk, z));
    } else {
      assert WithAccount(vj, vj.account) == vj && WithAccount(vk, vk.account) == vk;
      EmbedsCommute(st, j, k, rj, rk);
    }
  }

  // ---------------------------------------------------------------------------------------------
  // A contested account
  // ---------------------------------------------------------------------------------------------

  /** Nothing but the account stands between the reconcile and its Deployment, which does not exist yet. */
  predicate WouldDeploy(sx: Syntax, i: Inputs, v: View, a: Answers, err: Option<ConfigError>) {
    && WantsAccount(i, v, a, err) && v.deployment.None?
    && !RestoreSource(v.server.value, v.claim, i.backup, a).NoSuch?
    && sx.isQuantity(ClaimSize(v.server.value, i.template.value))
    && a.Ok(GetClaim) && a.Ok(WriteClaim) && a.Ok(GetDeployment) && a.Ok(WriteDeployment)
  }

  lemma ChildrenDeploy(k: Key, gs: GameServer, tpl: GameTemplate, source: Source, v: View, a: Answers)
    requires v.server == Some(gs)
    requires a.Ok(GetClaim) && a.Ok(WriteClaim) && a.Ok(GetDeployment) && a.Ok(WriteDeployment)
    ensures ReconcileChildren(k, gs, tpl, source, v, a).deployment.Some?
  {
    hide BuildPVC, BuildDeployment, DesiredServices, Finished, ApplyServices, AppliedServices, AppliedClaim,
      AppliedDeployment;
    var claimed := ApplyClaim(v, BuildPVC(k.name, gs, tpl, source), a);
    var deployed := ApplyDeployment(claimed.view, BuildDeployment(k.name, gs, tpl), a);
    ServicesKeepTheRest(deployed.view, DesiredServices(k, gs, tpl), a);
  }

  /** Such a reconcile deploys exactly when it finds the account or gets its own creation acknowledged. */
  lemma DeploysIff(sx: Syntax, k: Key, i: Inputs, v: View, a: Answers, err: Option<ConfigError>)
    requires WouldDeploy(sx, i, v, a, err)
    ensures ReconcileView(sx, k, i, v, a, err).deployment.Some? <==> v.account.Some? || a.Ok(CreateAccount)
    ensures ReconcileView(sx, k, i, v, a, err).account.Some? <==> v.account.Some? || a.Took(CreateAccount)
  {
    hide RestoreSource, ClaimSize, ReconcileChildren, STANDARD_ACCOUNT;
    var gs, tpl := v.server.value, i.template.value;
    var ensured := EnsureAccount(v, tpl, a).view;
    var source := RestoreSource(gs, v.claim, i.backup, a);
    ChildrenDeploy(k, gs, tpl, source, ensured, a);
    ChildrenIgnoreAccount(k, gs, tpl, source, ensured, a, ensured.account);
  }

  lemma WouldStillDeploy(sx: Syntax, i: Inputs, v: View, a: Answers, err: Option<ConfigError>, x: Option<Labels>)
    requires WouldDeploy(sx, i, v, a, err)
    ensures WouldDeploy(sx, i, WithAccount(v, x), a, err)
  {
    hide RestoreSource, ClaimSize;
  }

  /** Which of two contesting servers has a Deployment once the first and then the second has been reconciled. */
  lemma DeployedInTurn(sx: Syntax, st: Store, j: Key, k: Key, a: Answers, b: Answers, err: Option<ConfigError>,
                       err': Option<ConfigError>)
    requires j != k && Contested(st, j, k, a, b, err, err')
    requires WouldDeploy(sx, InputsOf(st, j), Project(st, j), a, err)
    requires WouldDeploy(sx, InputsOf(st, k), Project(st, k), b, err')
    ensures var last := ReconcileServer(sx, ReconcileServer(sx, st, j, a, err), k, b, err');
            && (j in last.deployments <==> a.Ok(CreateAccount))
            && (k in last.deployments <==> a.Took(CreateAccount) || b.Ok(CreateAccount))
  {
    hide ReconcileView, Embed, WouldDeploy, WantsAccount, Project;
    var vj, vk := Project(st, j), Project(st, k);
    var rj := ReconcileView(sx, j, InputsOf(st, j), vj, a, err);
    DeploysIff(sx, j, InputsOf(st, j), vj, a, err);
    SecondReconcile(sx, st, j, k, b, err', rj);
    WouldStillDeploy(sx, InputsOf(st, k), vk, b, err', rj.account);
    DeploysIff(sx, k, InputsOf(st, k), WithAccount(vk, rj.account), b, err');
    var rk := ReconcileView(sx, k, InputsOf(st, k), WithAccount(vk, rj.account), b, err');
    var last := Embed(Embed(st, j, rj), k, rk);
    EmbedFramesOthers(Embed(st, j, rj), j, k, rk);
    ProjectEmbed(st, j, rj);
    ProjectEmbed(Embed(st, j, rj), k, rk);
    DeploymentsRead(last, j);
    DeploymentsRead(last, k);
  }

  lemma DeploymentsRead(st: Store, k: Key)
    ensures Project(st, k).deployment.Some? <==> k in st.deployments
  {
  }

  /** Two new servers contesting a missing account commute exactly when their creations meet the same luck: otherwise
      the order decides which of them stops short of its Deployment. */
  lemma ContestedCommuteIff(sx: Syntax, st: Store, j: Key, k: Key, a: Answers, b: Answers, err: Option<ConfigError>,
                            err': Option<ConfigError>)
    requires j != k && Contested(st, j, k, a, b, err, err')
    requires WouldDeploy(sx, InputsOf(st, j), Project(st, j), a, err)
    requires WouldDeploy(sx, InputsOf(st, k), Project(st, k), b, err')
    ensures ReconcileServer(sx, ReconcileServer(sx, st, j, a, err), k, b, err')
            == ReconcileServer(sx, ReconcileServer(sx, st, k, b, err'), j, a, err)
            <==> SameLuck(a, b)
  {
    hide ReconcileServer, WouldDeploy, WantsAccount, Project;
    SharedAccount(st, j, k);
    if SameLuck(a, b) {
      ReconcilesCommute(sx, st, j, k, a, b, err, err');
    } else {
      DeployedInTurn(sx, st, j, k, a, b, err, err');
      DeployedInTurn(sx, st, k, j, b, a, err', err);
    }
  }

  /** An input: two fresh servers in a namespace without the account, the first one's creation lost, everything else
      acknowledged.  Reconciled first, it stops; reconciled second, it goes through. */
  lemma OrdersDiffer(sx: Syntax)
    requires sx.isQuantity("10Gi")
    ensures var j, k, st := Key("games", "one"), Key("games", "two"), TwoFreshServers();
            var lost, fine := CreationAnswers(Lost), CreationAnswers(Acknowledged);
            var first := ReconcileServer(sx, ReconcileServer(sx, st, j, lost, None), k, fine, None);
            var second := ReconcileServer(sx, ReconcileServer(sx, st, k, fine, None), j, lost, None);
            j !in first.deployments && j in second.deployments
  {
    hide ReconcileServer, WouldDeploy, WantsAccount, InputsOf, Project, TwoFreshServers;
    var j, k, st := Key("games", "one"), Key("games", "two"), TwoFreshServers();
    var lost, fine := CreationAnswers(Lost), CreationAnswers(Acknowledged);
    FreshServerWouldDeploy(sx, "one", Lost);
    FreshServerWouldDeploy(sx, "two", Acknowledged);
    DeployedInTurn(sx, st, j, k, lost, fine, None, None);
    DeployedInTurn(sx, st, k, j, fine, lost, None, None);
  }

  lemma FreshServerWouldDeploy(sx: Syntax, name: string, fate: CallResult)
    requires sx.isQuantity("10Gi") && (name == "one" || name == "two")
    ensures var k, st, a := Key("games", name), TwoFreshServers(), CreationAnswers(fate);
            && Project(st, k).account.None?
            && WantsAccount(InputsOf(st, k), Project(st, k), a, None)
            && WouldDeploy(sx, InputsOf(st, k), Project(st, k), a, None)
  {
    hide Project, InputsOf, TwoFreshServers;
    FreshServerSees(name);
  }

  lemma FreshServerSees(name: string)
    requires name == "one" || name == "two"
    ensures var k, st := Key("games", name), TwoFreshServers();
            && InputsOf(st, k) == Inputs(Some(FRESH_TEMPLATE), None)
            && Project(st, k) == View(Some(FRESH_SERVER), None, None, None, Exposed(None, None, None))
  {
    hide ServiceKey, ClaimKey;
    var st := TwoFreshServers();
    assert st.servers[Key("games", name)] == FRESH_SERVER;
    assert st.templates["t"] == FRESH_TEMPLATE;
  }

  const FRESH_TEMPLATE := GameTemplate(TemplateSpec("image", [], [], [], "", false), 1)
  const FRESH_SERVER := GameServer(ServerSpec("t", map[], "", "", [], false, [], None), 1,
                                   ServerStatus(NoServerPhase, "", 0, 0, 0, []))

  function CreationAnswers(fate: CallResult): Answers {
    Answers(0, c => if c == CreateAccount then fate else Acknowledged, e => Allocation(n => 30000, "10.0.0.1"))
  }

  function TwoFreshServers(): Store {
    Store(map["t" := FRESH_TEMPLATE],
          map[Key("games", "one") := FRESH_SERVER, Key("games", "two") := FRESH_SERVER],
          map[], map[], map[], map[], map[], map[])
  }

  // ---------------------------------------------------------------------------------------------
  // Frame
  // ---------------------------------------------------------------------------------------------

  lemma AccountOnlyAppears(sx: Syntax, k: Key, i: Inputs, v: View, a: Answers, err: Option<ConfigError>)
    ensures var after := ReconcileView(sx, k, i, v, a, err).account;
            after == v.account || (v.account.None? && after == Some(STANDARD_ACCOUNT))
  {
    hide RestoreSource, Invalid, Unavailable, BadStorage, ReconcileChildren, STANDARD_ACCOUNT, TemplateMissing;
    if v.server.Some? && i.template.Some? {
      var gs := v.server.value;
      var ensured := EnsureAccount(v, i.template.value, a).view;
      ChildrenIgnoreAccount(k, gs, i.template.value, RestoreSource(gs, v.claim, i.backup, a), ensured, a, None);
    }
  }

  /** Whatever fails, a reconcile changes nothing that belongs to another server, nor any template, Backup or snapshot;
      at most it adds the ServiceAccount the namespace shares. */
  lemma ReconcileFramesOthers(sx: Syntax, st: Store, j: Key, k: Key, a: Answers, err: Option<ConfigError>)
    requires j != k
    ensures var after := ReconcileServer(sx, st, k, a, err);
            var mine, theirs := Project(st, j), Project(after, j);
            && theirs == mine.(account := theirs.account)
            && (theirs.account == mine.account || (j.ns == k.ns && mine.account.None?
                && theirs.account == Some(STANDARD_ACCOUNT)))
            && after.templates == st.templates && after.backups == st.backups && after.snapshots == st.snapshots
  {
    hide ReconcileView, Project, Set, SetServices;
    var v := ReconcileView(sx, k, InputsOf(st, k), Project(st, k), a, err);
    EmbedFramesOthers(st, j, k, v);
    AccountOnlyAppears(sx, k, InputsOf(st, k), Project(st, k), a, err);
    SharedAccount(st, j, k);
  }

  /** The frame object by object: only the server's own status, claim, Deployment and Services, and the account, can
      differ. */
  lemma ReconcileFramesKeys(sx: Syntax, st: Store, k: Key, a: Answers, err: Option<ConfigError>, x: Key)
    ensures var after := ReconcileServer(sx, st, k, a, err);
            && (x != k ==>
                  && Get(after.servers, x) == Get(st.servers, x)
                  && Get(after.deployments, x) == Get(st.deployments, x))
            && (x != ClaimKey(k) ==> Get(after.pvcs, x) == Get(st.pvcs, x))
            && (x != AccountKey(k) ==> Get(after.accounts, x) == Get(st.accounts, x))
            && ((forall e :: x != ServiceKey(k, e)) ==> Get(after.services, x) == Get(st.services, x))
  {
    hide ReconcileView, Set, ServiceKey;
  }

  // ---------------------------------------------------------------------------------------------
  // The server's own objects
  // ---------------------------------------------------------------------------------------------

  lemma {:induction false} ServicesTouchOnly(v: View, desired: seq<NamedService>, a: Answers, e: Exposure)
    requires forall i :: 0 <= i < |desired| ==> desired[i].service.kind != e
    ensures ApplyServices(v, desired, a).view.services.At(e) == v.services.At(e)
  {
    hide Applied;
    if desired != [] {
      ServicesTouchOnly(v, desired[..|desired| - 1], a, e);
    }
  }

  lemma ChildrenKeepOwn(k: Key, gs: GameServer, tpl: GameTemplate, source: Source, v: View, a: Answers, e: Exposure)
    requires v.server == Some(gs)
    ensures var after := ReconcileChildren(k, gs, tpl, source, v, a);
            && (v.claim.Some? ==>
                  after.claim.Some? && after.claim.value == v.claim.value.(labels := after.claim.value.labels))
            && (e !in ExposuresUsed(gs.spec.exposeOverride, tpl.spec.ports) ==>
                  after.services.At(e) == v.services.At(e))
  {
    hide BuildPVC, BuildDeployment, Finished, ApplyServices, AppliedServices, AppliedDeployment, ExposuresUsed, Group;
    var claimed := ApplyClaim(v, BuildPVC(k.name, gs, tpl, source), a);
    var deployed := ApplyDeployment(claimed.view, BuildDeployment(k.name, gs, tpl), a);
    var desired := DesiredServices(k, gs, tpl);
    ServicesKeepTheRest(deployed.view, desired, a);
    if e !in ExposuresUsed(gs.spec.exposeOverride, tpl.spec.ports) {
      ServicesTouchOnly(deployed.view, desired, a, e);
    }
  }

  /** Whatever fails, an existing claim only ever has its labels put back, and a Service for an exposure the template no
      longer uses is neither updated nor deleted. */
  lemma ReconcileKeepsOwn(sx: Syntax, k: Key, i: Inputs, v: View, a: Answers, err: Option<ConfigError>, e: Exposure)
    ensures var after := ReconcileView(sx, k, i, v, a, err);
            && (v.claim.Some? ==>
                  after.claim.Some? && after.claim.value == v.claim.value.(labels := after.claim.value.labels))
            && (v.server.Some? && i.template.Some?
                && e !in ExposuresUsed(v.server.value.spec.exposeOverride, i.template.value.spec.ports) ==>
                  after.services.At(e) == v.services.At(e))
  {
    hide RestoreSource, Invalid, Unavailable, BadStorage, ReconcileChildren, STANDARD_ACCOUNT, TemplateMissing,
        ExposuresUsed;
    if v.server.Some? && i.template.Some? {
      var gs := v.server.value;
      var ensured := EnsureAccount(v, i.template.value, a).view;
      ChildrenKeepOwn(k, gs, i.template.value, RestoreSource(gs, v.claim, i.backup, a), ensured, a, e);
    }
  }
}
