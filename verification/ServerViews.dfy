/** The part of the store one GameServer's reconcile may write, as a lens into the store. */
module ServerViews {
  import opened Prelude
  import opened GameTypes
  import opened Services
  import opened Stores

  /** A server's Services, one slot per exposure. */
  datatype Exposed = Exposed(cluster: Option<Service>, node: Option<Service>, balancer: Option<Service>)
  {
    function At(e: Exposure): Option<Service> {
      match e
      case ClusterIP => cluster
      case NodePort => node
      case LoadBalancer => balancer
    }

    function With(e: Exposure, s: Service): (r: Exposed)
      ensures forall f :: r.At(f) == if f == e then Some(s) else At(f)
    {
      match e
      case ClusterIP => this.(cluster := Some(s))
      case NodePort => this.(node := Some(s))
      case LoadBalancer => this.(balancer := Some(s))
    }
  }

  datatype View = View(
    server: Option<GameServer>,
    account: Option<Labels>,
    claim: Option<PVC>,
    deployment: Option<Deployment>,
    services: Exposed)

  const RESTRICTED := "gameserver-restricted"
  const ANYUID := "gameserver-anyuid"

  function AccountKey(k: Key): Key {
    Key(k.ns, RESTRICTED)
  }

  function ClaimKey(k: Key): Key {
    Key(k.ns, PVCName(k.name))
  }

  function ServiceKey(k: Key, e: Exposure): Key {
    Key(k.ns, ServiceName(k.name, e))
  }

  function Project(st: Store, k: Key): View {
    View(Get(st.servers, k), Get(st.accounts, AccountKey(k)), Get(st.pvcs, ClaimKey(k)), Get(st.deployments, k),
         Exposed(Get(st.services, ServiceKey(k, ClusterIP)), Get(st.services, ServiceKey(k, NodePort)),
                 Get(st.services, ServiceKey(k, LoadBalancer))))
  }

  function SetServices(m: map<Key, Service>, k: Key, s: Exposed): map<Key, Service> {
    Set(Set(Set(m, ServiceKey(k, ClusterIP), s.cluster), ServiceKey(k, NodePort), s.node),
        ServiceKey(k, LoadBalancer), s.balancer)
  }

  /** The store with one server's part replaced. */
  function Embed(st: Store, k: Key, v: View): Store {
    st.(servers := Set(st.servers, k, v.server),
        accounts := Set(st.accounts, AccountKey(k), v.account),
        pvcs := Set(st.pvcs, ClaimKey(k), v.claim),
        deployments := Set(st.deployments, k, v.deployment),
        services := SetServices(st.services, k, v.services))
  }

  lemma SetBack<K(!new), V>(m: map<K, V>, k: K)
    ensures Set(m, k, Get(m, k)) == m
  {
    MapsAgree(Set(m, k, Get(m, k)), m);
  }

  lemma SetTwice<K(!new), V>(m: map<K, V>, k: K, v: Option<V>, w: Option<V>)
    ensures Set(Set(m, k, v), k, w) == Set(m, k, w)
  {
    MapsAgree(Set(Set(m, k, v), k, w), Set(m, k, w));
  }

  lemma ServiceKeysDiffer(k: Key)
    ensures forall e, f :: ServiceKey(k, e) == ServiceKey(k, f) ==> e == f
  {
    forall e, f | ServiceKey(k, e) == ServiceKey(k, f)
      ensures e == f
    {
      ChildNamesAreInjective(k.name, e, k.name, f);
    }
  }

  lemma SetServicesBack(m: map<Key, Service>, k: Key)
    ensures SetServices(m, k, Exposed(Get(m, ServiceKey(k, ClusterIP)), Get(m, ServiceKey(k, NodePort)),
                                      Get(m, ServiceKey(k, LoadBalancer)))) == m
  {
    hide Set, Get, ServiceKey;
    SetBack(m, ServiceKey(k, ClusterIP));
    SetBack(m, ServiceKey(k, NodePort));
    SetBack(m, ServiceKey(k, LoadBalancer));
  }

  lemma SetServicesTwice(m: map<Key, Service>, k: Key, s: Exposed, t: Exposed)
    ensures SetServices(SetServices(m, k, s), k, t) == SetServices(m, k, t)
  {
    hide Set, Get, ServiceKey;
    var a, b := SetServices(SetServices(m, k, s), k, t), SetServices(m, k, t);
    ServiceKeysDiffer(k);
    forall x
      ensures Get(a, x) == Get(b, x)
    {
    }
    MapsAgree(a, b);
  }

  // ---------------------------------------------------------------------------------------------
  // Lens laws
  // ---------------------------------------------------------------------------------------------

  lemma ProjectEmbed(st: Store, k: Key, v: View)
    ensures Project(Embed(st, k, v), k) == v
  {
    hide Set, Get, ServiceKey, ClaimKey, AccountKey;
    ServiceKeysDiffer(k);
  }

  lemma EmbedProject(st: Store, k: Key)
    ensures Embed(st, k, Project(st, k)) == st
  {
    hide Set, Get, ServiceKey, ClaimKey, AccountKey, SetServices;
    SetBack(st.servers, k);
    SetBack(st.accounts, AccountKey(k));
    SetBack(st.pvcs, ClaimKey(k));
    SetBack(st.deployments, k);
    SetServicesBack(st.services, k);
  }

  lemma EmbedTwice(st: Store, k: Key, v: View, w: View)
    ensures Embed(Embed(st, k, v), k, w) == Embed(st, k, w)
  {
    hide Set, Get, ServiceKey, ClaimKey, AccountKey, SetServices;
    SetTwice(st.servers, k, v.server, w.server);
    SetTwice(st.accounts, AccountKey(k), v.account, w.account);
    SetTwice(st.pvcs, ClaimKey(k), v.claim, w.claim);
    SetTwice(st.deployments, k, v.deployment, w.deployment);
    SetServicesTwice(st.services, k, v.services, w.services);
  }

  /** Once a server's part has been replaced, it reads back as written and can be replaced again. */
  lemma Chain(base: Store, k: Key, v: View, w: View)
    ensures Project(Embed(base, k, v), k) == v
    ensures Embed(Embed(base, k, v), k, w) == Embed(base, k, w)
  {
    ProjectEmbed(base, k, v);
    EmbedTwice(base, k, v, w);
  }

  lemma PartsBack(st: Store, k: Key)
    ensures var v := Project(st, k);
            && Set(st.servers, k, v.server) == st.servers
            && Set(st.accounts, AccountKey(k), v.account) == st.accounts
            && Set(st.pvcs, ClaimKey(k), v.claim) == st.pvcs
            && Set(st.deployments, k, v.deployment) == st.deployments
            && SetServices(st.services, k, v.services) == st.services
  {
    hide Set, Get, ServiceKey, ClaimKey, AccountKey, SetServices;
    SetBack(st.servers, k);
    SetBack(st.accounts, AccountKey(k));
    SetBack(st.pvcs, ClaimKey(k));
    SetBack(st.deployments, k);
    SetServicesBack(st.services, k);
  }

  lemma WroteServer(st: Store, k: Key, x: GameServer)
    ensures st.(servers := st.servers[k := x]) == Embed(st, k, Project(st, k).(server := Some(x)))
  {
    hide Get, ServiceKey, ClaimKey, AccountKey, SetServices;
    PartsBack(st, k);
  }

  lemma WroteAccount(st: Store, k: Key, x: Labels)
    ensures st.(accounts := st.accounts[AccountKey(k) := x]) == Embed(st, k, Project(st, k).(account := Some(x)))
  {
    hide Get, ServiceKey, ClaimKey, AccountKey, SetServices;
    PartsBack(st, k);
  }

  lemma WroteClaim(st: Store, k: Key, x: PVC)
    ensures st.(pvcs := st.pvcs[ClaimKey(k) := x]) == Embed(st, k, Project(st, k).(claim := Some(x)))
  {
    hide Get, ServiceKey, ClaimKey, AccountKey, SetServices;
    PartsBack(st, k);
  }

  lemma WroteDeployment(st: Store, k: Key, x: Deployment)
    ensures st.(deployments := st.deployments[k := x]) == Embed(st, k, Project(st, k).(deployment := Some(x)))
  {
    hide Get, ServiceKey, ClaimKey, AccountKey, SetServices;
    PartsBack(st, k);
  }

  lemma WroteServiceSlot(m: map<Key, Service>, k: Key, s: Exposed, e: Exposure, x: Service)
    requires SetServices(m, k, s) == m
    ensures m[ServiceKey(k, e) := x] == SetServices(m, k, s.With(e, x))
  {
    hide ServiceKey;
    ServiceKeysDiffer(k);
    var n := SetServices(m, k, s.With(e, x));
    forall y
      ensures Get(m[ServiceKey(k, e) := x], y) == Get(n, y)
    {
      assert Get(SetServices(m, k, s), y) == Get(m, y);
    }
    MapsAgree(m[ServiceKey(k, e) := x], n);
  }

  lemma WroteService(st: Store, k: Key, e: Exposure, x: Service)
    ensures st.(services := st.services[ServiceKey(k, e) := x])
            == Embed(st, k, Project(st, k).(services := Project(st, k).services.With(e, x)))
  {
    hide Get, Set, ServiceKey, ClaimKey, AccountKey, SetServices;
    PartsBack(st, k);
    WroteServiceSlot(st.services, k, Project(st, k).services, e, x);
  }

  // ---------------------------------------------------------------------------------------------
  // Two servers
  // ---------------------------------------------------------------------------------------------

  lemma OtherKeysDiffer(j: Key, k: Key)
    requires j != k
    ensures ClaimKey(j) != ClaimKey(k)
    ensures forall e, f :: ServiceKey(j, e) != ServiceKey(k, f)
  {
    ChildNamesAreInjective(j.name, ClusterIP, k.name, ClusterIP);
    forall e, f
      ensures ServiceKey(j, e) != ServiceKey(k, f)
    {
      ChildNamesAreInjective(j.name, e, k.name, f);
    }
  }

  /** Replacing one server's part leaves every part of another server alone, except the ServiceAccount the two share
      when they live in the same namespace. */
  lemma EmbedFramesOthers(st: Store, j: Key, k: Key, v: View)
    requires j != k
    ensures var before, after := Project(st, j), Project(Embed(st, k, v), j);
            after == before.(account := if j.ns == k.ns then v.account else before.account)
  {
    hide Set, Get, ServiceKey, ClaimKey;
    OtherKeysDiffer(j, k);
  }

  lemma ServicesCommute(m: map<Key, Service>, j: Key, k: Key, s: Exposed, t: Exposed)
    requires j != k
    ensures SetServices(SetServices(m, j, s), k, t) == SetServices(SetServices(m, k, t), j, s)
  {
    hide Set, Get, ServiceKey;
    var a, b := SetServices(SetServices(m, j, s), k, t), SetServices(SetServices(m, k, t), j, s);
    ServiceKeysDiffer(j);
    ServiceKeysDiffer(k);
    OtherKeysDiffer(j, k);
    forall x
      ensures Get(a, x) == Get(b, x)
    {
    }
    MapsAgree(a, b);
  }

  lemma SetsCommute<K(!new), V>(m: map<K, V>, j: K, k: K, v: Option<V>, w: Option<V>)
    requires j != k || v == w
    ensures Set(Set(m, j, v), k, w) == Set(Set(m, k, w), j, v)
  {
    MapsAgree(Set(Set(m, j, v), k, w), Set(Set(m, k, w), j, v));
  }

  /** Parts of distinct servers can be replaced in either order, if what is written to a shared account agrees. */
  lemma EmbedsCommute(st: Store, j: Key, k: Key, v: View, w: View)
    requires j != k && (j.ns == k.ns ==> v.account == w.account)
    ensures Embed(Embed(st, j, v), k, w) == Embed(Embed(st, k, w), j, v)
  {
    hide Set, Get, ServiceKey, ClaimKey, SetServices;
    OtherKeysDiffer(j, k);
    SetsCommute(st.servers, j, k, v.server, w.server);
    SetsCommute(st.accounts, AccountKey(j), AccountKey(k), v.account, w.account);
    SetsCommute(st.pvcs, ClaimKey(j), ClaimKey(k), v.claim, w.claim);
    SetsCommute(st.deployments, j, k, v.deployment, w.deployment);
    ServicesCommute(st.services, j, k, v.services, w.services);
  }
}
