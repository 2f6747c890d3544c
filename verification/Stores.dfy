/** The apiserver's objects the server and backup controllers share. */
module Stores {
  import opened Prelude
  import opened Conditions
  import opened Objects
  import opened GameTypes
  import opened Services

  type Labels = map<string, string>

  datatype ServerPhase = NoServerPhase | PhasePending | PhaseProvisioning | PhaseReady | PhaseDegraded | PhaseStopped

  datatype ServerStatus = ServerStatus(
    phase: ServerPhase,
    address: string,
    observedGeneration: int,
    templateGeneration: int,
    readyReplicas: int,
    conditions: seq<Condition>)

  datatype GameServer = GameServer(spec: ServerSpec, generation: int, status: ServerStatus)

  datatype GameTemplate = GameTemplate(spec: TemplateSpec, generation: int)

  /** A claim; `dataSource` names the VolumeSnapshot it is seeded from, `owner` the server that controls it. */
  datatype PVC = PVC(
    labels: Labels,
    size: string,
    className: Option<string>,
    dataSource: Option<string>,
    owner: Option<string>)

  datatype DeploymentSpec = DeploymentSpec(
    replicas: int,
    selector: Labels,
    podLabels: Labels,
    serviceAccount: string,
    image: string,
    env: seq<EnvVar>,
    claim: string)

  datatype Deployment = Deployment(labels: Labels, spec: DeploymentSpec, readyReplicas: int)

  datatype SnapshotStatus = SnapshotStatus(
    boundContent: Option<string>,
    restoreSize: Option<string>,
    creationTime: Option<int>,
    readyToUse: Option<bool>,
    errorMessage: Option<string>)
  {
    predicate Ready() { readyToUse == Some(true) }
  }

  datatype VolumeSnapshot = VolumeSnapshot(
    labels: Labels,
    source: string,
    className: Option<string>,
    status: Option<SnapshotStatus>)
  {
    predicate Ready() { status.Some? && status.value.Ready() }
  }

  datatype Store = Store(
    templates: map<string, GameTemplate>,
    servers: map<Key, GameServer>,
    accounts: map<Key, Labels>,
    pvcs: map<Key, PVC>,
    deployments: map<Key, Deployment>,
    services: map<Key, Service>,
    backups: map<Key, Backup>,
    snapshots: map<Key, VolumeSnapshot>)

  function Get<K, V>(m: map<K, V>, k: K): Option<V> {
    if k in m then Some(m[k]) else None
  }

  function Set<K(!new), V>(m: map<K, V>, k: K, v: Option<V>): (r: map<K, V>)
    ensures Get(r, k) == v
    ensures forall x :: x != k ==> Get(r, x) == Get(m, x)
  {
    if v.Some? then m[k := v.value] else map x | x in m && x != k :: m[x]
  }

  lemma MapsAgree<K(!new), V>(m: map<K, V>, n: map<K, V>)
    requires forall x :: Get(m, x) == Get(n, x)
    ensures m == n
  {
    forall x
      ensures x in m <==> x in n
      ensures x in m ==> m[x] == n[x]
    {
      assert Get(m, x) == Get(n, x);
    }
  }
}
