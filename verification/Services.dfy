/** Services: grouping a template's ports by exposure, merging with what the apiserver has assigned, and the
    connect address derived from the result. */
module Services {
  import opened Prelude
  import opened GameTypes
  import opened Admission

  datatype ServicePort = ServicePort(name: string, port: int, targetPort: int, protocol: Protocol, nodePort: int)

  datatype Ingress = Ingress(hostname: string, ip: string)

  datatype Service = Service(
    labels: map<string, string>,
    kind: Exposure,
    selector: map<string, string>,
    ports: seq<ServicePort>,
    clusterIP: string,
    ingress: seq<Ingress>)

  datatype NamedService = NamedService(name: string, service: Service)

  // ---------------------------------------------------------------------------------------------
  // Names and labels
  // ---------------------------------------------------------------------------------------------

  function Lower(e: Exposure): string {
    match e
    case ClusterIP => "clusterip"
    case NodePort => "nodeport"
    case LoadBalancer => "loadbalancer"
  }

  function ServiceName(server: string, e: Exposure): string {
    server + "-" + Lower(e)
  }

  function PVCName(server: string): string {
    server + "-data"
  }

  function BaseLabels(server: string, template: string): map<string, string> {
    map["app.kubernetes.io/name" := "gameserver",
        "app.kubernetes.io/instance" := server,
        "app.kubernetes.io/managed-by" := "gameserver-operator",
        "gameserver.feddern.dev/template" := template]
  }

  function SelectorLabels(server: string): map<string, string> {
    map["app.kubernetes.io/name" := "gameserver", "app.kubernetes.io/instance" := server]
  }

  /** The names, labels and selectors of a server's children, spelled out. */
  predicate NamedFor(name: string, server: string, e: Exposure) {
    match e
    case ClusterIP => name == server + "-clusterip"
    case NodePort => name == server + "-nodeport"
    case LoadBalancer => name == server + "-loadbalancer"
  }

  predicate ChildLabels(labels: map<string, string>, server: string, template: string) {
    labels == map["app.kubernetes.io/name" := "gameserver",
                  "app.kubernetes.io/instance" := server,
                  "app.kubernetes.io/managed-by" := "gameserver-operator",
                  "gameserver.feddern.dev/template" := template]
  }

  predicate PodSelector(selector: map<string, string>, server: string) {
    selector == map["app.kubernetes.io/name" := "gameserver", "app.kubernetes.io/instance" := server]
  }

  predicate Selects(selector: map<string, string>, labels: map<string, string>) {
    forall k :: k in selector ==> k in labels && labels[k] == selector[k]
  }

  /** Child names identify the server, and for Services the exposure too. */
  lemma ChildNamesAreInjective(a: string, e: Exposure, b: string, f: Exposure)
    ensures ServiceName(a, e) == ServiceName(b, f) <==> a == b && e == f
    ensures PVCName(a) == PVCName(b) <==> a == b
  {
    var x, y := ServiceName(a, e), ServiceName(b, f);
    assert x[|x| - 1] == Lower(e)[|Lower(e)| - 1];
    assert y[|y| - 1] == Lower(f)[|Lower(f)| - 1];
    if e == f && x == y {
      assert x[..|x| - |Lower(e)| - 1] == a;
      assert y[..|y| - |Lower(f)| - 1] == b;
    }
    assert PVCName(a)[..|PVCName(a)| - 5] == a;
    assert PVCName(b)[..|PVCName(b)| - 5] == b;
  }

  /** A server's selector matches the pods of that server and of no other, whatever their templates. */
  lemma SelectorsSeparateServers(a: string, b: string, template: string)
    ensures Selects(SelectorLabels(a), BaseLabels(b, template)) <==> a == b
  {
    assert SelectorLabels(a)["app.kubernetes.io/instance"] == a;
  }

  // ---------------------------------------------------------------------------------------------
  // Exposure of one port
  // ---------------------------------------------------------------------------------------------

  function OverrideOf(overrides: seq<ExposureOverride>, portName: string): Option<ExposureOverride> {
    if overrides == [] then None
    else if overrides[0].portName == portName then Some(overrides[0])
    else OverrideOf(overrides[1..], portName)
  }

  function ExposureOf(overrides: seq<ExposureOverride>, p: TemplatePort): Exposure {
    var o := OverrideOf(overrides, p.name);
    if o.Some? then o.value.exposeAs else if p.exposeAs.Some? then p.exposeAs.value else ClusterIP
  }

  function PinOf(overrides: seq<ExposureOverride>, p: TemplatePort): int {
    var o := OverrideOf(overrides, p.name);
    if o.Some? then o.value.nodePort else 0
  }

  /** overrides[i] is the first one that names the port. */
  predicate FirstOverride(overrides: seq<ExposureOverride>, portName: string, i: int) {
    && 0 <= i < |overrides| && overrides[i].portName == portName
    && forall j :: 0 <= j < i ==> overrides[j].portName != portName
  }

  /** How a port is exposed, and on which pinned node port: as the server's first override for it says, else as the
      template does, ClusterIP by default, without a pin. */
  ghost predicate Effective(overrides: seq<ExposureOverride>, p: TemplatePort, e: Exposure, pin: int) {
    && (forall i :: FirstOverride(overrides, p.name, i) ==> e == overrides[i].exposeAs && pin == overrides[i].nodePort)
    && ((forall i :: 0 <= i < |overrides| ==> overrides[i].portName != p.name) ==>
          pin == 0 && (p.exposeAs.Some? ==> e == p.exposeAs.value) && (p.exposeAs.None? ==> e == ClusterIP))
  }

  lemma {:induction false} OverrideIsFirst(overrides: seq<ExposureOverride>, name: string)
    ensures var o := OverrideOf(overrides, name);
            if o.Some? then exists i :: FirstOverride(overrides, name, i) && overrides[i] == o.value
            else forall i :: 0 <= i < |overrides| ==> overrides[i].portName != name
  {
    if overrides != [] && overrides[0].portName != name {
      OverrideIsFirst(overrides[1..], name);
      if OverrideOf(overrides, name).Some? {
        var i :| FirstOverride(overrides[1..], name, i) && overrides[1..][i] == OverrideOf(overrides, name).value;
        assert FirstOverride(overrides, name, i + 1);
      }
    } else if overrides != [] {
      assert FirstOverride(overrides, name, 0);
    }
  }

  /** The exposure and the pin a port resolves to are its effective ones, and those are unique. */
  lemma ExposureIsEffective(overrides: seq<ExposureOverride>, p: TemplatePort, e: Exposure, pin: int)
    ensures Effective(overrides, p, e, pin) <==> e == ExposureOf(overrides, p) && pin == PinOf(overrides, p)
  {
    hide OverrideOf;
    OverrideIsFirst(overrides, p.name);
    if OverrideOf(overrides, p.name).Some? {
      var i :| FirstOverride(overrides, p.name, i) && overrides[i] == OverrideOf(overrides, p.name).value;
      assert overrides[i].portName == p.name;
      forall j | FirstOverride(overrides, p.name, j)
        ensures j == i
      {
      }
    }
  }

  method ResolveExposure(overrides: seq<ExposureOverride>, p: TemplatePort) returns (exposure: Exposure, nodePort: int)
    ensures exposure == ExposureOf(overrides, p)
    ensures nodePort == PinOf(overrides, p)
    ensures Effective(overrides, p, exposure, nodePort)
  {
    ExposureIsEffective(overrides, p, ExposureOf(overrides, p), PinOf(overrides, p));
    exposure := if p.exposeAs.Some? then p.exposeAs.value else ClusterIP;
    nodePort := 0;
    assert overrides[0..] == overrides;
    for i := 0 to |overrides|
      invariant OverrideOf(overrides, p.name) == OverrideOf(overrides[i..], p.name)
    {
      var o := overrides[i];
      assert overrides[i..][0] == o && overrides[i..][1..] == overrides[i + 1..];
      if o.portName == p.name {
        return o.exposeAs, o.nodePort;
      }
    }
  }

  function ProtocolOf(p: TemplatePort): Protocol {
    if p.protocol.Some? then p.protocol.value else TCP
  }

  function PortOf(overrides: seq<ExposureOverride>, p: TemplatePort): ServicePort {
    var pin := PinOf(overrides, p);
    ServicePort(p.name, p.containerPort, p.containerPort, ProtocolOf(p),
                if ExposureOf(overrides, p) == NodePort && pin > 0 then pin else 0)
  }

  // ---------------------------------------------------------------------------------------------
  // Grouping
  // ---------------------------------------------------------------------------------------------

  /** Exposures in the order the template's ports first use them. */
  function ExposuresUsed(overrides: seq<ExposureOverride>, ports: seq<TemplatePort>): seq<Exposure> {
    if ports == [] then []
    else
      var before := ExposuresUsed(overrides, ports[..|ports| - 1]);
      var e := ExposureOf(overrides, ports[|ports| - 1]);
      if e in before then before else before + [e]
  }

  /** The ports of one exposure, in template order. */
  function Group(overrides: seq<ExposureOverride>, ports: seq<TemplatePort>, e: Exposure): seq<ServicePort> {
    if ports == [] then []
    else
      var p := ports[|ports| - 1];
      Group(overrides, ports[..|ports| - 1], e) + if ExposureOf(overrides, p) == e then [PortOf(overrides, p)] else []
  }

  function ServiceFor(server: string, template: string, overrides: seq<ExposureOverride>, ports: seq<TemplatePort>,
                      e: Exposure): NamedService
  {
    NamedService(ServiceName(server, e),
                 Service(BaseLabels(server, template), e, SelectorLabels(server), Group(overrides, ports, e), "", []))
  }

  function ServicesFor(server: string, template: string, overrides: seq<ExposureOverride>, ports: seq<TemplatePort>)
    : (services: seq<NamedService>)
    ensures |services| == |ExposuresUsed(overrides, ports)|
  {
    var used := ExposuresUsed(overrides, ports);
    seq(|used|, i requires 0 <= i < |used| => ServiceFor(server, template, overrides, ports, used[i]))
  }

  /** The groups built from a prefix of the template's ports, and the order their exposures appeared in. */
  ghost predicate Grouped(groups: map<Exposure, seq<ServicePort>>, order: seq<Exposure>,
                          overrides: seq<ExposureOverride>, ports: seq<TemplatePort>) {
    && order == ExposuresUsed(overrides, ports)
    && groups.Keys == Elements(order)
    && forall e :: Group(overrides, ports, e) == if e in groups then groups[e] else []
  }

  lemma GroupedStep(groups: map<Exposure, seq<ServicePort>>, order: seq<Exposure>, overrides: seq<ExposureOverride>,
                    ports: seq<TemplatePort>, i: nat)
    requires i < |ports| && Grouped(groups, order, overrides, ports[..i])
    ensures var e, port := ExposureOf(overrides, ports[i]), PortOf(overrides, ports[i]);
            Grouped(groups[e := (if e in groups then groups[e] else []) + [port]],
                    if e in groups then order else order + [e], overrides, ports[..i + 1])
  {
    hide ExposureOf, PortOf;
    assert ports[..i + 1][..i] == ports[..i];
    var e := ExposureOf(overrides, ports[i]);
    assert Elements(order + [e]) == Elements(order) + {e};
  }

  method BuildServices(server: string, spec: ServerSpec, ports: seq<TemplatePort>) returns (services: seq<NamedService>)
    ensures services == ServicesFor(server, spec.template, spec.exposeOverride, ports)
  {
    hide ExposureOf, PinOf, ServiceName, BaseLabels, SelectorLabels, Group, ExposuresUsed, Grouped;
    ghost var overrides := spec.exposeOverride;
    var groups: map<Exposure, seq<ServicePort>> := map[];
    var order: seq<Exposure> := [];
    NothingGrouped(overrides);
    for i := 0 to |ports|
      invariant Grouped(groups, order, overrides, ports[..i])
    {
      var p := ports[i];
      GroupedStep(groups, order, overrides, ports, i);
      var exposure, nodePort := ResolveExposure(spec.exposeOverride, p);
      var proto := if p.protocol.Some? then p.protocol.value else TCP;
      var port := ServicePort(p.name, p.containerPort, p.containerPort, proto, 0);
      if exposure == NodePort && nodePort > 0 {
        port := port.(nodePort := nodePort);
      }
      assert port == PortOf(overrides, p);
      if exposure !in groups {
        order := order + [exposure];
        groups := groups[exposure := [port]];
        assert [port] == [] + [port];
      } else {
        groups := groups[exposure := groups[exposure] + [port]];
      }
    }
    assert ports[..|ports|] == ports;
    services := [];
    GroupedGives(groups, order, overrides, ports);
    for i := 0 to |order|
      invariant services == ServicesFor(server, spec.template, overrides, ports)[..i]
    {
      var e := order[i];
      var svc := Service(BaseLabels(server, spec.template), e, SelectorLabels(server), groups[e], "", []);
      services := services + [NamedService(ServiceName(server, e), svc)];
    }
  }

  lemma GroupedGives(groups: map<Exposure, seq<ServicePort>>, order: seq<Exposure>, overrides: seq<ExposureOverride>,
                     ports: seq<TemplatePort>)
    requires Grouped(groups, order, overrides, ports)
    ensures order == ExposuresUsed(overrides, ports)
    ensures forall i :: 0 <= i < |order| ==> order[i] in groups && groups[order[i]] == Group(overrides, ports, order[i])
  {
    forall i | 0 <= i < |order|
      ensures order[i] in groups
    {
      assert order[i] in Elements(order);
    }
  }

  lemma NothingGrouped(overrides: seq<ExposureOverride>)
    ensures Grouped(map[], [], overrides, [])
  {
    assert forall e :: Group(overrides, [], e) == [];
  }

  // ---------------------------------------------------------------------------------------------
  // Ports are conserved
  // ---------------------------------------------------------------------------------------------

  lemma {:induction false} ExposuresUsedOnce(overrides: seq<ExposureOverride>, ports: seq<TemplatePort>)
    ensures Distinct(ExposuresUsed(overrides, ports))
    ensures forall e :: e in ExposuresUsed(overrides, ports) <==>
                        exists i :: 0 <= i < |ports| && ExposureOf(overrides, ports[i]) == e
  {
    if ports != [] {
      var n := |ports| - 1;
      ExposuresUsedOnce(overrides, ports[..n]);
      forall e
        ensures e in ExposuresUsed(overrides, ports) <==>
                exists i :: 0 <= i < |ports| && ExposureOf(overrides, ports[i]) == e
      {
        if i :| 0 <= i < n && ExposureOf(overrides, ports[..n][i]) == e {
          assert ExposureOf(overrides, ports[i]) == e;
        }
        if i :| 0 <= i < |ports| && ExposureOf(overrides, ports[i]) == e && i < n {
          assert ExposureOf(overrides, ports[..n][i]) == e;
        }
      }
    }
  }

  /** All ports of the groups of some exposures, counted. */
  ghost function Pooled(overrides: seq<ExposureOverride>, ports: seq<TemplatePort>,
                        es: seq<Exposure>): multiset<ServicePort> {
    if es == [] then multiset{}
    else Pooled(overrides, ports, es[1..]) + multiset(Group(overrides, ports, es[0]))
  }

  ghost function AllPorts(overrides: seq<ExposureOverride>, ports: seq<TemplatePort>): multiset<ServicePort> {
    if ports == [] then multiset{}
    else AllPorts(overrides, ports[..|ports| - 1]) + multiset{PortOf(overrides, ports[|ports| - 1])}
  }

  lemma {:induction false} PooledGrows(overrides: seq<ExposureOverride>, ports: seq<TemplatePort>, es: seq<Exposure>)
    requires ports != [] && Distinct(es)
    ensures var p := ports[|ports| - 1];
            Pooled(overrides, ports, es) ==
            Pooled(overrides, ports[..|ports| - 1], es)
            + if ExposureOf(overrides, p) in es then multiset{PortOf(overrides, p)} else multiset{}
  {
    if es != [] {
      PooledGrows(overrides, ports, es[1..]);
      var e := ExposureOf(overrides, ports[|ports| - 1]);
      assert es == [es[0]] + es[1..];
      assert e == es[0] ==> e !in es[1..];
    }
  }

  lemma {:induction false} PoolIsEverything(overrides: seq<ExposureOverride>, ports: seq<TemplatePort>,
                                            es: seq<Exposure>)
    requires Distinct(es)
    requires forall i :: 0 <= i < |ports| ==> ExposureOf(overrides, ports[i]) in es
    ensures Pooled(overrides, ports, es) == AllPorts(overrides, ports)
  {
    if ports == [] {
      EmptyPool(overrides, es);
    } else {
      var n := |ports| - 1;
      assert forall i :: 0 <= i < n ==> ports[..n][i] == ports[i];
      PoolIsEverything(overrides, ports[..n], es);
      PooledGrows(overrides, ports, es);
    }
  }

  lemma {:induction false} EmptyPool(overrides: seq<ExposureOverride>, es: seq<Exposure>)
    ensures Pooled(overrides, [], es) == multiset{}
  {
    if es != [] {
      EmptyPool(overrides, es[1..]);
    }
  }

  /** The ports of a list of Services, counted. */
  ghost function ServicePorts(services: seq<NamedService>): multiset<ServicePort> {
    if services == [] then multiset{}
    else ServicePorts(services[1..]) + multiset(services[0].service.ports)
  }

  lemma {:induction false} ServicePortsArePooled(overrides: seq<ExposureOverride>, ports: seq<TemplatePort>,
                                                 es: seq<Exposure>, services: seq<NamedService>)
    requires |services| == |es|
    requires forall i :: 0 <= i < |es| ==> services[i].service.ports == Group(overrides, ports, es[i])
    ensures ServicePorts(services) == Pooled(overrides, ports, es)
  {
    if es != [] {
      ServicePortsArePooled(overrides, ports, es[1..], services[1..]);
    }
  }

  lemma {:induction false} ExposuresAtMostThree(es: seq<Exposure>)
    requires Distinct(es)
    ensures |es| <= 3
  {
    DistinctElements(es);
    assert Elements(es) <= {ClusterIP, NodePort, LoadBalancer} by {
      forall e | e in Elements(es)
        ensures e in {ClusterIP, NodePort, LoadBalancer}
      {
        assert e.ClusterIP? || e.NodePort? || e.LoadBalancer?;
      }
    }
    SubsetSize(Elements(es), {ClusterIP, NodePort, LoadBalancer});
  }

  /** The built Services hold exactly the template's ports, each once, in the one Service whose type is the port's
      effective exposure; there are at most three, one per exposure in use, under distinct names. */
  lemma BuildServicesConservesPorts(server: string, template: string, overrides: seq<ExposureOverride>,
                                    ports: seq<TemplatePort>)
    ensures var services := ServicesFor(server, template, overrides, ports);
            && ServicePorts(services) == AllPorts(overrides, ports)
            && |services| <= 3 && (ports != [] ==> |services| >= 1)
            && (forall i, j :: 0 <= i < j < |services| ==>
                  services[i].name != services[j].name && services[i].service.kind != services[j].service.kind)
            && (forall k :: 0 <= k < |ports| ==> exists i ::
                  0 <= i < |services| && services[i].service.kind == ExposureOf(overrides, ports[k])
                  && PortOf(overrides, ports[k]) in services[i].service.ports)
  {
    hide ExposureOf, PinOf, OverrideOf, ServiceName, BaseLabels, SelectorLabels, PortOf, Group;
    var services := ServicesFor(server, template, overrides, ports);
    var used := ExposuresUsed(overrides, ports);
    ExposuresUsedOnce(overrides, ports);
    ExposuresAtMostThree(used);
    PoolIsEverything(overrides, ports, used);
    ServicePortsArePooled(overrides, ports, used, services);
    forall i, j | 0 <= i < j < |services|
      ensures services[i].name != services[j].name && services[i].service.kind != services[j].service.kind
    {
      assert used[i] != used[j];
      ChildNamesAreInjective(server, used[i], server, used[j]);
    }
    forall k | 0 <= k < |ports|
      ensures exists i :: 0 <= i < |services| && services[i].service.kind == ExposureOf(overrides, ports[k])
                          && PortOf(overrides, ports[k]) in services[i].service.ports
    {
      var i :| 0 <= i < |used| && used[i] == ExposureOf(overrides, ports[k]);
      GroupHasPort(overrides, ports, k);
      assert services[i].service.ports == Group(overrides, ports, used[i]);
    }
    if ports != [] {
      assert ExposureOf(overrides, ports[0]) in used;
    }
  }

  lemma {:induction false} GroupHasPort(overrides: seq<ExposureOverride>, ports: seq<TemplatePort>, k: nat)
    requires k < |ports|
    ensures PortOf(overrides, ports[k]) in Group(overrides, ports, ExposureOf(overrides, ports[k]))
  {
    var n := |ports| - 1;
    if k < n {
      GroupHasPort(overrides, ports[..n], k);
    }
  }

  /** Template positions of the ports of one exposure. */
  function Positions(overrides: seq<ExposureOverride>, ports: seq<TemplatePort>, e: Exposure): seq<nat> {
    if ports == [] then []
    else
      var n := |ports| - 1;
      Positions(overrides, ports[..n], e) + if ExposureOf(overrides, ports[n]) == e then [n] else []
  }

  /** A group lists its ports in template order and omits none. */
  lemma {:induction false} GroupsFollowTheTemplate(overrides: seq<ExposureOverride>, ports: seq<TemplatePort>,
                                                   e: Exposure)
    ensures var group, at := Group(overrides, ports, e), Positions(overrides, ports, e);
            && |group| == |at|
            && (forall k :: 0 <= k < |at| ==> at[k] < |ports| && group[k] == PortOf(overrides, ports[at[k]]))
            && (forall j, k :: 0 <= j < k < |at| ==> at[j] < at[k])
            && (forall i :: 0 <= i < |ports| ==> (i in at <==> ExposureOf(overrides, ports[i]) == e))
  {
    if ports != [] {
      GroupsFollowTheTemplate(overrides, ports[..|ports| - 1], e);
    }
  }

  // ---------------------------------------------------------------------------------------------
  // Merging with assigned ports
  // ---------------------------------------------------------------------------------------------

  function PortNamed(ports: seq<ServicePort>, name: string): (p: Option<ServicePort>)
    ensures p.Some? ==> p.value in ports && p.value.name == name
    ensures p.None? <==> forall i :: 0 <= i < |ports| ==> ports[i].name != name
  {
    if ports == [] then None
    else
      var last := ports[|ports| - 1];
      if last.name == name then Some(last) else PortNamed(ports[..|ports| - 1], name)
  }

  function MergedPort(existing: seq<ServicePort>, d: ServicePort): ServicePort {
    var e := PortNamed(existing, d.name);
    if e.Some? && d.nodePort == 0 then d.(nodePort := e.value.nodePort) else d
  }

  function MergedPorts(existing: seq<ServicePort>, desired: seq<ServicePort>): (merged: seq<ServicePort>)
    ensures |merged| == |desired|
  {
    seq(|desired|, i requires 0 <= i < |desired| => MergedPort(existing, desired[i]))
  }

  /** The lookup by name: a later port of a name shadows an earlier one. */
  ghost predicate IndexesPorts(byName: map<string, ServicePort>, ports: seq<ServicePort>) {
    forall name :: PortNamed(ports, name) == if name in byName then Some(byName[name]) else None
  }

  lemma NoPorts()
    ensures IndexesPorts(map[], [])
  {
  }

  lemma NextPort(byName: map<string, ServicePort>, ports: seq<ServicePort>, i: nat)
    requires i < |ports| && IndexesPorts(byName, ports[..i])
    ensures IndexesPorts(byName[ports[i].name := ports[i]], ports[..i + 1])
  {
    assert ports[..i + 1][..i] == ports[..i];
  }

  method MergeServicePorts(existing: seq<ServicePort>, desired: seq<ServicePort>) returns (out: seq<ServicePort>)
    ensures out == MergedPorts(existing, desired)
  {
    hide PortNamed;
    var byName: map<string, ServicePort> := map[];
    NoPorts();
    for i := 0 to |existing|
      invariant IndexesPorts(byName, existing[..i])
    {
      NextPort(byName, existing, i);
      byName := byName[existing[i].name := existing[i]];
    }
    assert existing[..|existing|] == existing;
    out := [];
    for i := 0 to |desired|
      invariant out == MergedPorts(existing, desired)[..i]
    {
      var d := desired[i];
      if d.name in byName && d.nodePort == 0 {
        d := d.(nodePort := byName[d.name].nodePort);
      }
      out := out + [d];
    }
  }

  predicate DistinctPorts(ports: seq<ServicePort>) {
    forall i, j :: 0 <= i < j < |ports| ==> ports[i].name != ports[j].name
  }

  lemma {:induction false} PortNamedAt(ports: seq<ServicePort>, i: nat)
    requires i < |ports| && DistinctPorts(ports)
    ensures PortNamed(ports, ports[i].name) == Some(ports[i])
  {
    var n := |ports| - 1;
    if i < n {
      PortNamedAt(ports[..n], i);
    }
  }

  // ---------------------------------------------------------------------------------------------
  // What the apiserver stores
  // ---------------------------------------------------------------------------------------------

  /** Values the apiserver picks for a Service: a node port for each port name, and a cluster IP. */
  datatype Allocation = Allocation(nodePort: string -> int, ip: string)
  {
    ghost predicate InRange() { forall n :: 30000 <= nodePort(n) <= 32767 }
  }

  function Assigned(alloc: Allocation, kind: Exposure, p: ServicePort): ServicePort {
    if kind == ClusterIP then p.(nodePort := 0)
    else if p.nodePort == 0 then p.(nodePort := alloc.nodePort(p.name))
    else p
  }

  function AssignedPorts(alloc: Allocation, kind: Exposure, ports: seq<ServicePort>): (out: seq<ServicePort>)
    ensures |out| == |ports|
  {
    seq(|ports|, i requires 0 <= i < |ports| => Assigned(alloc, kind, ports[i]))
  }

  /** The Service stored once a desired one has been created, or merged into an existing one. */
  function Applied(alloc: Allocation, existing: Option<Service>, desired: Service): Service {
    match existing
    case None => desired.(ports := AssignedPorts(alloc, desired.kind, desired.ports), clusterIP := alloc.ip)
    case Some(e) =>
      e.(labels := desired.labels, kind := desired.kind, selector := desired.selector,
         ports := AssignedPorts(alloc, desired.kind, MergedPorts(e.ports, desired.ports)))
  }

  lemma AssignedNames(alloc: Allocation, existing: Option<Service>, desired: Service)
    ensures var stored := Applied(alloc, existing, desired).ports;
            && |stored| == |desired.ports|
            && (forall i :: 0 <= i < |stored| ==> stored[i].name == desired.ports[i].name)
            && (DistinctPorts(desired.ports) ==> DistinctPorts(stored))
  {
  }

  /** One stored port: the desired port merges back to it, and the apiserver has nothing left to assign. */
  lemma PortReapplied(alloc: Allocation, alloc': Allocation, existing: Option<Service>, desired: Service, i: nat)
    requires i < |desired.ports| && alloc.InRange()
    requires desired.kind == ClusterIP ==> desired.ports[i].nodePort == 0
    ensures var stored := Applied(alloc, existing, desired);
            var d := desired.ports[i];
            && (if d.nodePort == 0 then d.(nodePort := stored.ports[i].nodePort) else d) == stored.ports[i]
            && Assigned(alloc', desired.kind, stored.ports[i]) == stored.ports[i]
  {
    hide PortNamed;
  }

  lemma MergesBack(ports: seq<ServicePort>, desired: seq<ServicePort>)
    requires |ports| == |desired| && DistinctPorts(ports)
    requires forall i :: 0 <= i < |ports| ==> MergesTo(desired[i], ports[i])
    ensures MergedPorts(ports, desired) == ports
  {
    hide PortNamed;
    forall i | 0 <= i < |ports|
      ensures MergedPorts(ports, desired)[i] == ports[i]
    {
      assert MergesTo(desired[i], ports[i]);
      PortNamedAt(ports, i);
    }
  }

  predicate MergesTo(d: ServicePort, stored: ServicePort) {
    d.name == stored.name && (if d.nodePort == 0 then d.(nodePort := stored.nodePort) else d) == stored
  }

  /** Merging is idempotent, and what the apiserver stored merges back to itself: a repeated apply asks for nothing
      new and is granted nothing new. */
  lemma ApplyIsIdempotent(alloc: Allocation, alloc': Allocation, existing: Option<Service>, desired: Service)
    requires DistinctPorts(desired.ports) && alloc.InRange()
    requires desired.kind == ClusterIP ==> forall i :: 0 <= i < |desired.ports| ==> desired.ports[i].nodePort == 0
    ensures var stored := Applied(alloc, existing, desired);
            && MergedPorts(stored.ports, desired.ports) == stored.ports
            && Applied(alloc', Some(stored), desired) == stored
    ensures existing.Some? ==>
              var merged := MergedPorts(existing.value.ports, desired.ports);
              MergedPorts(merged, desired.ports) == merged
  {
    hide MergedPorts, AssignedPorts, Assigned, DistinctPorts;
    var stored := Applied(alloc, existing, desired);
    AssignedNames(alloc, existing, desired);
    forall i | 0 <= i < |stored.ports|
      ensures MergesTo(desired.ports[i], stored.ports[i])
      ensures Assigned(alloc', desired.kind, stored.ports[i]) == stored.ports[i]
    {
      PortReapplied(alloc, alloc', existing, desired, i);
    }
    MergesBack(stored.ports, desired.ports);
    NothingToAssign(alloc', desired.kind, stored.ports);
    if existing.Some? {
      MergedNames(existing.value.ports, desired.ports);
      MergesBack(MergedPorts(existing.value.ports, desired.ports), desired.ports);
    }
  }

  lemma NothingToAssign(alloc: Allocation, kind: Exposure, ports: seq<ServicePort>)
    requires forall i :: 0 <= i < |ports| ==> Assigned(alloc, kind, ports[i]) == ports[i]
    ensures AssignedPorts(alloc, kind, ports) == ports
  {
    hide Assigned;
  }

  lemma MergedNames(existing: seq<ServicePort>, desired: seq<ServicePort>)
    requires DistinctPorts(desired)
    ensures var merged := MergedPorts(existing, desired);
            DistinctPorts(merged) && forall i :: 0 <= i < |merged| ==> MergesTo(desired[i], merged[i])
  {
    hide PortNamed;
  }

  /** One apply of a run: a desired Service, what the apiserver would pick, and what became of the call. */
  datatype Apply = Apply(desired: Service, alloc: Allocation, fate: CallResult)

  function Replay(start: Service, applies: seq<Apply>): Service {
    if applies == [] then start
    else
      var a := applies[|applies| - 1];
      var before := Replay(start, applies[..|applies| - 1]);
      if a.fate.TookEffect() then Applied(a.alloc, Some(before), a.desired) else before
  }

  /** The node port a name should have after a run: the last pin that took effect, else the one it started with. */
  function LastPin(start: int, applies: seq<Apply>, name: string): int {
    if applies == [] then start
    else
      var a := applies[|applies| - 1];
      var before := LastPin(start, applies[..|applies| - 1], name);
      var d := PortNamed(a.desired.ports, name);
      if a.fate.TookEffect() && d.Some? && d.value.nodePort != 0 then d.value.nodePort else before
  }

  /** Every apply of the run desires the port and a Service type with node ports. */
  predicate Wanted(applies: seq<Apply>, name: string) {
    forall i :: 0 <= i < |applies| ==>
      applies[i].desired.kind != ClusterIP
      && PortNamed(applies[i].desired.ports, name).Some? && DistinctPorts(applies[i].desired.ports)
  }

  /** Once a port has a node port it keeps it through every later apply, whatever the apiserver would pick and
      whichever calls fail, until an explicit pin replaces it. */
  lemma {:induction false} NodePortsAreStable(start: Service, applies: seq<Apply>, name: string)
    requires Wanted(applies, name)
    requires PortNamed(start.ports, name).Some? && PortNamed(start.ports, name).value.nodePort != 0
    ensures var p := PortNamed(Replay(start, applies).ports, name);
            && p.Some? && p.value.nodePort != 0
            && p.value.nodePort == LastPin(PortNamed(start.ports, name).value.nodePort, applies, name)
  {
    if applies != [] {
      var n := |applies| - 1;
      var a, before := applies[n], Replay(start, applies[..n]);
      NodePortsAreStable(start, applies[..n], name);
      if a.fate.TookEffect() {
        var after := Applied(a.alloc, Some(before), a.desired);
        var d := PortNamed(a.desired.ports, name).value;
        var i :| 0 <= i < |a.desired.ports| && a.desired.ports[i] == d;
        assert after.ports[i] == Assigned(a.alloc, a.desired.kind, MergedPort(before.ports, d));
        assert DistinctPorts(after.ports);
        PortNamedAt(after.ports, i);
      }
    }
  }
}
