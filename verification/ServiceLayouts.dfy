/** What the Services of a server are, said of the template's ports and the server's overrides alone. */
module ServiceLayouts {
  import opened Prelude
  import opened GameTypes
  import opened Services
  import PodEnv

  // ---------------------------------------------------------------------------------------------
  // The layout
  // ---------------------------------------------------------------------------------------------

  ghost predicate Exposed(overrides: seq<ExposureOverride>, p: TemplatePort, e: Exposure) {
    exists pin :: Effective(overrides, p, e, pin)
  }

  /** A Service port stands for a template port under an exposure: same name and number, TCP unless UDP is asked for,
      and the pin, if there is one, when the exposure has node ports. */
  ghost predicate Serves(sp: ServicePort, overrides: seq<ExposureOverride>, p: TemplatePort, e: Exposure) {
    && sp.name == p.name && sp.port == p.containerPort && sp.targetPort == p.containerPort
    && (sp.protocol == UDP <==> p.protocol == Some(UDP))
    && exists pin :: Effective(overrides, p, e, pin) && sp.nodePort == if e == NodePort && pin > 0 then pin else 0
  }

  predicate Rising(xs: seq<int>) {
    forall i, j :: 0 <= i < j < |xs| ==> xs[i] < xs[j]
  }

  ghost predicate ServesAt(sps: seq<ServicePort>, overrides: seq<ExposureOverride>, ports: seq<TemplatePort>,
                           e: Exposure, at: seq<int>) {
    && |at| == |sps| && Rising(at)
    && (forall n :: 0 <= n < |at| ==> 0 <= at[n] < |ports| && Serves(sps[n], overrides, ports[at[n]], e))
    && (forall j :: 0 <= j < |ports| ==> (j in at <==> Exposed(overrides, ports[j], e)))
  }

  /** The ports of an exposure, in template order, none left out and none added. */
  ghost predicate ServesAll(sps: seq<ServicePort>, overrides: seq<ExposureOverride>, ports: seq<TemplatePort>,
                            e: Exposure) {
    exists at :: ServesAt(sps, overrides, ports, e, at)
  }

  /** A Service the operator asks for: addresses are left to the apiserver. */
  ghost predicate IsServiceFor(svc: NamedService, server: string, template: string, overrides: seq<ExposureOverride>,
                               ports: seq<TemplatePort>) {
    && NamedFor(svc.name, server, svc.service.kind)
    && ChildLabels(svc.service.labels, server, template) && PodSelector(svc.service.selector, server)
    && ServesAll(svc.service.ports, overrides, ports, svc.service.kind)
    && svc.service.clusterIP == "" && svc.service.ingress == []
  }

  ghost predicate FirstUsedAt(overrides: seq<ExposureOverride>, ports: seq<TemplatePort>, e: Exposure, a: int) {
    && 0 <= a < |ports| && Exposed(overrides, ports[a], e)
    && forall b :: 0 <= b < a ==> !Exposed(overrides, ports[b], e)
  }

  /** Kinds come in the order the ports first use them. */
  ghost predicate OrderedBy(services: seq<NamedService>, overrides: seq<ExposureOverride>, ports: seq<TemplatePort>,
                            firsts: seq<int>) {
    && |firsts| == |services| && Rising(firsts)
    && forall i :: 0 <= i < |services| ==> FirstUsedAt(overrides, ports, services[i].service.kind, firsts[i])
  }

  ghost predicate Served(services: seq<NamedService>, overrides: seq<ExposureOverride>, p: TemplatePort) {
    exists i :: 0 <= i < |services| && Exposed(overrides, p, services[i].service.kind)
  }

  /** One Service per exposure in use, in order of first use, each with all ports of its exposure. */
  ghost predicate Layout(services: seq<NamedService>, server: string, template: string,
                         overrides: seq<ExposureOverride>, ports: seq<TemplatePort>) {
    && (exists firsts :: OrderedBy(services, overrides, ports, firsts))
    && (forall k :: 0 <= k < |ports| ==> Served(services, overrides, ports[k]))
    && (forall i :: 0 <= i < |services| ==> IsServiceFor(services[i], server, template, overrides, ports))
  }

  // ---------------------------------------------------------------------------------------------
  // The built Services have it
  // ---------------------------------------------------------------------------------------------

  lemma ExposedIs(overrides: seq<ExposureOverride>, p: TemplatePort)
    ensures forall e :: Exposed(overrides, p, e) <==> e == ExposureOf(overrides, p)
  {
    hide Effective, ExposureOf, PinOf;
    forall e
      ensures Exposed(overrides, p, e) <==> e == ExposureOf(overrides, p)
    {
      if pin :| Effective(overrides, p, e, pin) {
        ExposureIsEffective(overrides, p, e, pin);
      }
      ExposureIsEffective(overrides, p, e, PinOf(overrides, p));
    }
  }

  lemma AllExposed(overrides: seq<ExposureOverride>, ports: seq<TemplatePort>)
    ensures forall k, e :: 0 <= k < |ports| ==> (Exposed(overrides, ports[k], e) <==> e == ExposureOf(overrides,
        ports[k]))
  {
    hide Exposed, ExposureOf;
    forall k | 0 <= k < |ports|
      ensures forall e :: Exposed(overrides, ports[k], e) <==> e == ExposureOf(overrides, ports[k])
    {
      ExposedIs(overrides, ports[k]);
    }
  }

  lemma ServesIs(sp: ServicePort, overrides: seq<ExposureOverride>, p: TemplatePort)
    ensures Serves(sp, overrides, p, ExposureOf(overrides, p)) <==> sp == PortOf(overrides, p)
  {
    hide Effective, ExposureOf, PinOf;
    var e, pin := ExposureOf(overrides, p), PinOf(overrides, p);
    ExposureIsEffective(overrides, p, e, pin);
    assert p.protocol.Some? ==> p.protocol.value == TCP || p.protocol.value == UDP;
    forall other | Effective(overrides, p, e, other)
      ensures other == pin
    {
      ExposureIsEffective(overrides, p, e, other);
    }
  }

  lemma GroupServes(overrides: seq<ExposureOverride>, ports: seq<TemplatePort>, e: Exposure)
    ensures ServesAt(Group(overrides, ports, e), overrides, ports, e, Positions(overrides, ports, e))
  {
    hide Exposed, ExposureOf, Serves, PortOf, Group, Positions;
    var group, at := Group(overrides, ports, e), Positions(overrides, ports, e);
    GroupsFollowTheTemplate(overrides, ports, e);
    AllExposed(overrides, ports);
    forall n | 0 <= n < |at|
      ensures Serves(group[n], overrides, ports[at[n]], e)
    {
      assert at[n] in at;
      ServesIs(group[n], overrides, ports[at[n]]);
    }
  }

  lemma {:induction false} FirstUses(overrides: seq<ExposureOverride>, ports: seq<TemplatePort>)
      returns (firsts: seq<int>)
    ensures var used := ExposuresUsed(overrides, ports);
            && |firsts| == |used| && Rising(firsts)
            && forall i :: 0 <= i < |used| ==>
                 && 0 <= firsts[i] < |ports| && ExposureOf(overrides, ports[firsts[i]]) == used[i]
                 && forall b :: 0 <= b < firsts[i] ==> ExposureOf(overrides, ports[b]) != used[i]
  {
    hide ExposureOf;
    firsts := [];
    if ports != [] {
      var n := |ports| - 1;
      firsts := FirstUses(overrides, ports[..n]);
      var e := ExposureOf(overrides, ports[n]);
      if e !in ExposuresUsed(overrides, ports[..n]) {
        ExposuresUsedOnce(overrides, ports[..n]);
        assert forall b :: 0 <= b < n ==> ports[..n][b] == ports[b];
        firsts := firsts + [n];
      }
    }
  }

  lemma ServiceIsFor(server: string, template: string, overrides: seq<ExposureOverride>, ports: seq<TemplatePort>,
                     e: Exposure)
    ensures IsServiceFor(ServiceFor(server, template, overrides, ports, e), server, template, overrides, ports)
  {
    hide Group, ServesAt;
    GroupServes(overrides, ports, e);
  }

  lemma BuiltHaveLayout(server: string, template: string, overrides: seq<ExposureOverride>, ports: seq<TemplatePort>)
    ensures Layout(ServicesFor(server, template, overrides, ports), server, template, overrides, ports)
  {
    hide IsServiceFor, OrderedBy, Served, ServiceFor;
    var services, used := ServicesFor(server, template, overrides, ports), ExposuresUsed(overrides, ports);
    var firsts := BuiltInOrder(server, template, overrides, ports);
    forall k | 0 <= k < |ports|
      ensures Served(services, overrides, ports[k])
    {
      PortIsServed(server, template, overrides, ports, k);
    }
    forall i | 0 <= i < |services|
      ensures IsServiceFor(services[i], server, template, overrides, ports)
    {
      ServiceIsFor(server, template, overrides, ports, used[i]);
    }
  }

  lemma BuiltInOrder(server: string, template: string, overrides: seq<ExposureOverride>, ports: seq<TemplatePort>)
      returns (firsts: seq<int>)
    ensures OrderedBy(ServicesFor(server, template, overrides, ports), overrides, ports, firsts)
  {
    hide Exposed, ExposureOf, ServiceName, BaseLabels, SelectorLabels, Group, ExposuresUsed;
    AllExposed(overrides, ports);
    firsts := FirstUses(overrides, ports);
  }

  lemma PortIsServed(server: string, template: string, overrides: seq<ExposureOverride>, ports: seq<TemplatePort>,
                     k: nat)
    requires k < |ports|
    ensures Served(ServicesFor(server, template, overrides, ports), overrides, ports[k])
  {
    hide Exposed, ExposureOf, ServiceName, BaseLabels, SelectorLabels, Group, ExposuresUsed;
    var services, used := ServicesFor(server, template, overrides, ports), ExposuresUsed(overrides, ports);
    var e := ExposureOf(overrides, ports[k]);
    ExposedIs(overrides, ports[k]);
    ExposuresUsedOnce(overrides, ports);
    assert e in used;
    var i :| 0 <= i < |used| && used[i] == e;
    assert services[i].service.kind == e;
  }

  // ---------------------------------------------------------------------------------------------
  // Nothing else has it
  // ---------------------------------------------------------------------------------------------

  lemma SamePlaces(f: seq<int>, g: seq<int>)
    requires Rising(f) && Rising(g)
    requires forall a :: a in f <==> a in g
    ensures f == g
  {
    PodEnv.IncreasingIsUnique(f, g);
  }

  lemma SameKinds(xs: seq<NamedService>, ys: seq<NamedService>, overrides: seq<ExposureOverride>,
                  ports: seq<TemplatePort>, f: seq<int>, g: seq<int>)
    requires OrderedBy(xs, overrides, ports, f) && OrderedBy(ys, overrides, ports, g)
    requires forall k :: 0 <= k < |ports| ==> Served(xs, overrides, ports[k]) && Served(ys, overrides, ports[k])
    ensures |xs| == |ys| && forall i :: 0 <= i < |xs| ==> xs[i].service.kind == ys[i].service.kind
  {
    hide FirstUsedAt, Served, Rising;
    FirstsInside(xs, ys, overrides, ports, f, g);
    FirstsInside(ys, xs, overrides, ports, g, f);
    SamePlaces(f, g);
    forall i | 0 <= i < |xs|
      ensures xs[i].service.kind == ys[i].service.kind
    {
      SameFirstUse(overrides, ports, xs[i].service.kind, ys[i].service.kind, f[i]);
    }
  }

  lemma SameFirstUse(overrides: seq<ExposureOverride>, ports: seq<TemplatePort>, d: Exposure, e: Exposure, a: int)
    requires FirstUsedAt(overrides, ports, d, a) && FirstUsedAt(overrides, ports, e, a)
    ensures d == e
  {
    hide Exposed, ExposureOf;
    ExposedIs(overrides, ports[a]);
  }

  lemma FirstsInside(xs: seq<NamedService>, ys: seq<NamedService>, overrides: seq<ExposureOverride>,
                     ports: seq<TemplatePort>, f: seq<int>, g: seq<int>)
    requires OrderedBy(xs, overrides, ports, f) && OrderedBy(ys, overrides, ports, g)
    requires forall k :: 0 <= k < |ports| ==> Served(ys, overrides, ports[k])
    ensures forall a :: a in f ==> a in g
  {
    hide Exposed, ExposureOf;
    AllExposed(overrides, ports);
    forall i | 0 <= i < |xs|
      ensures f[i] in g
    {
      assert Served(ys, overrides, ports[f[i]]);
      var j :| 0 <= j < |ys| && Exposed(overrides, ports[f[i]], ys[j].service.kind);
      assert FirstUsedAt(overrides, ports, ys[j].service.kind, g[j]);
      assert ys[j].service.kind == xs[i].service.kind;
      assert f[i] == g[j];
    }
  }

  lemma SamePorts(xs: seq<ServicePort>, ys: seq<ServicePort>, overrides: seq<ExposureOverride>,
                  ports: seq<TemplatePort>, e: Exposure)
    requires ServesAll(xs, overrides, ports, e) && ServesAll(ys, overrides, ports, e)
    ensures xs == ys
  {
    hide ServesAt;
    var f :| ServesAt(xs, overrides, ports, e, f);
    var g :| ServesAt(ys, overrides, ports, e, g);
    PlacesAre(xs, overrides, ports, e, f);
    PlacesAre(ys, overrides, ports, e, g);
    SamePlaces(f, g);
    SameAtPlaces(xs, ys, overrides, ports, e, f);
  }

  lemma PlacesAre(sps: seq<ServicePort>, overrides: seq<ExposureOverride>, ports: seq<TemplatePort>, e: Exposure,
                  at: seq<int>)
    requires ServesAt(sps, overrides, ports, e, at)
    ensures Rising(at) && forall j :: j in at <==> 0 <= j < |ports| && Exposed(overrides, ports[j], e)
  {
    hide Exposed, Serves;
  }

  lemma SameAtPlaces(xs: seq<ServicePort>, ys: seq<ServicePort>, overrides: seq<ExposureOverride>,
                     ports: seq<TemplatePort>, e: Exposure, at: seq<int>)
    requires ServesAt(xs, overrides, ports, e, at) && ServesAt(ys, overrides, ports, e, at)
    ensures xs == ys
  {
    hide Exposed, ExposureOf, Serves, PortOf, Rising;
    forall n | 0 <= n < |xs|
      ensures xs[n] == ys[n]
    {
      assert at[n] in at;
      ExposedIs(overrides, ports[at[n]]);
      ServesIs(xs[n], overrides, ports[at[n]]);
      ServesIs(ys[n], overrides, ports[at[n]]);
    }
  }

  lemma SameService(x: NamedService, y: NamedService, server: string, template: string,
                    overrides: seq<ExposureOverride>, ports: seq<TemplatePort>)
    requires IsServiceFor(x, server, template, overrides, ports) && IsServiceFor(y, server, template, overrides, ports)
    requires x.service.kind == y.service.kind
    ensures x == y
  {
    hide ServesAll;
    SamePorts(x.service.ports, y.service.ports, overrides, ports, x.service.kind);
  }

  /** The Services built for a server are the ones laid out as above, and no others are: one per exposure in use, in
      order of first use, under the exposure's name, with the server's labels and selector; each holds exactly the
      ports the first override, else the template, puts under that exposure, in template order, with their numbers,
      protocols and pins. */
  lemma ServicesHaveLayout(services: seq<NamedService>, server: string, template: string,
                           overrides: seq<ExposureOverride>, ports: seq<TemplatePort>)
    ensures Layout(services, server, template, overrides, ports) <==>
            services == ServicesFor(server, template, overrides, ports)
  {
    hide IsServiceFor, OrderedBy, Served, ServicesFor;
    var built := ServicesFor(server, template, overrides, ports);
    BuiltHaveLayout(server, template, overrides, ports);
    if Layout(services, server, template, overrides, ports) {
      var f :| OrderedBy(services, overrides, ports, f);
      var g :| OrderedBy(built, overrides, ports, g);
      SameKinds(services, built, overrides, ports, f, g);
      forall i | 0 <= i < |services|
        ensures services[i] == built[i]
      {
        SameService(services[i], built[i], server, template, overrides, ports);
      }
    }
  }

  // ---------------------------------------------------------------------------------------------
  // What is stored once they are applied
  // ---------------------------------------------------------------------------------------------

  /** existing[j] is the last port of a name. */
  predicate LastNamed(existing: seq<ServicePort>, name: string, j: int) {
    0 <= j < |existing| && existing[j].name == name && forall l :: j < l < |existing| ==> existing[l].name != name
  }

  /** The node port stored for a desired port: its pin, else the one it was assigned before, else one the apiserver
      picks; none in a ClusterIP Service. */
  ghost predicate NodePortKept(stored: ServicePort, d: ServicePort, existing: seq<ServicePort>, kind: Exposure,
                               alloc: Allocation) {
    if kind == ClusterIP then stored.nodePort == 0
    else if d.nodePort != 0 then stored.nodePort == d.nodePort
    else
      && (forall j :: LastNamed(existing, d.name, j) && existing[j].nodePort != 0 ==>
            stored.nodePort == existing[j].nodePort)
      && ((forall j :: LastNamed(existing, d.name, j) ==> existing[j].nodePort == 0) ==>
            stored.nodePort == alloc.nodePort(d.name))
  }

  /** Applying a Service stores it as desired, and keeps what the apiserver assigned: cluster IP, ingress points and the
      node ports that are not pinned anew. */
  ghost predicate StoredOver(stored: Service, existing: Option<Service>, desired: Service, alloc: Allocation) {
    && stored.labels == desired.labels && stored.kind == desired.kind && stored.selector == desired.selector
    && |stored.ports| == |desired.ports|
    && (forall i :: 0 <= i < |stored.ports| ==>
          && stored.ports[i] == desired.ports[i].(nodePort := stored.ports[i].nodePort)
          && NodePortKept(stored.ports[i], desired.ports[i], if existing.Some? then existing.value.ports else [],
                          desired.kind, alloc))
    && (if existing.Some? then stored.clusterIP == existing.value.clusterIP && stored.ingress == existing.value.ingress
        else stored.clusterIP == alloc.ip && stored.ingress == desired.ingress)
  }

  lemma {:induction false} PortNamedIsLast(ports: seq<ServicePort>, name: string)
    ensures forall j :: LastNamed(ports, name, j) ==> PortNamed(ports, name) == Some(ports[j])
    ensures PortNamed(ports, name).Some? ==> exists j :: LastNamed(ports, name, j)
  {
    if ports != [] {
      var n := |ports| - 1;
      PortNamedIsLast(ports[..n], name);
      if ports[n].name == name {
        assert LastNamed(ports, name, n);
      } else {
        forall j
          ensures LastNamed(ports[..n], name, j) <==> LastNamed(ports, name, j)
        {
          if LastNamed(ports[..n], name, j) {
            assert ports[..n][j] == ports[j];
          }
        }
      }
    }
  }

  lemma AppliedIsStoredOver(alloc: Allocation, existing: Option<Service>, desired: Service)
    ensures StoredOver(Applied(alloc, existing, desired), existing, desired, alloc)
  {
    hide PortNamed, LastNamed;
    var stored := Applied(alloc, existing, desired);
    var before := if existing.Some? then existing.value.ports else [];
    forall i | 0 <= i < |desired.ports|
      ensures stored.ports[i] == desired.ports[i].(nodePort := stored.ports[i].nodePort)
      ensures NodePortKept(stored.ports[i], desired.ports[i], before, desired.kind, alloc)
    {
      AssignedIsKept(alloc, before, desired.kind, desired.ports[i]);
      MergeIntoNothing(desired.ports[i]);
    }
  }

  lemma MergeIntoNothing(d: ServicePort)
    ensures MergedPort([], d) == d
  {
  }

  lemma AssignedIsKept(alloc: Allocation, existing: seq<ServicePort>, kind: Exposure, d: ServicePort)
    ensures var stored := Assigned(alloc, kind, MergedPort(existing, d));
            stored == d.(nodePort := stored.nodePort) && NodePortKept(stored, d, existing, kind, alloc)
  {
    hide PortNamed;
    PortNamedIsLast(existing, d.name);
  }
}
