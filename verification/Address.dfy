/** The connect address of a server, read off the Service that carries its primary port. */
module Address {
  import opened Prelude
  import opened GameTypes
  import opened Admission
  import opened Services

  // ---------------------------------------------------------------------------------------------
  // The primary port
  // ---------------------------------------------------------------------------------------------

  predicate SpeaksTCP(p: TemplatePort) {
    p.protocol.None? || p.protocol.value == TCP
  }

  /** Position of the first port marked primary, else of the first TCP port, else 0. */
  function PrimaryIndex(ports: seq<TemplatePort>): (i: nat)
    requires ports != []
    ensures i < |ports|
  {
    if exists k :: 0 <= k < |ports| && ports[k].primary then FirstPrimary(ports)
    else if exists k :: 0 <= k < |ports| && SpeaksTCP(ports[k]) then FirstTCP(ports)
    else 0
  }

  function FirstPrimary(ports: seq<TemplatePort>): (i: nat)
    requires exists k :: 0 <= k < |ports| && ports[k].primary
    ensures i < |ports| && ports[i].primary && forall j :: 0 <= j < i ==> !ports[j].primary
  {
    if ports[0].primary then 0 else 1 + FirstPrimary(ports[1..])
  }

  function FirstTCP(ports: seq<TemplatePort>): (i: nat)
    requires exists k :: 0 <= k < |ports| && SpeaksTCP(ports[k])
    ensures i < |ports| && SpeaksTCP(ports[i]) && forall j :: 0 <= j < i ==> !SpeaksTCP(ports[j])
  {
    if SpeaksTCP(ports[0]) then 0 else 1 + FirstTCP(ports[1..])
  }

  /** ports[i] is the first port marked primary, else, when none is, the first one that speaks TCP, as an unset protocol
      does, else, when none does, the first of all. */
  predicate ChosenPort(ports: seq<TemplatePort>, i: int) {
    && 0 <= i < |ports|
    && if exists k :: 0 <= k < |ports| && ports[k].primary then
         ports[i].primary && forall j :: 0 <= j < i ==> !ports[j].primary
       else if exists k :: 0 <= k < |ports| && ports[k].protocol != Some(UDP) then
         ports[i].protocol != Some(UDP) && forall j :: 0 <= j < i ==> ports[j].protocol == Some(UDP)
       else i == 0
  }

  lemma PrimaryIsChosen(ports: seq<TemplatePort>)
    requires ports != []
    ensures forall i :: ChosenPort(ports, i) <==> i == PrimaryIndex(ports)
  {
    forall k | 0 <= k < |ports|
      ensures SpeaksTCP(ports[k]) <==> ports[k].protocol != Some(UDP)
    {
      assert ports[k].protocol.Some? ==> ports[k].protocol.value == TCP || ports[k].protocol.value == UDP;
    }
  }

  method PrimaryPort(overrides: seq<ExposureOverride>, ports: seq<TemplatePort>)
    returns (p: Option<TemplatePort>, exposure: Exposure, nodePort: int)
    ensures p.None? <==> ports == []
    ensures ports != [] ==>
              p == Some(ports[PrimaryIndex(ports)])
              && exposure == ExposureOf(overrides, p.value) && nodePort == PinOf(overrides, p.value)
    ensures ports != [] ==>
              && (exists i :: ChosenPort(ports, i) && p == Some(ports[i]))
              && Effective(overrides, p.value, exposure, nodePort)
  {
    if |ports| == 0 {
      return None, ClusterIP, 0;
    }
    PrimaryIsChosen(ports);
    assert ChosenPort(ports, PrimaryIndex(ports));
    for i := 0 to |ports|
      invariant forall j :: 0 <= j < i ==> !ports[j].primary
    {
      if ports[i].primary {
        p := Some(ports[i]);
        exposure, nodePort := ResolveExposure(overrides, ports[i]);
        return;
      }
    }
    for i := 0 to |ports|
      invariant forall j :: 0 <= j < i ==> !SpeaksTCP(ports[j])
    {
      if SpeaksTCP(ports[i]) {
        p := Some(ports[i]);
        exposure, nodePort := ResolveExposure(overrides, ports[i]);
        return;
      }
    }
    p := Some(ports[0]);
    exposure, nodePort := ResolveExposure(overrides, ports[0]);
  }

  // ---------------------------------------------------------------------------------------------
  // The address
  // ---------------------------------------------------------------------------------------------

  function Itoa(n: int): (s: string)
    ensures s != ""
    decreases if n < 0 then 1 - n else n
  {
    if n < 0 then "-" + Itoa(-n)
    else if n < 10 then ['0' + n as char]
    else Itoa(n / 10) + ['0' + (n % 10) as char]
  }

  function ServiceNamed(services: seq<NamedService>, name: string): (s: Option<Service>)
    ensures s.Some? ==> NamedService(name, s.value) in services
    ensures s.None? <==> forall i :: 0 <= i < |services| ==> services[i].name != name
  {
    if services == [] then None
    else if services[0].name == name then Some(services[0].service)
    else ServiceNamed(services[1..], name)
  }

  /** The first port of a name. */
  function FirstPortNamed(ports: seq<ServicePort>, name: string): Option<ServicePort> {
    if ports == [] then None
    else if ports[0].name == name then Some(ports[0])
    else FirstPortNamed(ports[1..], name)
  }

  function ClusterAddress(svc: Service, svcName: string, ns: string, port: int): string {
    var host := if svc.clusterIP == "" || svc.clusterIP == "None" then svcName + "." + ns + ".svc" else svc.clusterIP;
    host + ":" + Itoa(port)
  }

  function NodeAddress(svc: Service, portName: string, pin: int): string {
    var stored := FirstPortNamed(svc.ports, portName);
    var port := if pin == 0 && stored.Some? then stored.value.nodePort else pin;
    if port == 0 then "" else "<node>:" + Itoa(port)
  }

  function BalancerAddress(svc: Service, port: int): string {
    if svc.ingress == [] then ""
    else
      var host := if svc.ingress[0].hostname == "" then svc.ingress[0].ip else svc.ingress[0].hostname;
      if host == "" then "" else host + ":" + Itoa(port)
  }

  function AddressOf(ns: string, server: string, overrides: seq<ExposureOverride>, ports: seq<TemplatePort>,
                     services: seq<NamedService>): string
  {
    if ports == [] then ""
    else
      var p := ports[PrimaryIndex(ports)];
      var e := ExposureOf(overrides, p);
      var svc := ServiceNamed(services, ServiceName(server, e));
      if p.containerPort == 0 || svc.None? then ""
      else match e
        case ClusterIP => ClusterAddress(svc.value, ServiceName(server, e), ns, p.containerPort)
        case NodePort => NodeAddress(svc.value, p.name, PinOf(overrides, p))
        case LoadBalancer => BalancerAddress(svc.value, p.containerPort)
  }

  method PrimaryAddress(ns: string, server: string, overrides: seq<ExposureOverride>, ports: seq<TemplatePort>,
                        services: seq<NamedService>) returns (address: string)
    ensures address == AddressOf(ns, server, overrides, ports, services)
  {
    hide PrimaryIndex, Itoa, ExposureOf, PinOf, ServiceName;
    var p, exposure, pin := PrimaryPort(overrides, ports);
    if p.None? || p.value.containerPort == 0 {
      return "";
    }
    var svcName := ServiceName(server, exposure);
    var svc: Option<Service> := None;
    assert services[0..] == services;
    for i := 0 to |services|
      invariant svc == None
      invariant ServiceNamed(services, svcName) == ServiceNamed(services[i..], svcName)
    {
      assert services[i..][0] == services[i] && services[i..][1..] == services[i + 1..];
      if services[i].name == svcName {
        svc := Some(services[i].service);
        break;
      }
    }
    if svc.None? {
      return "";
    }
    match exposure {
      case ClusterIP =>
        var host := svc.value.clusterIP;
        if host == "" || host == "None" {
          host := svcName + "." + ns + ".svc";
        }
        return host + ":" + Itoa(p.value.containerPort);
      case NodePort =>
        var port := NodePortFor(svc.value.ports, p.value.name, pin);
        if port == 0 {
          return "";
        }
        return "<node>:" + Itoa(port);
      case LoadBalancer =>
        if |svc.value.ingress| == 0 {
          return "";
        }
        var host := svc.value.ingress[0].hostname;
        if host == "" {
          host := svc.value.ingress[0].ip;
        }
        if host == "" {
          return "";
        }
        return host + ":" + Itoa(p.value.containerPort);
    }
  }

  method NodePortFor(ports: seq<ServicePort>, name: string, pin: int) returns (port: int)
    ensures port == if pin == 0 && FirstPortNamed(ports, name).Some? then FirstPortNamed(ports, name).value.nodePort
        else pin
  {
    port := pin;
    if port == 0 {
      assert ports[0..] == ports;
      for i := 0 to |ports|
        invariant port == 0
        invariant FirstPortNamed(ports, name) == FirstPortNamed(ports[i..], name)
      {
        assert ports[i..][0] == ports[i] && ports[i..][1..] == ports[i + 1..];
        if ports[i].name == name {
          port := ports[i].nodePort;
          break;
        }
      }
    }
  }

  // ---------------------------------------------------------------------------------------------
  // The address agrees with the Services
  // ---------------------------------------------------------------------------------------------

  /** The Services stored after applying the built ones, over whatever was stored before; the apiserver may have
      filled in ingress points since. */
  ghost predicate Stored(services: seq<NamedService>, desired: seq<NamedService>) {
    && |services| == |desired|
    && forall i :: 0 <= i < |services| ==>
         services[i].name == desired[i].name && StoredAs(services[i].service, desired[i].service)
  }

  ghost predicate StoredAs(stored: Service, desired: Service) {
    exists alloc: Allocation, existing, ingress ::
      alloc.InRange() && stored == Applied(alloc, existing, desired).(ingress := ingress)
  }

  predicate PinsInRange(overrides: seq<ExposureOverride>) {
    forall i :: 0 <= i < |overrides| ==>
      overrides[i].nodePort == 0 || 30000 <= overrides[i].nodePort <= 32767
  }

  lemma {:induction false} PinInRange(overrides: seq<ExposureOverride>, p: TemplatePort)
    requires PinsInRange(overrides)
    ensures PinOf(overrides, p) == 0 || 30000 <= PinOf(overrides, p) <= 32767
  {
    if overrides != [] && overrides[0].portName != p.name {
      PinInRange(overrides[1..], p);
    }
  }

  lemma {:induction false} FirstIsOnly(ports: seq<ServicePort>, i: nat)
    requires i < |ports| && DistinctPorts(ports)
    ensures FirstPortNamed(ports, ports[i].name) == Some(ports[i])
  {
    if i > 0 {
      FirstIsOnly(ports[1..], i - 1);
    }
  }

  lemma {:induction false} ServiceNamedAt(services: seq<NamedService>, i: nat)
    requires i < |services| && forall j, k :: 0 <= j < k < |services| ==> services[j].name != services[k].name
    ensures ServiceNamed(services, services[i].name) == Some(services[i].service)
  {
    if i > 0 {
      ServiceNamedAt(services[1..], i - 1);
    }
  }

  lemma GroupNamesAreDistinct(overrides: seq<ExposureOverride>, ports: seq<TemplatePort>, e: Exposure)
    requires Distinct(PortNames(ports))
    ensures DistinctPorts(Group(overrides, ports, e))
  {
    GroupsFollowTheTemplate(overrides, ports, e);
    var group, at := Group(overrides, ports, e), Positions(overrides, ports, e);
    forall j, k | 0 <= j < k < |group|
      ensures group[j].name != group[k].name
    {
      assert PortNames(ports)[at[j]] != PortNames(ports)[at[k]];
    }
  }

  /** The stored Service that carries a template port, and the node port it holds there. */
  lemma StoredServiceOf(server: string, template: string, overrides: seq<ExposureOverride>, ports: seq<TemplatePort>,
                        services: seq<NamedService>, k: nat) returns (svc: Service, i: nat)
    requires Distinct(PortNames(ports)) && k < |ports| && PinsInRange(overrides)
    requires Stored(services, ServicesFor(server, template, overrides, ports))
    ensures var e := ExposureOf(overrides, ports[k]);
            && ServiceNamed(services, ServiceName(server, e)) == Some(svc)
            && svc.kind == e && DistinctPorts(svc.ports)
            && i < |svc.ports| && svc.ports[i].name == ports[k].name && svc.ports[i].port == ports[k].containerPort
            && (e == NodePort ==>
                  && svc.ports[i].nodePort != 0
                  && (PinOf(overrides, ports[k]) != 0 ==> svc.ports[i].nodePort == PinOf(overrides, ports[k])))
  {
    hide ExposureOf, PinOf, ServiceName, PortNames, Applied, ExposuresUsed, Group, Positions, BaseLabels,
        SelectorLabels;
    var e := ExposureOf(overrides, ports[k]);
    var used := ExposuresUsed(overrides, ports);
    var desired := ServicesFor(server, template, overrides, ports);
    BuildServicesConservesPorts(server, template, overrides, ports);
    ExposuresUsedOnce(overrides, ports);
    var s :| 0 <= s < |used| && used[s] == e;
    svc := services[s].service;
    ServiceNamedAt(services, s);
    GroupNamesAreDistinct(overrides, ports, e);
    GroupsFollowTheTemplate(overrides, ports, e);
    PinInRange(overrides, ports[k]);
    var at := Positions(overrides, ports, e);
    i :| 0 <= i < |at| && at[i] == k;
    assert desired[s].service.ports == Group(overrides, ports, e);
    assert StoredAs(svc, desired[s].service);
    var alloc: Allocation, existing, ingress :|
      alloc.InRange() && svc == Applied(alloc, existing, desired[s].service).(ingress := ingress);
    AppliedPort(alloc, existing, desired[s].service, i);
    AppliedKind(alloc, existing, desired[s].service);
  }

  lemma AppliedPort(alloc: Allocation, existing: Option<Service>, desired: Service, i: nat)
    requires alloc.InRange() && i < |desired.ports| && DistinctPorts(desired.ports)
    ensures var stored, d := Applied(alloc, existing, desired).ports, desired.ports[i];
            && DistinctPorts(stored) && |stored| == |desired.ports|
            && stored[i].name == d.name && stored[i].port == d.port
            && (desired.kind != ClusterIP ==>
                  stored[i].nodePort != 0 && (d.nodePort != 0 ==> stored[i].nodePort == d.nodePort))
  {
    var stored := Applied(alloc, existing, desired).ports;
    assert forall j :: 0 <= j < |stored| ==> stored[j].name == desired.ports[j].name;
  }

  lemma AppliedKind(alloc: Allocation, existing: Option<Service>, desired: Service)
    ensures Applied(alloc, existing, desired).kind == desired.kind
  {
  }

  /** The balancer has published no ingress point, or one without hostname and IP. */
  predicate NoIngress(svc: Service) {
    svc.ingress == [] || (svc.ingress[0].hostname == "" && svc.ingress[0].ip == "")
  }

  /** The hostname of the first ingress point, or its IP when it has none. */
  function IngressHost(svc: Service): string
    requires !NoIngress(svc)
  {
    if svc.ingress[0].hostname != "" then svc.ingress[0].hostname else svc.ingress[0].ip
  }

  /** A Service carries port p of a server at position i, and the address says how to reach it. */
  predicate Reaches(address: string, svc: NamedService, i: int, ns: string, server: string, e: Exposure,
                    p: TemplatePort) {
    && NamedFor(svc.name, server, e) && svc.service.kind == e
    && 0 <= i < |svc.service.ports|
    && svc.service.ports[i].name == p.name && svc.service.ports[i].port == p.containerPort
    && match e
       case ClusterIP =>
         var ip := svc.service.clusterIP;
         address == (if ip == "" || ip == "None" then svc.name + "." + ns + ".svc"
             else ip) + ":" + Itoa(p.containerPort)
       case NodePort =>
         svc.service.ports[i].nodePort != 0 && address == "<node>:" + Itoa(svc.service.ports[i].nodePort)
       case LoadBalancer =>
         address == if NoIngress(svc.service) then ""
             else IngressHost(svc.service) + ":" + Itoa(svc.service.ports[i].port)
  }

  /** With unique port names and pins in range, the lookup always finds the Service holding the chosen port.  A
      ClusterIP server always has an address; a NodePort server's address carries exactly the node port stored for
      the port, pinned or assigned; a LoadBalancer server's is empty until an ingress point is known, and then
      names that point with the Service's port. */
  lemma PrimaryAddressIsConsistent(ns: string, server: string, template: string, overrides: seq<ExposureOverride>,
                                   ports: seq<TemplatePort>, services: seq<NamedService>, n: nat, e: Exposure, pin: int)
    requires ChosenPort(ports, n) && Effective(overrides, ports[n], e, pin)
    requires Distinct(PortNames(ports)) && PinsInRange(overrides)
    requires forall i :: 0 <= i < |ports| ==> ports[i].containerPort > 0
    requires Stored(services, ServicesFor(server, template, overrides, ports))
    ensures exists s, i :: 0 <= s < |services|
              && Reaches(AddressOf(ns, server, overrides, ports, services), services[s], i, ns, server, e, ports[n])
  {
    hide PrimaryIndex, Effective, ExposureOf, PinOf, ServicesFor, Stored, PortNames, ServiceName, Itoa;
    PrimaryIsChosen(ports);
    var p := ports[n];
    ExposureIsEffective(overrides, p, e, pin);
    var svc, i := StoredServiceOf(server, template, overrides, ports, services, n);
    var named := NamedService(ServiceName(server, e), svc);
    NamesAreSpelled(server, e);
    assert named in services;
    FirstIsOnly(svc.ports, i);
    assert Reaches(AddressOf(ns, server, overrides, ports, services), named, i, ns, server, e, p);
    var s :| 0 <= s < |services| && services[s] == named;
  }

  lemma NamesAreSpelled(server: string, e: Exposure)
    ensures forall name :: NamedFor(name, server, e) <==> name == ServiceName(server, e)
  {
    var spelled := match e
                   case ClusterIP => "-clusterip"
                   case NodePort => "-nodeport"
                   case LoadBalancer => "-loadbalancer";
    assert "-" + Lower(e) == spelled;
    assert server + "-" + Lower(e) == server + ("-" + Lower(e));
  }

  /** There is no address without ports, without a number for the chosen one, or without a Service of its exposure. */
  lemma NoAddress(ns: string, server: string, overrides: seq<ExposureOverride>, ports: seq<TemplatePort>,
                  services: seq<NamedService>)
    requires forall n, e, pin :: ChosenPort(ports, n) && Effective(overrides, ports[n], e, pin) ==>
               ports[n].containerPort == 0 || forall s :: 0 <= s < |services| ==> !NamedFor(services[s].name, server, e)
    ensures AddressOf(ns, server, overrides, ports, services) == ""
  {
    hide PrimaryIndex, ChosenPort, Effective, ExposureOf, PinOf, ServiceName, Itoa;
    if ports != [] {
      PrimaryIsChosen(ports);
      var p := ports[PrimaryIndex(ports)];
      var e := ExposureOf(overrides, p);
      ExposureIsEffective(overrides, p, e, PinOf(overrides, p));
      NamesAreSpelled(server, e);
    }
  }

  /** A port number is written in decimal, without leading zeros. */
  lemma {:induction false} ItoaReads(n: int)
    ensures n >= 0 ==>
              var s := Itoa(n);
              && Decimal(s) == n && (forall i :: 0 <= i < |s| ==> IsDigit(s[i]))
              && (n > 0 ==> s[0] != '0') && (n == 0 ==> s == "0")
    ensures n < 0 ==> Itoa(n) == "-" + Itoa(-n)
    decreases if n < 0 then 0 else n
  {
    if n >= 10 {
      ItoaReads(n / 10);
      assert Itoa(n)[..|Itoa(n)| - 1] == Itoa(n / 10);
    } else if n >= 0 {
      assert Itoa(n)[..0] == "";
    }
  }
}
