/** Node ports over whole runs: reconciles of any servers, failing at will, while users edit templates and servers. */
module ServerNodePorts {
  import opened Prelude
  import opened GameTypes
  import opened Config
  import opened Services
  import opened Stores
  import opened ServerViews
  import opened GameServers
  import opened GameServerReconcilers
  import opened ServerFixpoints
  import opened ServerFrames
  import opened ServerTransitions

  // ---------------------------------------------------------------------------------------------
  // One apply
  // ---------------------------------------------------------------------------------------------

  /** Lists with the same names in the same places keep their last port of a name in the same place. */
  lemma {:induction false} LastOfName(xs: seq<ServicePort>, ys: seq<ServicePort>, name: string)
    requires |xs| == |ys| && forall i :: 0 <= i < |xs| ==> xs[i].name == ys[i].name
    ensures PortNamed(xs, name).Some? <==> PortNamed(ys, name).Some?
    ensures PortNamed(xs, name).Some? ==>
              exists i :: 0 <= i < |xs| && xs[i] == PortNamed(xs, name).value && ys[i] == PortNamed(ys, name).value
  {
    if xs != [] {
      var n := |xs| - 1;
      LastOfName(xs[..n], ys[..n], name);
      if xs[n].name != name && PortNamed(xs, name).Some? {
        var i :| 0 <= i < n && xs[..n][i] == PortNamed(xs, name).value && ys[..n][i] == PortNamed(ys, name).value;
        assert xs[i] == xs[..n][i] && ys[i] == ys[..n][i];
      }
    }
  }

  /** Applying a desired Service over one that holds a node port for a name: the port keeps it, or takes the pin. */
  lemma AppliedNodePort(alloc: Allocation, existing: Service, desired: Service, name: string)
    requires desired.kind != ClusterIP && PortNamed(desired.ports, name).Some?
    requires PortNamed(existing.ports, name).Some? && PortNamed(existing.ports, name).value.nodePort != 0
    ensures var before, d := PortNamed(existing.ports, name).value, PortNamed(desired.ports, name).value;
            var after := PortNamed(Applied(alloc, Some(existing), desired).ports, name);
            after.Some? && after.value.nodePort == if d.nodePort != 0 then d.nodePort else before.nodePort
  {
    hide PortNamed;
    var stored := Applied(alloc, Some(existing), desired).ports;
    LastOfName(stored, desired.ports, name);
    var i :| 0 <= i < |stored|
      && stored[i] == PortNamed(stored, name).value && desired.ports[i] == PortNamed(desired.ports, name).value;
    assert stored[i] == Assigned(alloc, desired.kind, MergedPort(existing.ports, desired.ports[i]));
  }

  // ---------------------------------------------------------------------------------------------
  // One reconcile
  // ---------------------------------------------------------------------------------------------

  /** The pass gets to the desired Service of an exposure, and its write takes effect. */
  predicate SlotWritten(v: View, desired: seq<NamedService>, a: Answers, e: Exposure) {
    exists s :: 0 <= s < |desired| && WrittenAt(v, desired, a, e, s)
  }

  predicate WrittenAt(v: View, desired: seq<NamedService>, a: Answers, e: Exposure, s: nat)
    requires s < |desired|
  {
    && desired[s].service.kind == e && ApplyServices(v, desired[..s], a).ok
    && a.Ok(GetService(e)) && a.Took(WriteService(e))
  }

  /** The slot holds the desired Service of its exposure, applied over what it held. */
  predicate SlotFilled(before: Exposed, after: Exposed, desired: seq<NamedService>, a: Answers, e: Exposure) {
    exists i :: 0 <= i < |desired| && FilledBy(before, after, desired[i].service, a, e)
  }

  predicate FilledBy(before: Exposed, after: Exposed, d: Service, a: Answers, e: Exposure) {
    d.kind == e && after.At(e) == Some(Applied(a.alloc(e), before.At(e), d))
  }

  lemma {:induction false} ServicesFillSlots(v: View, desired: seq<NamedService>, a: Answers, e: Exposure)
    requires KindsDiffer(desired)
    ensures var after := ApplyServices(v, desired, a).view.services;
            if SlotWritten(v, desired, a, e) then SlotFilled(v.services, after, desired, a, e)
            else after.At(e) == v.services.At(e)
  {
    hide Applied, WrittenAt, FilledBy;
    if desired != [] {
      var n := |desired| - 1;
      ServicesFillSlots(v, desired[..n], a, e);
      LastSlot(v, desired, a, e);
      var before, after := ApplyServices(v, desired[..n], a).view.services, ApplyServices(v, desired, a).view.services;
      forall s | 0 <= s < n
        ensures WrittenAt(v, desired[..n], a, e, s) <==> WrittenAt(v, desired, a, e, s)
        ensures desired[..n][s] == desired[s]
      {
        SamePlace(v, desired, a, e, n, s);
      }
      if SlotWritten(v, desired[..n], a, e) {
        var s :| 0 <= s < n && WrittenAt(v, desired[..n], a, e, s);
        assert WrittenAt(v, desired, a, e, s);
        WrittenKind(v, desired, a, e, s);
        assert !WrittenAt(v, desired, a, e, n) by {
          if WrittenAt(v, desired, a, e, n) { WrittenKind(v, desired, a, e, n); }
        }
        var i :| 0 <= i < n && FilledBy(v.services, before, desired[..n][i].service, a, e);
        SameFill(v.services, before, after, desired[i].service, a, e);
      } else if SlotWritten(v, desired, a, e) {
        var s :| 0 <= s <= n && WrittenAt(v, desired, a, e, s);
        SameSlot(v.services, before, after, desired[n].service, a, e);
      }
    }
  }

  lemma SamePlace(v: View, desired: seq<NamedService>, a: Answers, e: Exposure, n: nat, s: nat)
    requires s < n < |desired|
    ensures WrittenAt(v, desired[..n], a, e, s) <==> WrittenAt(v, desired, a, e, s)
  {
    hide ApplyServices;
    assert desired[..n][..s] == desired[..s];
  }

  lemma WrittenKind(v: View, desired: seq<NamedService>, a: Answers, e: Exposure, s: nat)
    requires s < |desired| && WrittenAt(v, desired, a, e, s)
    ensures desired[s].service.kind == e
  {
    hide ApplyServices;
  }

  lemma SameFill(start: Exposed, before: Exposed, after: Exposed, d: Service, a: Answers, e: Exposure)
    requires FilledBy(start, before, d, a, e) && after.At(e) == before.At(e)
    ensures FilledBy(start, after, d, a, e)
  {
    hide Applied;
  }

  lemma SameSlot(start: Exposed, before: Exposed, after: Exposed, d: Service, a: Answers, e: Exposure)
    requires FilledBy(before, after, d, a, e) && start.At(e) == before.At(e)
    ensures FilledBy(start, after, d, a, e)
  {
    hide Applied;
  }

  /** What the last desired Service adds. */
  lemma LastSlot(v: View, desired: seq<NamedService>, a: Answers, e: Exposure)
    requires desired != []
    ensures var n := |desired| - 1;
            var before, after := ApplyServices(v, desired[..n], a).view.services,
                                 ApplyServices(v, desired, a).view.services;
            if WrittenAt(v, desired, a, e, n) then FilledBy(before, after, desired[n].service, a, e)
            else after.At(e) == before.At(e)
  {
    hide Applied;
  }

  /** The claim and the Deployment are applied, and then the Service of an exposure is written. */
  ghost predicate ChildrenWrite(k: Key, gs: GameServer, tpl: GameTemplate, source: Source, v: View, a: Answers,
                                e: Exposure) {
    var claimed := ApplyClaim(v, BuildPVC(k.name, gs, tpl, source), a);
    var deployed := ApplyDeployment(claimed.view, BuildDeployment(k.name, gs, tpl), a);
    claimed.ok && deployed.ok && SlotWritten(deployed.view, DesiredServices(k, gs, tpl), a, e)
  }

  lemma ChildrenFillSlots(k: Key, gs: GameServer, tpl: GameTemplate, source: Source, v: View, a: Answers, e: Exposure)
    requires v.server == Some(gs)
    ensures var after := ReconcileChildren(k, gs, tpl, source, v, a).services;
            if ChildrenWrite(k, gs, tpl, source, v, a, e) then
              SlotFilled(v.services, after, DesiredServices(k, gs, tpl), a, e)
            else after.At(e) == v.services.At(e)
  {
    hide BuildPVC, BuildDeployment, Finished, ApplyServices, AppliedServices, AppliedDeployment, AppliedClaim,
      DesiredServices, SlotWritten, SlotFilled;
    var claimed := ApplyClaim(v, BuildPVC(k.name, gs, tpl, source), a);
    var deployed := ApplyDeployment(claimed.view, BuildDeployment(k.name, gs, tpl), a);
    var desired := DesiredServices(k, gs, tpl);
    DesiredSlots(k, gs, tpl);
    ServicesKeepTheRest(deployed.view, desired, a);
    ServicesFillSlots(deployed.view, desired, a, e);
  }

  /** The pass gets as far as the Service of an exposure, whatever fails later, and its write takes effect. */
  ghost predicate WritesService(sx: Syntax, k: Key, i: Inputs, v: View, a: Answers, err: Option<ConfigError>,
                                e: Exposure) {
    && ReachesSize(i, v, a, err) && sx.isQuantity(ClaimSize(v.server.value, i.template.value))
    && ChildrenWrite(k, v.server.value, i.template.value, RestoreSource(v.server.value, v.claim, i.backup, a),
                     EnsureAccount(v, i.template.value, a).view, a, e)
  }

  /** A slot holds afterwards the desired Service applied over what it held, if the pass wrote it, and otherwise what it
      held before. */
  lemma ReconcileFillsSlots(sx: Syntax, k: Key, i: Inputs, v: View, a: Answers, err: Option<ConfigError>, e: Exposure)
    ensures var after := ReconcileView(sx, k, i, v, a, err).services;
            if WritesService(sx, k, i, v, a, err, e) then
              SlotFilled(v.services, after, DesiredServices(k, v.server.value, i.template.value), a, e)
            else after.At(e) == v.services.At(e)
  {
    hide RestoreSource, Invalid, Unavailable, BadStorage, ReconcileChildren, TemplateMissing, DesiredServices, Applied,
      ChildrenWrite, SlotFilled, ClaimSize, EnsureAccount;
    if v.server.Some? && i.template.Some? {
      var gs, tpl := v.server.value, i.template.value;
      AccountOnly(v, tpl, a);
      ChildrenFillSlots(k, gs, tpl, RestoreSource(gs, v.claim, i.backup, a), EnsureAccount(v, tpl, a).view, a, e);
    }
  }

  // ---------------------------------------------------------------------------------------------
  // The port a server's Service carries
  // ---------------------------------------------------------------------------------------------

  /** The node port stored under a name in a server's Service of an exposure; 0 when there is none. */
  function NodePortOf(st: Store, k: Key, e: Exposure, name: string): int {
    var svc := Get(st.services, ServiceKey(k, e));
    if svc.Some? && PortNamed(svc.value.ports, name).Some? then PortNamed(svc.value.ports, name).value.nodePort else 0
  }

  /** The port that server and template, as they are now, put under a name into the Service of an exposure. */
  function DesiredPort(st: Store, k: Key, e: Exposure, name: string): Option<ServicePort> {
    if k !in st.servers || InputsOf(st, k).template.None? then None
    else PortNamed(Group(st.servers[k].spec.exposeOverride, InputsOf(st, k).template.value.spec.ports, e), name)
  }

  /** The explicit pin for the port; 0 when there is none. */
  function PinFor(st: Store, k: Key, e: Exposure, name: string): int {
    var d := DesiredPort(st, k, e, name);
    if d.Some? then d.value.nodePort else 0
  }

  lemma DesiredInSlot(k: Key, gs: GameServer, tpl: GameTemplate, i: nat)
    requires i < |DesiredServices(k, gs, tpl)|
    ensures var d := DesiredServices(k, gs, tpl)[i].service;
            d.kind in ExposuresUsed(gs.spec.exposeOverride, tpl.spec.ports)
            && d.ports == Group(gs.spec.exposeOverride, tpl.spec.ports, d.kind)
  {
    hide ExposuresUsed, Group;
  }

  ghost predicate ServiceWritten(sx: Syntax, st: Store, k: Key, a: Answers, err: Option<ConfigError>, e: Exposure) {
    WritesService(sx, k, InputsOf(st, k), Project(st, k), a, err, e)
  }

  /** A reconcile that writes the Service still wants the port in it. */
  ghost predicate StillWanted(sx: Syntax, st: Store, k: Key, a: Answers, err: Option<ConfigError>, e: Exposure,
                              name: string) {
    ServiceWritten(sx, st, k, a, err, e) ==> DesiredPort(st, k, e, name).Some?
  }

  /** Whatever fails, a server's own reconcile keeps the node port of a port that stays wanted, except that a pin
      replaces it exactly when the Service is written. */
  lemma OwnReconcileKeepsNodePort(sx: Syntax, st: Store, k: Key, a: Answers, err: Option<ConfigError>, e: Exposure,
                                  name: string)
    requires e != ClusterIP && NodePortOf(st, k, e, name) != 0 && StillWanted(sx, st, k, a, err, e, name)
    ensures NodePortOf(ReconcileServer(sx, st, k, a, err), k, e, name) ==
            if ServiceWritten(sx, st, k, a, err, e) && PinFor(st, k, e, name) != 0 then PinFor(st, k, e, name)
            else NodePortOf(st, k, e, name)
  {
    hide ReconcileView, Embed, Group, ExposuresUsed, PortNamed, DesiredServices, Applied, ServiceKey, ChildrenWrite,
      ReachesSize;
    var i, v := InputsOf(st, k), Project(st, k);
    var w := ReconcileView(sx, k, i, v, a, err);
    ReconcileFillsSlots(sx, k, i, v, a, err, e);
    Chain(st, k, w, w);
    SlotIsStored(st, k, e);
    SlotIsStored(Embed(st, k, w), k, e);
    if ServiceWritten(sx, st, k, a, err, e) {
      WrittenIsThere(sx, k, i, v, a, err, e);
      var gs, tpl := v.server.value, i.template.value;
      var desired := DesiredServices(k, gs, tpl);
      var j :| 0 <= j < |desired| && FilledBy(v.services, w.services, desired[j].service, a, e);
      DesiredInSlot(k, gs, tpl, j);
      AppliedNodePort(a.alloc(e), v.services.At(e).value, desired[j].service, name);
    }
  }

  lemma WrittenIsThere(sx: Syntax, k: Key, i: Inputs, v: View, a: Answers, err: Option<ConfigError>, e: Exposure)
    requires WritesService(sx, k, i, v, a, err, e)
    ensures v.server.Some? && i.template.Some?
  {
    hide ChildrenWrite;
  }

  lemma SlotIsStored(st: Store, k: Key, e: Exposure)
    ensures Project(st, k).services.At(e) == Get(st.services, ServiceKey(k, e))
  {
  }

  /** Another server's reconcile does not touch it. */
  lemma OtherReconcileKeepsNodePort(sx: Syntax, st: Store, j: Key, k: Key, a: Answers, err: Option<ConfigError>,
                                    e: Exposure, name: string)
    requires j != k
    ensures NodePortOf(ReconcileServer(sx, st, j, a, err), k, e, name) == NodePortOf(st, k, e, name)
  {
    hide ReconcileServer, PortNamed, ServiceKey;
    OtherKeysDiffer(j, k);
    ReconcileFramesKeys(sx, st, j, a, err, ServiceKey(k, e));
  }

  // ---------------------------------------------------------------------------------------------
  // Whole runs
  // ---------------------------------------------------------------------------------------------

  /** What happens between two states of a run: some server's reconcile, or anything else. */
  datatype Move = Reconciling(key: Key, answers: Answers, err: Option<ConfigError>) | Elsewhere

  /** Anyone may edit, create or delete templates, servers, claims, Deployments, Backups and snapshots, and the
      apiserver may add addresses to Services; the ports of a Service are the reconciler's. */
  predicate PortsUntouched(st: Store, st': Store) {
    forall x :: x in st.services ==> x in st'.services && st'.services[x].ports == st.services[x].ports
  }

  ghost predicate Moves(sx: Syntax, st: Store, m: Move, st': Store) {
    match m
    case Reconciling(j, a, err) => st' == ReconcileServer(sx, st, j, a, err)
    case Elsewhere => PortsUntouched(st, st')
  }

  ghost predicate IsRun(sx: Syntax, run: seq<Store>, moves: seq<Move>) {
    |run| == |moves| + 1 && forall i :: 0 <= i < |moves| ==> Moves(sx, run[i], moves[i], run[i + 1])
  }

  /** The move does not take the port out of the server's Service. */
  ghost predicate Keeps(sx: Syntax, st: Store, m: Move, k: Key, e: Exposure, name: string) {
    m.Reconciling? && m.key == k ==> StillWanted(sx, st, k, m.answers, m.err, e, name)
  }

  ghost predicate NeverLeaves(sx: Syntax, run: seq<Store>, moves: seq<Move>, k: Key, e: Exposure, name: string)
    requires |run| == |moves| + 1
  {
    forall i :: 0 <= i < |moves| ==> Keeps(sx, run[i], moves[i], k, e, name)
  }

  /** The move is a reconcile of the server that writes the Service with a pin for the port. */
  ghost predicate Pins(sx: Syntax, st: Store, m: Move, k: Key, e: Exposure, name: string) {
    && m.Reconciling? && m.key == k
    && ServiceWritten(sx, st, k, m.answers, m.err, e) && PinFor(st, k, e, name) != 0
  }

  /** The last pin along the run that took effect, or the node port the run started with. */
  ghost function LastPin(sx: Syntax, run: seq<Store>, moves: seq<Move>, k: Key, e: Exposure, name: string): int
    requires |run| == |moves| + 1
  {
    if moves == [] then NodePortOf(run[0], k, e, name)
    else
      var n := |moves| - 1;
      if Pins(sx, run[n], moves[n], k, e, name) then PinFor(run[n], k, e, name)
      else LastPin(sx, run[..n + 1], moves[..n], k, e, name)
  }

  lemma MoveKeepsNodePort(sx: Syntax, st: Store, m: Move, st': Store, k: Key, e: Exposure, name: string)
    requires Moves(sx, st, m, st') && Keeps(sx, st, m, k, e, name)
    requires e != ClusterIP && NodePortOf(st, k, e, name) != 0
    ensures NodePortOf(st', k, e, name) ==
            if Pins(sx, st, m, k, e, name) then PinFor(st, k, e, name) else NodePortOf(st, k, e, name)
  {
    hide ReconcileServer, NodePortOf, PinFor, StillWanted, PortsUntouched, ServiceWritten;
    match m
    case Reconciling(j, a, err) =>
      if j == k {
        OwnReconcileKeepsNodePort(sx, st, k, a, err, e, name);
      } else {
        OtherReconcileKeepsNodePort(sx, st, j, k, a, err, e, name);
      }
    case Elsewhere =>
      UntouchedKeepsNodePort(st, st', k, e, name);
  }

  lemma UntouchedKeepsNodePort(st: Store, st': Store, k: Key, e: Exposure, name: string)
    requires PortsUntouched(st, st') && NodePortOf(st, k, e, name) != 0
    ensures NodePortOf(st', k, e, name) == NodePortOf(st, k, e, name)
  {
    hide PortNamed, ServiceKey;
  }

  /** Along every run, as long as the port does not leave its Service, a node port once assigned stays, through every
      reconcile of this or any other server and whichever calls fail, until a pin replaces it: what is stored at the end
      is the last pin that took effect, or what was stored at the start. */
  lemma {:induction false} NodePortsStayOverRuns(sx: Syntax, run: seq<Store>, moves: seq<Move>, k: Key, e: Exposure,
                                                 name: string)
    requires IsRun(sx, run, moves) && NeverLeaves(sx, run, moves, k, e, name)
    requires e != ClusterIP && NodePortOf(run[0], k, e, name) != 0
    ensures var port := NodePortOf(run[|run| - 1], k, e, name);
            port != 0 && port == LastPin(sx, run, moves, k, e, name)
  {
    hide NodePortOf, PinFor, Moves, Keeps, Pins;
    if moves != [] {
      var n := |moves| - 1;
      NodePortsStayOverRuns(sx, run[..n + 1], moves[..n], k, e, name);
      assert Moves(sx, run[n], moves[n], run[n + 1]) && Keeps(sx, run[n], moves[n], k, e, name);
      MoveKeepsNodePort(sx, run[n], moves[n], run[n + 1], k, e, name);
      if Pins(sx, run[n], moves[n], k, e, name) {
        PinIsSome(sx, run[n], moves[n], k, e, name);
      }
    }
  }

  lemma PinIsSome(sx: Syntax, st: Store, m: Move, k: Key, e: Exposure, name: string)
    requires Pins(sx, st, m, k, e, name)
    ensures PinFor(st, k, e, name) != 0
  {
  }
}
