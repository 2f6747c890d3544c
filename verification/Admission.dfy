/** The GameTemplate webhook: the list of problems it reports, and exactly which templates it admits. */
module Admission {
  import opened Prelude
  import opened GameTypes

  datatype Field = PortNameField | ContainerPortField | KeyNameField | EnvVarField

  datatype FieldError =
    | Duplicate(field: Field, index: nat, first: nat)
    | SeveralPrimaries
    | EnumRequired(index: nat)
    | EnumForbidden(index: nat)
    | DefaultOutsideEnum(index: nat)

  function PortNames(ports: seq<TemplatePort>): (xs: seq<string>)
    ensures |xs| == |ports|
  {
    seq(|ports|, i requires 0 <= i < |ports| => ports[i].name)
  }

  function ContainerPorts(ports: seq<TemplatePort>): (xs: seq<int>)
    ensures |xs| == |ports|
  {
    seq(|ports|, i requires 0 <= i < |ports| => ports[i].containerPort)
  }

  function KeyNames(keys: seq<ConfigKey>): (xs: seq<string>)
    ensures |xs| == |keys|
  {
    seq(|keys|, i requires 0 <= i < |keys| => keys[i].name)
  }

  function EnvVars(keys: seq<ConfigKey>): (xs: seq<string>)
    ensures |xs| == |keys|
  {
    seq(|keys|, i requires 0 <= i < |keys| => keys[i].envVar)
  }

  function Primaries(ports: seq<TemplatePort>): nat {
    if ports == [] then 0
    else Primaries(ports[..|ports| - 1]) + if ports[|ports| - 1].primary then 1 else 0
  }

  // ---------------------------------------------------------------------------------------------
  // The reported problems
  // ---------------------------------------------------------------------------------------------

  /** Position of the first occurrence of an element. */
  function First<T(==)>(xs: seq<T>, x: T): (i: nat)
    requires x in xs
    ensures i < |xs| && xs[i] == x
    ensures forall j :: 0 <= j < i ==> xs[j] != x
  {
    if xs[0] == x then 0 else 1 + First(xs[1..], x)
  }

  function DuplicateAt<T(==)>(xs: seq<T>, field: Field, i: nat): seq<FieldError>
    requires i < |xs|
  {
    var first := First(xs, xs[i]);
    if first < i then [Duplicate(field, i, first)] else []
  }

  function PortErrors(ports: seq<TemplatePort>, n: nat): seq<FieldError>
    requires n <= |ports|
  {
    if n == 0 then []
    else
      PortErrors(ports, n - 1)
      + DuplicateAt(PortNames(ports), PortNameField, n - 1)
      + DuplicateAt(ContainerPorts(ports), ContainerPortField, n - 1)
  }

  function TypeErrors(k: ConfigKey, i: nat): seq<FieldError> {
    (if k.kind == EnumType && k.choices == [] then [EnumRequired(i)] else [])
    + (if k.kind != EnumType && k.choices != [] then [EnumForbidden(i)] else [])
    + (if k.default != "" && k.kind == EnumType && k.default !in k.choices then [DefaultOutsideEnum(i)] else [])
  }

  function KeyErrors(keys: seq<ConfigKey>, n: nat): seq<FieldError>
    requires n <= |keys|
  {
    if n == 0 then []
    else
      KeyErrors(keys, n - 1)
      + DuplicateAt(KeyNames(keys), KeyNameField, n - 1)
      + DuplicateAt(EnvVars(keys), EnvVarField, n - 1)
      + TypeErrors(keys[n - 1], n - 1)
  }

  function AllPortErrors(ports: seq<TemplatePort>): seq<FieldError> {
    PortErrors(ports, |ports|)
  }

  function AllKeyErrors(keys: seq<ConfigKey>): seq<FieldError> {
    KeyErrors(keys, |keys|)
  }

  function Errors(tpl: TemplateSpec): seq<FieldError> {
    AllPortErrors(tpl.ports)
    + (if Primaries(tpl.ports) > 1 then [SeveralPrimaries] else [])
    + AllKeyErrors(tpl.configKeys)
  }

  /** The map of a duplicate scan: each element of the prefix, with the position it was first seen at. */
  ghost predicate SeenUpTo<T>(seen: map<T, nat>, xs: seq<T>, n: nat)
    requires n <= |xs|
  {
    && seen.Keys == Elements(xs[..n])
    && forall x :: x in seen ==> x in xs && seen[x] == First(xs, x)
  }

  lemma NothingSeen<T>(xs: seq<T>)
    ensures SeenUpTo(map[], xs, 0)
  {
  }

  lemma FirstIs<T>(xs: seq<T>, i: nat)
    requires i < |xs| && xs[i] !in xs[..i]
    ensures First(xs, xs[i]) == i
  {
    assert forall j :: 0 <= j < i ==> xs[j] == xs[..i][j];
  }

  lemma FirstIsEarlier<T>(xs: seq<T>, i: nat)
    requires i < |xs| && xs[i] in xs[..i]
    ensures First(xs, xs[i]) < i
  {
    var j :| 0 <= j < i && xs[..i][j] == xs[i];
    assert xs[j] == xs[i];
  }

  /** One turn of a duplicate scan reports a repetition exactly when the element occurred before. */
  lemma ScanStep<T>(seen: map<T, nat>, xs: seq<T>, field: Field, n: nat)
    requires n < |xs| && SeenUpTo(seen, xs, n)
    ensures DuplicateAt(xs, field, n) == if xs[n] in seen then [Duplicate(field, n, seen[xs[n]])] else []
    ensures SeenUpTo(if xs[n] in seen then seen else seen[xs[n] := n], xs, n + 1)
  {
    assert xs[..n + 1] == xs[..n] + [xs[n]];
    assert Elements(xs[..n + 1]) == Elements(xs[..n]) + {xs[n]};
    if xs[n] in xs[..n] {
      FirstIsEarlier(xs, n);
    } else {
      FirstIs(xs, n);
    }
  }

  lemma PortAt(ports: seq<TemplatePort>, i: nat)
    requires i < |ports|
    ensures PortNames(ports)[i] == ports[i].name && ContainerPorts(ports)[i] == ports[i].containerPort
  {
  }

  lemma KeyAt(keys: seq<ConfigKey>, i: nat)
    requires i < |keys|
    ensures KeyNames(keys)[i] == keys[i].name && EnvVars(keys)[i] == keys[i].envVar
  {
  }

  method ScanPorts(ports: seq<TemplatePort>) returns (errs: seq<FieldError>)
    ensures errs == AllPortErrors(ports)
  {
    hide First, SeenUpTo, DuplicateAt, PortNames, ContainerPorts;
    errs := [];
    var seenPortName: map<string, nat> := map[];
    var seenContainerPort: map<int, nat> := map[];
    ghost var names, numbers := PortNames(ports), ContainerPorts(ports);
    NothingSeen(names);
    NothingSeen(numbers);
    for i := 0 to |ports|
      invariant SeenUpTo(seenPortName, names, i)
      invariant SeenUpTo(seenContainerPort, numbers, i)
      invariant errs == PortErrors(ports, i)
    {
      var p := ports[i];
      PortAt(ports, i);
      ScanStep(seenPortName, names, PortNameField, i);
      ScanStep(seenContainerPort, numbers, ContainerPortField, i);
      if p.name in seenPortName {
        errs := errs + [Duplicate(PortNameField, i, seenPortName[p.name])];
      } else {
        seenPortName := seenPortName[p.name := i];
      }
      if p.containerPort in seenContainerPort {
        errs := errs + [Duplicate(ContainerPortField, i, seenContainerPort[p.containerPort])];
      } else {
        seenContainerPort := seenContainerPort[p.containerPort := i];
      }
    }
  }

  method CountPrimaries(ports: seq<TemplatePort>) returns (primaries: nat)
    ensures primaries == Primaries(ports)
  {
    primaries := 0;
    for i := 0 to |ports|
      invariant primaries == Primaries(ports[..i])
    {
      assert ports[..i + 1][..i] == ports[..i];
      if ports[i].primary {
        primaries := primaries + 1;
      }
    }
    assert ports[..|ports|] == ports;
  }

  method ScanKeys(keys: seq<ConfigKey>) returns (errs: seq<FieldError>)
    ensures errs == AllKeyErrors(keys)
  {
    hide First, SeenUpTo, DuplicateAt, KeyNames, EnvVars, TypeErrors;
    errs := [];
    var seenKeyName: map<string, nat> := map[];
    var seenEnvVar: map<string, nat> := map[];
    ghost var names, vars := KeyNames(keys), EnvVars(keys);
    NothingSeen(names);
    NothingSeen(vars);
    for i := 0 to |keys|
      invariant SeenUpTo(seenKeyName, names, i)
      invariant SeenUpTo(seenEnvVar, vars, i)
      invariant errs == KeyErrors(keys, i)
    {
      var k := keys[i];
      KeyAt(keys, i);
      ScanStep(seenKeyName, names, KeyNameField, i);
      ScanStep(seenEnvVar, vars, EnvVarField, i);
      if k.name in seenKeyName {
        errs := errs + [Duplicate(KeyNameField, i, seenKeyName[k.name])];
      } else {
        seenKeyName := seenKeyName[k.name := i];
      }
      if k.envVar in seenEnvVar {
        errs := errs + [Duplicate(EnvVarField, i, seenEnvVar[k.envVar])];
      } else {
        seenEnvVar := seenEnvVar[k.envVar := i];
      }
      var typeErrs := CheckType(k, i);
      errs := errs + typeErrs;
    }
  }

  method CheckType(k: ConfigKey, i: nat) returns (errs: seq<FieldError>)
    ensures errs == TypeErrors(k, i)
  {
    errs := [];
    if k.kind == EnumType && k.choices == [] {
      errs := errs + [EnumRequired(i)];
    }
    if k.kind != EnumType && k.choices != [] {
      errs := errs + [EnumForbidden(i)];
    }
    if k.default != "" && k.kind == EnumType && k.default !in k.choices {
      errs := errs + [DefaultOutsideEnum(i)];
    }
  }

  method ValidateTemplate(tpl: TemplateSpec) returns (errs: seq<FieldError>)
    ensures errs == Errors(tpl)
  {
    errs := ScanPorts(tpl.ports);
    var primaries := CountPrimaries(tpl.ports);
    if primaries > 1 {
      errs := errs + [SeveralPrimaries];
    }
    var keyErrs := ScanKeys(tpl.configKeys);
    errs := errs + keyErrs;
  }

  // ---------------------------------------------------------------------------------------------
  // Which templates are admitted
  // ---------------------------------------------------------------------------------------------

  predicate WellTyped(k: ConfigKey) {
    && (k.kind == EnumType <==> k.choices != [])
    && (k.kind == EnumType && k.default != "" ==> k.default in k.choices)
  }

  predicate AtMostOnePrimary(ports: seq<TemplatePort>) {
    forall i, j :: 0 <= i < j < |ports| ==> !(ports[i].primary && ports[j].primary)
  }

  predicate Admissible(tpl: TemplateSpec) {
    && Distinct(PortNames(tpl.ports)) && Distinct(ContainerPorts(tpl.ports))
    && AtMostOnePrimary(tpl.ports)
    && Distinct(KeyNames(tpl.configKeys)) && Distinct(EnvVars(tpl.configKeys))
    && AllWellTyped(tpl.configKeys, |tpl.configKeys|)
  }

  predicate NoRepeats<T(==)>(xs: seq<T>, n: nat)
    requires n <= |xs|
  {
    forall i :: 0 <= i < n ==> First(xs, xs[i]) == i
  }

  lemma NoRepeatsMeansDistinct<T>(xs: seq<T>)
    ensures NoRepeats(xs, |xs|) <==> Distinct(xs)
  {
    if NoRepeats(xs, |xs|) {
      forall i, j | 0 <= i < j < |xs|
        ensures xs[i] != xs[j]
      {
        assert First(xs, xs[j]) == j;
      }
    }
  }

  lemma NothingRepeats<T>(xs: seq<T>)
    ensures NoRepeats(xs, 0)
  {
  }

  lemma DuplicateAtDecides<T>(xs: seq<T>, field: Field, n: nat)
    requires n < |xs|
    ensures NoRepeats(xs, n + 1) <==> NoRepeats(xs, n) && DuplicateAt(xs, field, n) == []
  {
  }

  lemma {:induction false} PortErrorsDecide(ports: seq<TemplatePort>, n: nat)
    requires n <= |ports|
    ensures PortErrors(ports, n) == [] <==> NoRepeats(PortNames(ports), n) && NoRepeats(ContainerPorts(ports), n)
  {
    hide First, DuplicateAt, NoRepeats, PortNames, ContainerPorts;
    NothingRepeats(PortNames(ports));
    NothingRepeats(ContainerPorts(ports));
    if n > 0 {
      PortErrorsDecide(ports, n - 1);
      DuplicateAtDecides(PortNames(ports), PortNameField, n - 1);
      DuplicateAtDecides(ContainerPorts(ports), ContainerPortField, n - 1);
    }
  }

  predicate AllWellTyped(keys: seq<ConfigKey>, n: nat)
    requires n <= |keys|
  {
    forall i :: 0 <= i < n ==> WellTyped(keys[i])
  }

  lemma {:induction false} KeyErrorsDecide(keys: seq<ConfigKey>, n: nat)
    requires n <= |keys|
    ensures KeyErrors(keys, n) == [] <==>
            NoRepeats(KeyNames(keys), n) && NoRepeats(EnvVars(keys), n) && AllWellTyped(keys, n)
  {
    hide First, DuplicateAt, NoRepeats, KeyNames, EnvVars, TypeErrors;
    NothingRepeats(KeyNames(keys));
    NothingRepeats(EnvVars(keys));
    if n > 0 {
      KeyErrorsDecide(keys, n - 1);
      DuplicateAtDecides(KeyNames(keys), KeyNameField, n - 1);
      DuplicateAtDecides(EnvVars(keys), EnvVarField, n - 1);
      TypeErrorsDecide(keys[n - 1], n - 1);
    }
  }

  lemma TypeErrorsDecide(k: ConfigKey, i: nat)
    ensures TypeErrors(k, i) == [] <==> WellTyped(k)
  {
  }

  lemma {:induction false} PrimariesCount(ports: seq<TemplatePort>)
    ensures Primaries(ports) == 0 <==> forall i :: 0 <= i < |ports| ==> !ports[i].primary
    ensures Primaries(ports) <= 1 <==> AtMostOnePrimary(ports)
  {
    if ports != [] {
      var n := |ports| - 1;
      var rest := ports[..n];
      PrimariesCount(rest);
      assert forall i :: 0 <= i < n ==> ports[i] == rest[i];
      if AtMostOnePrimary(rest) && !ports[n].primary {
        assert AtMostOnePrimary(ports);
      }
      if AtMostOnePrimary(ports) && ports[n].primary {
        assert Primaries(rest) == 0;
      }
    }
  }

  /** The webhook admits a template exactly when port names, container ports, key names and environment variables
      are unique, at most one port is primary, and every key's enum list and enum default fit its type. */
  lemma AdmittedIffAdmissible(tpl: TemplateSpec)
    ensures Errors(tpl) == [] <==> Admissible(tpl)
  {
    PortErrorsDecide(tpl.ports, |tpl.ports|);
    KeyErrorsDecide(tpl.configKeys, |tpl.configKeys|);
    PrimariesCount(tpl.ports);
    NoRepeatsMeansDistinct(PortNames(tpl.ports));
    NoRepeatsMeansDistinct(ContainerPorts(tpl.ports));
    NoRepeatsMeansDistinct(KeyNames(tpl.configKeys));
    NoRepeatsMeansDistinct(EnvVars(tpl.configKeys));
  }

  // ---------------------------------------------------------------------------------------------
  // Exactly which problems are reported, and in which order
  // ---------------------------------------------------------------------------------------------

  /** Position i repeats an element that first occurs at j. */
  predicate RepeatsFirst<T(==)>(xs: seq<T>, i: int, j: int) {
    0 <= j < i < |xs| && xs[j] == xs[i] && forall m :: 0 <= m < j ==> xs[m] != xs[i]
  }

  predicate PortProblem(ports: seq<TemplatePort>, e: FieldError) {
    e.Duplicate? && match e.field
                    case PortNameField => RepeatsFirst(PortNames(ports), e.index, e.first)
                    case ContainerPortField => RepeatsFirst(ContainerPorts(ports), e.index, e.first)
                    case _ => false
  }

  predicate KeyProblem(keys: seq<ConfigKey>, e: FieldError) {
    match e
    case Duplicate(KeyNameField, i, j) => RepeatsFirst(KeyNames(keys), i, j)
    case Duplicate(EnvVarField, i, j) => RepeatsFirst(EnvVars(keys), i, j)
    case EnumRequired(i) => i < |keys| && keys[i].kind == EnumType && keys[i].choices == []
    case EnumForbidden(i) => i < |keys| && keys[i].kind != EnumType && keys[i].choices != []
    case DefaultOutsideEnum(i) =>
      i < |keys| && keys[i].kind == EnumType && keys[i].default != "" && keys[i].default !in keys[i].choices
    case _ => false
  }

  predicate Problem(tpl: TemplateSpec, e: FieldError) {
    || PortProblem(tpl.ports, e)
    || (e == SeveralPrimaries && !AtMostOnePrimary(tpl.ports))
    || KeyProblem(tpl.configKeys, e)
  }

  /** Where a problem stands in the report: ports in order, the primaries, keys in order, the checks of each in
      order. */
  function Place(ports: nat, e: FieldError): int {
    match e
    case Duplicate(PortNameField, i, _) => 2 * i
    case Duplicate(ContainerPortField, i, _) => 2 * i + 1
    case SeveralPrimaries => 2 * ports
    case Duplicate(KeyNameField, i, _) => 2 * ports + 1 + 5 * i
    case Duplicate(EnvVarField, i, _) => 2 * ports + 2 + 5 * i
    case EnumRequired(i) => 2 * ports + 3 + 5 * i
    case EnumForbidden(i) => 2 * ports + 4 + 5 * i
    case DefaultOutsideEnum(i) => 2 * ports + 5 + 5 * i
  }

  predicate Ascending(ports: nat, errs: seq<FieldError>) {
    forall i, j :: 0 <= i < j < |errs| ==> Place(ports, errs[i]) < Place(ports, errs[j])
  }

  predicate Within(ports: nat, errs: seq<FieldError>, lo: int, hi: int) {
    Ascending(ports, errs) && forall i :: 0 <= i < |errs| ==> lo <= Place(ports, errs[i]) < hi
  }

  lemma WithinConcat(ports: nat, a: seq<FieldError>, b: seq<FieldError>, lo: int, mid: int, hi: int)
    requires Within(ports, a, lo, mid) && Within(ports, b, mid, hi) && lo <= mid <= hi
    ensures Within(ports, a + b, lo, hi)
  {
    hide Place;
  }

  lemma DuplicateAtExact<T>(ports: nat, xs: seq<T>, field: Field, i: nat)
    requires i < |xs|
    ensures forall e :: e in DuplicateAt(xs, field, i) <==>
                        e.Duplicate? && e.field == field && e.index == i && RepeatsFirst(xs, i, e.first)
    ensures var at := Place(ports, Duplicate(field, i, 0)); Within(ports, DuplicateAt(xs, field, i), at, at + 1)
  {
    var first := First(xs, xs[i]);
    forall j | RepeatsFirst(xs, i, j)
      ensures j == first
    {
    }
  }

  lemma {:induction false} PortErrorsExact(ports: seq<TemplatePort>, n: nat)
    requires n <= |ports|
    ensures forall e :: e in PortErrors(ports, n) <==> PortProblem(ports, e) && e.index < n
    ensures Within(|ports|, PortErrors(ports, n), 0, 2 * n)
  {
    hide DuplicateAt, Within, RepeatsFirst, PortNames, ContainerPorts;
    if n == 0 {
      NothingWithin(|ports|, 0);
    } else {
      var before := PortErrors(ports, n - 1);
      var a := DuplicateAt(PortNames(ports), PortNameField, n - 1);
      var b := DuplicateAt(ContainerPorts(ports), ContainerPortField, n - 1);
      PortErrorsExact(ports, n - 1);
      DuplicateAtExact(|ports|, PortNames(ports), PortNameField, n - 1);
      DuplicateAtExact(|ports|, ContainerPorts(ports), ContainerPortField, n - 1);
      WithinConcat(|ports|, before, a, 0, 2 * n - 2, 2 * n - 1);
      WithinConcat(|ports|, before + a, b, 0, 2 * n - 1, 2 * n);
      forall e
        ensures e in PortErrors(ports, n) <==> PortProblem(ports, e) && e.index < n
      {
        assert e in PortErrors(ports, n) <==> e in before || e in a || e in b;
      }
    }
  }

  lemma NothingWithin(ports: nat, at: int)
    ensures Within(ports, [], at, at)
  {
  }

  lemma TypeErrorsExact(ports: nat, keys: seq<ConfigKey>, i: nat)
    requires i < |keys|
    ensures forall e :: e in TypeErrors(keys[i], i) <==> KeyProblem(keys, e) && !e.Duplicate? && e.index == i
    ensures Within(ports, TypeErrors(keys[i], i), 2 * ports + 3 + 5 * i, 2 * ports + 6 + 5 * i)
  {
  }

  lemma {:induction false} KeyErrorsExact(ports: nat, keys: seq<ConfigKey>, n: nat)
    requires n <= |keys|
    ensures forall e :: e in KeyErrors(keys, n) <==> KeyProblem(keys, e) && e.index < n
    ensures Within(ports, KeyErrors(keys, n), 2 * ports + 1, 2 * ports + 1 + 5 * n)
  {
    hide DuplicateAt, TypeErrors, Within, RepeatsFirst, KeyNames, EnvVars;
    if n == 0 {
      NothingWithin(ports, 2 * ports + 1);
    } else {
      var i, at := n - 1, 2 * ports + 5 * n - 4;
      var before := KeyErrors(keys, i);
      var a, b := DuplicateAt(KeyNames(keys), KeyNameField, i), DuplicateAt(EnvVars(keys), EnvVarField, i);
      KeyErrorsExact(ports, keys, i);
      DuplicateAtExact(ports, KeyNames(keys), KeyNameField, i);
      DuplicateAtExact(ports, EnvVars(keys), EnvVarField, i);
      TypeErrorsExact(ports, keys, i);
      WithinConcat(ports, before, a, 2 * ports + 1, at, at + 1);
      WithinConcat(ports, before + a, b, 2 * ports + 1, at + 1, at + 2);
      WithinConcat(ports, before + a + b, TypeErrors(keys[i], i), 2 * ports + 1, at + 2, at + 5);
      forall e
        ensures e in KeyErrors(keys, n) <==> KeyProblem(keys, e) && e.index < n
      {
        assert e in KeyErrors(keys, n) <==> e in before || e in a || e in b || e in TypeErrors(keys[i], i);
      }
    }
  }

  /** The webhook reports exactly the problems a template has, each once: port problems in port order, then a second
      primary, then key problems in key order; a repetition cites the first occurrence. */
  lemma ErrorsAreExact(tpl: TemplateSpec)
    ensures forall e :: e in Errors(tpl) <==> Problem(tpl, e)
    ensures Ascending(|tpl.ports|, Errors(tpl))
  {
    hide PortErrors, KeyErrors, Place, RepeatsFirst, AtMostOnePrimary, Primaries;
    var n := |tpl.ports|;
    var ports, keys := AllPortErrors(tpl.ports), AllKeyErrors(tpl.configKeys);
    var primaries := if Primaries(tpl.ports) > 1 then [SeveralPrimaries] else [];
    PortErrorsExact(tpl.ports, n);
    KeyErrorsExact(n, tpl.configKeys, |tpl.configKeys|);
    PrimariesCount(tpl.ports);
    PrimaryPlace(n);
    WithinConcat(n, ports, primaries, 0, 2 * n, 2 * n + 1);
    WithinConcat(n, ports + primaries, keys, 0, 2 * n + 1, 2 * n + 1 + 5 * |tpl.configKeys|);
    forall e
      ensures e in Errors(tpl) <==> Problem(tpl, e)
    {
      assert e in Errors(tpl) <==> e in ports || e in primaries || e in keys;
      ProblemsAreInside(tpl, e);
    }
  }

  lemma PrimaryPlace(ports: nat)
    ensures Within(ports, [SeveralPrimaries], 2 * ports, 2 * ports + 1)
    ensures Within(ports, [], 2 * ports, 2 * ports + 1)
  {
  }

  lemma ProblemsAreInside(tpl: TemplateSpec, e: FieldError)
    ensures PortProblem(tpl.ports, e) ==> e.index < |tpl.ports|
    ensures KeyProblem(tpl.configKeys, e) ==> e.index < |tpl.configKeys|
  {
  }

  // ---------------------------------------------------------------------------------------------
  // How many duplicates are reported
  // ---------------------------------------------------------------------------------------------

  /** Reported repetitions of one field: where, and the earlier position cited. */
  function Cited(errs: seq<FieldError>, field: Field): seq<(nat, nat)> {
    if errs == [] then []
    else
      (if errs[0].Duplicate? && errs[0].field == field then [(errs[0].index, errs[0].first)] else [])
      + Cited(errs[1..], field)
  }

  /** Positions of a list that repeat an earlier element, with the position of its first occurrence. */
  function Repetitions<T(==)>(xs: seq<T>, n: nat): seq<(nat, nat)>
    requires n <= |xs|
  {
    if n == 0 then []
    else
      var first := First(xs, xs[n - 1]);
      Repetitions(xs, n - 1) + if first < n - 1 then [(n - 1, first)] else []
  }

  lemma {:induction false} CitedConcat(a: seq<FieldError>, b: seq<FieldError>, field: Field)
    ensures Cited(a + b, field) == Cited(a, field) + Cited(b, field)
  {
    if a == [] {
      assert a + b == b;
    } else {
      assert (a + b)[1..] == a[1..] + b;
      CitedConcat(a[1..], b, field);
    }
  }

  lemma RepetitionsStep<T>(xs: seq<T>, n: nat)
    requires n < |xs|
    ensures Repetitions(xs, n + 1) ==
            Repetitions(xs, n) + if First(xs, xs[n]) < n then [(n, First(xs, xs[n]))] else []
  {
  }

  lemma NothingCited<T>(xs: seq<T>, field: Field)
    ensures Repetitions(xs, 0) == [] && Cited([], field) == []
  {
  }

  lemma DuplicateCites<T>(xs: seq<T>, f: Field, i: nat, field: Field)
    requires i < |xs|
    ensures Cited(DuplicateAt(xs, f, i), field) ==
            if field == f && First(xs, xs[i]) < i then [(i, First(xs, xs[i]))] else []
  {
  }

  lemma PortErrorsCite(ports: seq<TemplatePort>, n: nat, field: Field)
    requires n < |ports|
    ensures Cited(PortErrors(ports, n + 1), field) ==
            Cited(PortErrors(ports, n), field)
            + (Cited(DuplicateAt(PortNames(ports), PortNameField, n), field)
               + Cited(DuplicateAt(ContainerPorts(ports), ContainerPortField, n), field))
  {
    hide Cited, First, DuplicateAt, PortNames, ContainerPorts;
    var before := PortErrors(ports, n);
    var a := DuplicateAt(PortNames(ports), PortNameField, n);
    CitedConcat(before, a, field);
    CitedConcat(before + a, DuplicateAt(ContainerPorts(ports), ContainerPortField, n), field);
  }

  lemma {:induction false} PortCitations(ports: seq<TemplatePort>, n: nat, field: Field)
    requires n <= |ports|
    ensures field == PortNameField ==> Cited(PortErrors(ports, n), field) == Repetitions(PortNames(ports), n)
    ensures field == ContainerPortField ==> Cited(PortErrors(ports, n), field) == Repetitions(ContainerPorts(ports), n)
    ensures field != PortNameField && field != ContainerPortField ==> Cited(PortErrors(ports, n), field) == []
  {
    hide Cited, First, DuplicateAt, PortNames, ContainerPorts, Repetitions;
    NothingCited(PortNames(ports), field);
    NothingCited(ContainerPorts(ports), field);
    if n > 0 {
      PortCitations(ports, n - 1, field);
      PortErrorsCite(ports, n - 1, field);
      DuplicateCites(PortNames(ports), PortNameField, n - 1, field);
      DuplicateCites(ContainerPorts(ports), ContainerPortField, n - 1, field);
      RepetitionsStep(PortNames(ports), n - 1);
      RepetitionsStep(ContainerPorts(ports), n - 1);
    }
  }

  lemma KeyErrorsCite(keys: seq<ConfigKey>, n: nat, field: Field)
    requires n < |keys|
    ensures Cited(KeyErrors(keys, n + 1), field) ==
            Cited(KeyErrors(keys, n), field)
            + (Cited(DuplicateAt(KeyNames(keys), KeyNameField, n), field)
               + Cited(DuplicateAt(EnvVars(keys), EnvVarField, n), field))
  {
    hide Cited, First, DuplicateAt, TypeErrors, KeyNames, EnvVars;
    var before := KeyErrors(keys, n);
    var a := DuplicateAt(KeyNames(keys), KeyNameField, n);
    var b := DuplicateAt(EnvVars(keys), EnvVarField, n);
    TypeErrorsCiteNothing(keys[n], n, field);
    CitedConcat(before, a, field);
    CitedConcat(before + a, b, field);
    CitedConcat(before + a + b, TypeErrors(keys[n], n), field);
  }

  lemma {:induction false} KeyCitations(keys: seq<ConfigKey>, n: nat, field: Field)
    requires n <= |keys|
    ensures field == KeyNameField ==> Cited(KeyErrors(keys, n), field) == Repetitions(KeyNames(keys), n)
    ensures field == EnvVarField ==> Cited(KeyErrors(keys, n), field) == Repetitions(EnvVars(keys), n)
    ensures field != KeyNameField && field != EnvVarField ==> Cited(KeyErrors(keys, n), field) == []
  {
    hide Cited, First, DuplicateAt, KeyNames, EnvVars, Repetitions, TypeErrors;
    NothingCited(KeyNames(keys), field);
    NothingCited(EnvVars(keys), field);
    if n > 0 {
      KeyCitations(keys, n - 1, field);
      KeyErrorsCite(keys, n - 1, field);
      DuplicateCites(KeyNames(keys), KeyNameField, n - 1, field);
      DuplicateCites(EnvVars(keys), EnvVarField, n - 1, field);
      RepetitionsStep(KeyNames(keys), n - 1);
      RepetitionsStep(EnvVars(keys), n - 1);
    }
  }

  lemma TypeErrorsCiteNothing(k: ConfigKey, i: nat, field: Field)
    ensures Cited(TypeErrors(k, i), field) == []
  {
    var a := if k.kind == EnumType && k.choices == [] then [EnumRequired(i)] else [];
    var b := if k.kind != EnumType && k.choices != [] then [EnumForbidden(i)] else [];
    var c := if k.default != "" && k.kind == EnumType && k.default !in k.choices then [DefaultOutsideEnum(i)] else [];
    CitedConcat(a, b, field);
    CitedConcat(a + b, c, field);
  }

  lemma {:induction false} RepetitionsCount<T>(xs: seq<T>, n: nat)
    requires n <= |xs|
    ensures |Repetitions(xs, n)| == n - |Elements(xs[..n])|
  {
    if n > 0 {
      RepetitionsCount(xs, n - 1);
      var before, x := xs[..n - 1], xs[n - 1];
      assert xs[..n] == before + [x];
      var first := First(xs, x);
      if first < n - 1 {
        assert before[first] == x;
        assert Elements(xs[..n]) == Elements(before);
      } else {
        assert x !in before;
        assert x !in Elements(before) && Elements(xs[..n]) == Elements(before) + {x};
      }
    }
  }

  /** For each of the four unique fields the webhook reports every repetition once, in order, citing the first
      occurrence; their number is the list's length minus its number of distinct values. */
  lemma DuplicatesAreAllReported(tpl: TemplateSpec)
    ensures var errs, ports, keys := Errors(tpl), tpl.ports, tpl.configKeys;
            && Cited(errs, PortNameField) == Repetitions(PortNames(ports), |ports|)
            && Cited(errs, ContainerPortField) == Repetitions(ContainerPorts(ports), |ports|)
            && Cited(errs, KeyNameField) == Repetitions(KeyNames(keys), |keys|)
            && Cited(errs, EnvVarField) == Repetitions(EnvVars(keys), |keys|)
            && |Cited(errs, PortNameField)| == |ports| - |Elements(PortNames(ports))|
            && |Cited(errs, ContainerPortField)| == |ports| - |Elements(ContainerPorts(ports))|
            && |Cited(errs, KeyNameField)| == |keys| - |Elements(KeyNames(keys))|
            && |Cited(errs, EnvVarField)| == |keys| - |Elements(EnvVars(keys))|
  {
    FieldCitations(tpl, PortNameField);
    FieldCitations(tpl, ContainerPortField);
    FieldCitations(tpl, KeyNameField);
    FieldCitations(tpl, EnvVarField);
    WholeCount(PortNames(tpl.ports));
    WholeCount(ContainerPorts(tpl.ports));
    WholeCount(KeyNames(tpl.configKeys));
    WholeCount(EnvVars(tpl.configKeys));
  }

  lemma WholeCount<T>(xs: seq<T>)
    ensures |Repetitions(xs, |xs|)| == |xs| - |Elements(xs)|
  {
    RepetitionsCount(xs, |xs|);
    assert xs[..|xs|] == xs;
  }

  lemma FieldCitations(tpl: TemplateSpec, field: Field)
    ensures Cited(Errors(tpl), field) ==
            Cited(PortErrors(tpl.ports, |tpl.ports|), field) + Cited(KeyErrors(tpl.configKeys, |tpl.configKeys|), field)
    ensures Cited(PortErrors(tpl.ports, |tpl.ports|), field) ==
            if field == PortNameField then Repetitions(PortNames(tpl.ports), |tpl.ports|)
            else if field == ContainerPortField then Repetitions(ContainerPorts(tpl.ports), |tpl.ports|) else []
    ensures Cited(KeyErrors(tpl.configKeys, |tpl.configKeys|), field) ==
            if field == KeyNameField then Repetitions(KeyNames(tpl.configKeys), |tpl.configKeys|)
            else if field == EnvVarField then Repetitions(EnvVars(tpl.configKeys), |tpl.configKeys|) else []
  {
    var ports := PortErrors(tpl.ports, |tpl.ports|);
    var primaries := if Primaries(tpl.ports) > 1 then [SeveralPrimaries] else [];
    var keys := KeyErrors(tpl.configKeys, |tpl.configKeys|);
    CitedConcat(ports, primaries, field);
    CitedConcat(ports + primaries, keys, field);
    PortCitations(tpl.ports, |tpl.ports|, field);
    KeyCitations(tpl.configKeys, |tpl.configKeys|, field);
  }
}
