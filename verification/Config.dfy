/** Validation of a server's configuration against its template's keys. */
module Config {
  import opened Prelude
  import opened GameTypes

  datatype ConfigError =
    | UnknownKey(key: string)
    | NotAnInt(key: string)
    | NotABool(key: string)
    | NotInEnum(key: string)
    | MissingRequired(key: string)

  /** The key a name stands for; a later declaration shadows an earlier one. */
  function KeyNamed(keys: seq<ConfigKey>, name: string): (k: Option<ConfigKey>)
    ensures k.Some? ==> k.value in keys && k.value.name == name
    ensures k.None? ==> forall i :: 0 <= i < |keys| ==> keys[i].name != name
  {
    if keys == [] then None
    else
      var last := keys[|keys| - 1];
      if last.name == name then Some(last) else KeyNamed(keys[..|keys| - 1], name)
  }

  predicate Fits(sx: Syntax, k: ConfigKey, v: string) {
    match k.kind
    case UnsetType => true
    case StringType => true
    case IntType => sx.isInt(v)
    case BoolType => sx.isBool(v)
    case EnumType => v in k.choices
  }

  /** Every configured key is known and typed, and every required key is configured or has a default. */
  predicate ValidConfig(sx: Syntax, config: map<string, string>, keys: seq<ConfigKey>) {
    && (forall name :: name in config ==>
          KeyNamed(keys, name).Some? && Fits(sx, KeyNamed(keys, name).value, config[name]))
    && (forall i :: 0 <= i < |keys| ==> Provided(config, keys[i]))
  }

  predicate Provided(config: map<string, string>, k: ConfigKey) {
    k.required ==> k.name in config || k.default != ""
  }

  /** The reported error names a problem the configuration really has. */
  predicate Violates(sx: Syntax, config: map<string, string>, keys: seq<ConfigKey>, e: ConfigError) {
    match e
    case UnknownKey(name) => name in config && KeyNamed(keys, name).None?
    case MissingRequired(name) =>
      exists i :: 0 <= i < |keys| && keys[i].name == name && !Provided(config, keys[i])
    case _ =>
      && e.key in config
      && var k := KeyNamed(keys, e.key);
         && k.Some? && !Fits(sx, k.value, config[e.key])
         && (k.value.kind == IntType <==> e.NotAnInt?)
         && (k.value.kind == BoolType <==> e.NotABool?)
         && (k.value.kind == EnumType <==> e.NotInEnum?)
  }

  /** A configuration is valid exactly when no error can be reported about it. */
  lemma ValidIffNothingViolated(sx: Syntax, config: map<string, string>, keys: seq<ConfigKey>)
    ensures ValidConfig(sx, config, keys) <==> forall e :: !Violates(sx, config, keys, e)
  {
    if forall e :: !Violates(sx, config, keys, e) {
      forall name | name in config
        ensures KeyNamed(keys, name).Some? && Fits(sx, KeyNamed(keys, name).value, config[name])
      {
        assert !Violates(sx, config, keys, UnknownKey(name));
        assert !Violates(sx, config, keys, NotAnInt(name));
        assert !Violates(sx, config, keys, NotABool(name));
        assert !Violates(sx, config, keys, NotInEnum(name));
      }
      forall i | 0 <= i < |keys|
        ensures Provided(config, keys[i])
      {
        assert !Violates(sx, config, keys, MissingRequired(keys[i].name));
      }
    }
  }

  /** keys[i] is the last declaration of a name. */
  predicate LastDeclared(keys: seq<ConfigKey>, name: string, i: int) {
    0 <= i < |keys| && keys[i].name == name && forall j :: i < j < |keys| ==> keys[j].name != name
  }

  lemma {:induction false} KeyNamedIsLast(keys: seq<ConfigKey>, name: string)
    ensures forall i :: LastDeclared(keys, name, i) ==> KeyNamed(keys, name) == Some(keys[i])
    ensures KeyNamed(keys, name).Some? ==> exists i :: LastDeclared(keys, name, i)
  {
    if keys != [] {
      var n := |keys| - 1;
      KeyNamedIsLast(keys[..n], name);
      if keys[n].name == name {
        assert LastDeclared(keys, name, n);
        assert forall i :: LastDeclared(keys, name, i) ==> !(i < n);
      } else {
        forall i
          ensures LastDeclared(keys[..n], name, i) <==> LastDeclared(keys, name, i)
        {
          if LastDeclared(keys[..n], name, i) {
            assert keys[..n][i] == keys[i];
          }
        }
      }
    }
  }

  /** The value is of the type the last declaration of its key asks for. */
  predicate Allows(sx: Syntax, k: ConfigKey, v: string) {
    && (k.kind == IntType ==> sx.isInt(v))
    && (k.kind == BoolType ==> sx.isBool(v))
    && (k.kind == EnumType ==> v in k.choices)
  }

  /** A configuration is valid exactly when each configured key is declared and its value fits the last declaration, and
      each required key is configured or has a default. */
  lemma ValidConfigIff(sx: Syntax, config: map<string, string>, keys: seq<ConfigKey>)
    ensures ValidConfig(sx, config, keys) <==>
            && (forall name :: name in config ==>
                  exists i :: LastDeclared(keys, name, i) && Allows(sx, keys[i], config[name]))
            && (forall i :: 0 <= i < |keys| && keys[i].required && keys[i].default == "" ==> keys[i].name in config)
  {
    hide KeyNamed;
    forall name | name in config
      ensures KeyNamed(keys, name).Some? && Fits(sx, KeyNamed(keys, name).value, config[name]) <==>
              exists i :: LastDeclared(keys, name, i) && Allows(sx, keys[i], config[name])
    {
      KeyNamedIsLast(keys, name);
      FitsIsAllows(sx, config[name]);
    }
  }

  lemma FitsIsAllows(sx: Syntax, v: string)
    ensures forall k :: Fits(sx, k, v) <==> Allows(sx, k, v)
  {
  }

  /** The lookup the validator and the environment builder make of the template's keys. */
  ghost predicate Indexes(byName: map<string, ConfigKey>, keys: seq<ConfigKey>) {
    forall name :: KeyNamed(keys, name) == if name in byName then Some(byName[name]) else None
  }

  method IndexKeys(keys: seq<ConfigKey>) returns (byName: map<string, ConfigKey>)
    ensures Indexes(byName, keys)
  {
    byName := map[];
    for i := 0 to |keys|
      invariant Indexes(byName, keys[..i])
    {
      assert keys[..i + 1][..i] == keys[..i];
      byName := byName[keys[i].name := keys[i]];
    }
    assert keys[..|keys|] == keys;
  }

  // ---------------------------------------------------------------------------------------------
  // Which problem is reported
  // ---------------------------------------------------------------------------------------------

  /** An order in which a walk over the configuration map can meet its keys. */
  predicate IsWalk(visited: seq<string>, config: map<string, string>) {
    Distinct(visited) && Elements(visited) == config.Keys
  }

  /** What is wrong with one configured key. */
  function KeyProblem(sx: Syntax, keys: seq<ConfigKey>, name: string, v: string): Option<ConfigError> {
    var k := KeyNamed(keys, name);
    if k.None? then Some(UnknownKey(name))
    else if Fits(sx, k.value, v) then None
    else match k.value.kind
      case IntType => Some(NotAnInt(name))
      case BoolType => Some(NotABool(name))
      case _ => Some(NotInEnum(name))
  }

  predicate BadKey(sx: Syntax, config: map<string, string>, keys: seq<ConfigKey>, name: string) {
    name in config && KeyProblem(sx, keys, name, config[name]).Some?
  }

  /** The first problem met on a walk. */
  function WalkProblem(sx: Syntax, config: map<string, string>, keys: seq<ConfigKey>, visited: seq<string>)
    : Option<ConfigError>
    requires forall i :: 0 <= i < |visited| ==> visited[i] in config
  {
    if visited == [] then None
    else
      var n := |visited| - 1;
      var before := WalkProblem(sx, config, keys, visited[..n]);
      if before.Some? then before else KeyProblem(sx, keys, visited[n], config[visited[n]])
  }

  /** The first declared key that is required and neither configured nor defaulted. */
  function MissingProblem(config: map<string, string>, keys: seq<ConfigKey>): Option<ConfigError> {
    if keys == [] then None
    else
      var n := |keys| - 1;
      var before := MissingProblem(config, keys[..n]);
      if before.Some? || Provided(config, keys[n]) then before else Some(MissingRequired(keys[n].name))
  }

  ghost function FirstProblem(sx: Syntax, config: map<string, string>, keys: seq<ConfigKey>, visited: seq<string>)
    : Option<ConfigError>
    requires IsWalk(visited, config)
  {
    WalkStaysInside(config, visited);
    var onWalk := WalkProblem(sx, config, keys, visited);
    if onWalk.Some? then onWalk else MissingProblem(config, keys)
  }

  lemma WalkStaysInside(config: map<string, string>, visited: seq<string>)
    requires IsWalk(visited, config)
    ensures forall i :: 0 <= i < |visited| ==> visited[i] in config
    ensures forall name :: name in config ==> exists i :: 0 <= i < |visited| && visited[i] == name
  {
    forall i | 0 <= i < |visited|
      ensures visited[i] in config
    {
      assert visited[i] in Elements(visited);
    }
    forall name | name in config
      ensures exists i :: 0 <= i < |visited| && visited[i] == name
    {
      assert name in Elements(visited);
    }
  }

  lemma {:induction false} WalkProblemDecides(sx: Syntax, config: map<string, string>, keys: seq<ConfigKey>,
                                              visited: seq<string>)
    requires forall i :: 0 <= i < |visited| ==> visited[i] in config
    ensures var p := WalkProblem(sx, config, keys, visited);
            && (p.None? <==> forall i :: 0 <= i < |visited| ==> !BadKey(sx, config, keys, visited[i]))
            && (p.Some? ==> exists i ::
                  && 0 <= i < |visited| && BadKey(sx, config, keys, visited[i])
                  && p == KeyProblem(sx, keys, visited[i], config[visited[i]]))
  {
    hide KeyProblem;
    if visited != [] {
      WalkProblemDecides(sx, config, keys, visited[..|visited| - 1]);
    }
  }

  lemma {:induction false} MissingProblemDecides(config: map<string, string>, keys: seq<ConfigKey>)
    ensures var p := MissingProblem(config, keys);
            && (p.None? <==> forall i :: 0 <= i < |keys| ==> Provided(config, keys[i]))
            && (p.Some? ==> exists i ::
                  0 <= i < |keys| && !Provided(config, keys[i]) && p.value == MissingRequired(keys[i].name))
  {
    if keys != [] {
      MissingProblemDecides(config, keys[..|keys| - 1]);
    }
  }

  lemma BadKeyViolates(sx: Syntax, config: map<string, string>, keys: seq<ConfigKey>, name: string)
    requires name in config
    ensures BadKey(sx, config, keys, name) <==>
            !(KeyNamed(keys, name).Some? && Fits(sx, KeyNamed(keys, name).value, config[name]))
    ensures BadKey(sx, config, keys, name) ==>
              Violates(sx, config, keys, KeyProblem(sx, keys, name, config[name]).value)
  {
  }

  /** On every walk: no problem is reported exactly for a valid configuration, and a reported one is real. */
  lemma FirstProblemDecides(sx: Syntax, config: map<string, string>, keys: seq<ConfigKey>, visited: seq<string>)
    requires IsWalk(visited, config)
    ensures var p := FirstProblem(sx, config, keys, visited);
            && (p.None? <==> ValidConfig(sx, config, keys))
            && (p.Some? ==> Violates(sx, config, keys, p.value))
  {
    hide KeyProblem, Fits, Provided, IsWalk, KeyNamed;
    WalkStaysInside(config, visited);
    WalkProblemDecides(sx, config, keys, visited);
    MissingProblemDecides(config, keys);
    forall name | name in config
      ensures BadKey(sx, config, keys, name) <==>
              !(KeyNamed(keys, name).Some? && Fits(sx, KeyNamed(keys, name).value, config[name]))
      ensures BadKey(sx, config, keys, name) ==>
                Violates(sx, config, keys, KeyProblem(sx, keys, name, config[name]).value)
    {
      BadKeyViolates(sx, config, keys, name);
    }
  }

  /** keys[i] is the first required key that is neither configured nor defaulted. */
  predicate FirstMissed(config: map<string, string>, keys: seq<ConfigKey>, i: int) {
    0 <= i < |keys| && !Provided(config, keys[i]) && forall j :: 0 <= j < i ==> Provided(config, keys[j])
  }

  /** Which problem a walk reports: that of the first bad key it meets, all earlier ones being good; if it meets none,
      the first required key, in template order, that is neither configured nor defaulted. */
  lemma EarliestIsReported(sx: Syntax, config: map<string, string>, keys: seq<ConfigKey>, visited: seq<string>)
    requires IsWalk(visited, config) && FirstProblem(sx, config, keys, visited).Some?
    ensures var e := FirstProblem(sx, config, keys, visited).value;
            if e.MissingRequired? then
              && (forall j :: 0 <= j < |visited| ==> !BadKey(sx, config, keys, visited[j]))
              && exists i :: FirstMissed(config, keys, i) && keys[i].name == e.key
            else
              exists i :: && 0 <= i < |visited| && visited[i] == e.key && BadKey(sx, config, keys, e.key)
                          && forall j :: 0 <= j < i ==> !BadKey(sx, config, keys, visited[j])
  {
    hide KeyProblem, KeyNamed, IsWalk;
    WalkStaysInside(config, visited);
    FirstOnWalk(sx, config, keys, visited);
    FirstMissingKey(config, keys);
    WalkProblemDecides(sx, config, keys, visited);
  }

  lemma {:induction false} FirstOnWalk(sx: Syntax, config: map<string, string>, keys: seq<ConfigKey>,
                                       visited: seq<string>)
    requires forall i :: 0 <= i < |visited| ==> visited[i] in config
    ensures var p := WalkProblem(sx, config, keys, visited);
            p.Some? ==>
              && !p.value.MissingRequired?
              && exists i :: && 0 <= i < |visited| && visited[i] == p.value.key && BadKey(sx, config, keys, p.value.key)
                             && forall j :: 0 <= j < i ==> !BadKey(sx, config, keys, visited[j])
  {
    hide KeyProblem, BadKey;
    if visited != [] {
      var n := |visited| - 1;
      FirstOnWalk(sx, config, keys, visited[..n]);
      WalkProblemDecides(sx, config, keys, visited[..n]);
      ProblemNamesKey(sx, config, keys, visited[n]);
    }
  }

  lemma ProblemNamesKey(sx: Syntax, config: map<string, string>, keys: seq<ConfigKey>, name: string)
    requires name in config
    ensures var p := KeyProblem(sx, keys, name, config[name]);
            p.Some? ==> BadKey(sx, config, keys, name) && p.value.key == name && !p.value.MissingRequired?
  {
  }

  lemma {:induction false} FirstMissingKey(config: map<string, string>, keys: seq<ConfigKey>)
    ensures var p := MissingProblem(config, keys);
            p.Some? ==>
              p.value.MissingRequired? && exists i :: FirstMissed(config, keys, i) && keys[i].name == p.value.key
  {
    hide Provided;
    if keys != [] {
      var n := |keys| - 1;
      FirstMissingKey(config, keys[..n]);
      MissingProblemDecides(config, keys[..n]);
      if MissingProblem(config, keys[..n]).Some? {
        var i :| FirstMissed(config, keys[..n], i) && keys[..n][i].name == MissingProblem(config, keys).value.key;
        assert FirstMissed(config, keys, i);
      } else if !Provided(config, keys[n]) {
        assert FirstMissed(config, keys, n);
      }
    }
  }

  method CheckKey(sx: Syntax, byName: map<string, ConfigKey>, ghost keys: seq<ConfigKey>, name: string, v: string)
    returns (err: Option<ConfigError>)
    requires Indexes(byName, keys)
    ensures err == KeyProblem(sx, keys, name, v)
  {
    hide KeyNamed;
    if name !in byName {
      return Some(UnknownKey(name));
    }
    var key := byName[name];
    assert KeyNamed(keys, name) == Some(key);
    match key.kind {
      case UnsetType =>
      case StringType =>
      case IntType =>
        if !sx.isInt(v) { return Some(NotAnInt(name)); }
      case BoolType =>
        if !sx.isBool(v) { return Some(NotABool(name)); }
      case EnumType =>
        if v !in key.choices { return Some(NotInEnum(name)); }
    }
    err := None;
  }

  method CheckRequired(config: map<string, string>, keys: seq<ConfigKey>) returns (err: Option<ConfigError>)
    ensures err == MissingProblem(config, keys)
  {
    for i := 0 to |keys|
      invariant MissingProblem(config, keys[..i]) == None
    {
      var key := keys[i];
      assert keys[..i + 1][..i] == keys[..i];
      if !key.required {
        continue;
      }
      if key.name in config {
        continue;
      }
      if key.default != "" {
        continue;
      }
      FirstMissing(config, keys, i);
      return Some(MissingRequired(key.name));
    }
    assert keys[..|keys|] == keys;
    err := None;
  }

  /** Checks the configured keys in the order the map happens to be visited, then the required ones. */
  method ValidateConfig(sx: Syntax, config: map<string, string>, keys: seq<ConfigKey>, visited: seq<string>)
    returns (err: Option<ConfigError>)
    requires IsWalk(visited, config)
    ensures err == FirstProblem(sx, config, keys, visited)
    ensures err.None? <==> ValidConfig(sx, config, keys)
    ensures err.Some? ==> Violates(sx, config, keys, err.value)
  {
    hide IsWalk, ValidConfig, Violates, KeyProblem, MissingProblem;
    FirstProblemDecides(sx, config, keys, visited);
    WalkStaysInside(config, visited);
    var byName := IndexKeys(keys);
    for i := 0 to |visited|
      invariant WalkProblem(sx, config, keys, visited[..i]) == None
    {
      assert visited[..i + 1][..i] == visited[..i];
      err := CheckKey(sx, byName, keys, visited[i], config[visited[i]]);
      if err.Some? {
        WalkEnds(sx, config, keys, visited, i);
        return;
      }
    }
    assert visited[..|visited|] == visited;
    err := CheckRequired(config, keys);
  }

  lemma {:induction false} WalkEnds(sx: Syntax, config: map<string, string>, keys: seq<ConfigKey>,
                                    visited: seq<string>, i: nat)
    requires forall j :: 0 <= j < |visited| ==> visited[j] in config
    requires i < |visited| && WalkProblem(sx, config, keys, visited[..i + 1]).Some?
    ensures WalkProblem(sx, config, keys, visited) == WalkProblem(sx, config, keys, visited[..i + 1])
  {
    hide KeyProblem;
    var n := |visited| - 1;
    if i < n {
      assert visited[..n][..i + 1] == visited[..i + 1];
      WalkEnds(sx, config, keys, visited[..n], i);
    } else {
      assert visited[..i + 1] == visited;
    }
  }

  lemma {:induction false} FirstMissing(config: map<string, string>, keys: seq<ConfigKey>, i: nat)
    requires i < |keys| && MissingProblem(config, keys[..i + 1]).Some?
    ensures MissingProblem(config, keys) == MissingProblem(config, keys[..i + 1])
  {
    var n := |keys| - 1;
    if i < n {
      assert keys[..n][..i + 1] == keys[..i + 1];
      FirstMissing(config, keys[..n], i);
    } else {
      assert keys[..i + 1] == keys;
    }
  }

  // ---------------------------------------------------------------------------------------------
  // When every walk reports the same
  // ---------------------------------------------------------------------------------------------

  ghost predicate AtMostOneBadKey(sx: Syntax, config: map<string, string>, keys: seq<ConfigKey>) {
    forall x, y :: BadKey(sx, config, keys, x) && BadKey(sx, config, keys, y) ==> x == y
  }

  lemma {:induction false} HeadIsMetFirst(sx: Syntax, config: map<string, string>, keys: seq<ConfigKey>,
                                          visited: seq<string>)
    requires forall i :: 0 <= i < |visited| ==> visited[i] in config
    requires visited != [] && BadKey(sx, config, keys, visited[0])
    ensures WalkProblem(sx, config, keys, visited) == KeyProblem(sx, keys, visited[0], config[visited[0]])
  {
    hide KeyProblem;
    var n := |visited| - 1;
    if n > 0 {
      HeadIsMetFirst(sx, config, keys, visited[..n]);
    } else {
      assert visited[..0] == [];
    }
  }

  lemma {:induction false} WalkExists(names: set<string>)
    ensures exists visited: seq<string> :: Distinct(visited) && Elements(visited) == names
  {
    if names == {} {
      assert Distinct<string>([]) && Elements<string>([]) == names;
    } else {
      var x :| x in names;
      WalkExists(names - {x});
      var rest: seq<string> :| Distinct(rest) && Elements(rest) == names - {x};
      assert x !in Elements(rest);
      assert Elements([x] + rest) == {x} + Elements(rest);
      assert Distinct([x] + rest) && Elements([x] + rest) == names;
    }
  }

  /** Some walk meets a given bad key first and reports it. */
  lemma ReportedFirst(sx: Syntax, config: map<string, string>, keys: seq<ConfigKey>, name: string)
    returns (visited: seq<string>)
    requires BadKey(sx, config, keys, name)
    ensures IsWalk(visited, config)
    ensures var p := FirstProblem(sx, config, keys, visited);
            p.Some? && !p.value.MissingRequired? && p.value.key == name
  {
    WalkExists(config.Keys - {name});
    var rest: seq<string> :| Distinct(rest) && Elements(rest) == config.Keys - {name};
    visited := [name] + rest;
    assert name !in Elements(rest);
    assert Elements(visited) == {name} + Elements(rest);
    WalkStaysInside(config, visited);
    HeadIsMetFirst(sx, config, keys, visited);
  }

  /** All walks over the configuration report the same exactly when at most one of its keys is bad. */
  lemma OneReportIff(sx: Syntax, config: map<string, string>, keys: seq<ConfigKey>)
    ensures (forall v, w :: IsWalk(v, config) && IsWalk(w, config) ==>
               FirstProblem(sx, config, keys, v) == FirstProblem(sx, config, keys, w))
            <==> AtMostOneBadKey(sx, config, keys)
  {
    hide KeyProblem, IsWalk;
    if AtMostOneBadKey(sx, config, keys) {
      forall v, w | IsWalk(v, config) && IsWalk(w, config)
        ensures FirstProblem(sx, config, keys, v) == FirstProblem(sx, config, keys, w)
      {
        WalkStaysInside(config, v);
        WalkStaysInside(config, w);
        WalkProblemDecides(sx, config, keys, v);
        WalkProblemDecides(sx, config, keys, w);
      }
    } else {
      var x, y :| BadKey(sx, config, keys, x) && BadKey(sx, config, keys, y) && x != y;
      var v := ReportedFirst(sx, config, keys, x);
      var w := ReportedFirst(sx, config, keys, y);
    }
  }
}
