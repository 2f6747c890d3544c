/** The game container's environment: an ordered last-wins merge of four sources, and what it gives every
    configuration key of an admitted template. */
module PodEnv {
  import opened Prelude
  import opened GameTypes
  import opened Sorting
  import opened Config
  import opened Admission

  // ---------------------------------------------------------------------------------------------
  // Ordered last-wins merge
  // ---------------------------------------------------------------------------------------------

  /** The last variable of a name. */
  function LastWith(env: seq<EnvVar>, name: string): (e: Option<EnvVar>)
    ensures e.Some? ==> e.value in env && e.value.name == name
    ensures e.None? <==> forall i :: 0 <= i < |env| ==> env[i].name != name
  {
    if env == [] then None
    else
      var last := env[|env| - 1];
      if last.name == name then Some(last) else LastWith(env[..|env| - 1], name)
  }

  /** Position of the first variable of a name, or the length of the list. */
  function FirstWith(env: seq<EnvVar>, name: string): (i: nat)
    ensures i <= |env|
    ensures forall j :: 0 <= j < i ==> env[j].name != name
    ensures i < |env| ==> env[i].name == name
  {
    if env == [] || env[0].name == name then 0 else 1 + FirstWith(env[1..], name)
  }

  predicate LastWins(all: seq<EnvVar>, env: seq<EnvVar>) {
    forall i :: 0 <= i < |env| ==> LastWith(all, env[i].name) == Some(env[i])
  }

  predicate InFirstOrder(all: seq<EnvVar>, env: seq<EnvVar>) {
    forall i, j :: 0 <= i < j < |env| ==> FirstWith(all, env[i].name) < FirstWith(all, env[j].name)
  }

  predicate HasName(env: seq<EnvVar>, name: string) {
    exists i :: 0 <= i < |env| && env[i].name == name
  }

  predicate Covers(all: seq<EnvVar>, env: seq<EnvVar>) {
    forall k :: 0 <= k < |all| ==> HasName(env, all[k].name)
  }

  /** Each name once, in order of first occurrence, with the variable that occurs last. */
  predicate IsMerge(all: seq<EnvVar>, env: seq<EnvVar>) {
    LastWins(all, env) && InFirstOrder(all, env) && Covers(all, env)
  }

  function Add(env: seq<EnvVar>, e: EnvVar): seq<EnvVar> {
    var i := FirstWith(env, e.name);
    if i < |env| then env[i := e] else env + [e]
  }

  function Merge(all: seq<EnvVar>): seq<EnvVar> {
    if all == [] then [] else Add(Merge(all[..|all| - 1]), all[|all| - 1])
  }

  lemma FirstWithGrows(all: seq<EnvVar>, e: EnvVar, name: string)
    ensures FirstWith(all + [e], name) ==
            if FirstWith(all, name) < |all| then FirstWith(all, name)
            else if e.name == name then |all| else |all| + 1
  {
    var more := all + [e];
    assert more[|all|] == e;
    assert forall j :: 0 <= j < |all| ==> more[j] == all[j];
  }

  lemma {:induction false} MergeIsAMerge(all: seq<EnvVar>)
    ensures IsMerge(all, Merge(all))
  {
    if all != [] {
      var n := |all| - 1;
      var before, e := all[..n], all[n];
      MergeIsAMerge(before);
      assert all == before + [e];
      AddKeepsMerge(before, Merge(before), e);
    }
  }

  /** The entries after adding e, as seen from the extended list. */
  lemma AddedEntry(all: seq<EnvVar>, env: seq<EnvVar>, e: EnvVar, i: nat)
    requires IsMerge(all, env) && i < |Add(env, e)|
    ensures LastWith(all + [e], Add(env, e)[i].name) == Some(Add(env, e)[i])
    ensures FirstWith(all + [e], Add(env, e)[i].name) == if i < |env| then FirstWith(all, env[i].name) else |all|
    ensures i < |env| ==> FirstWith(all, env[i].name) < |all| && Add(env, e)[i].name == env[i].name
  {
    hide LastWith;
    var x := Add(env, e)[i];
    var at := FirstWith(env, e.name);
    LastWithGrows(all, e, x.name);
    FirstWithGrows(all, e, x.name);
    if i < |env| {
      OccursInAll(all, env, i);
      if i != at && env[i].name == e.name {
        MergedNamesDiffer(all, env, i, at);
      }
    } else {
      NewNameIsNew(all, env, e.name);
    }
  }

  lemma AddKeepsNames(env: seq<EnvVar>, e: EnvVar, name: string)
    requires name == e.name || HasName(env, name)
    ensures HasName(Add(env, e), name)
  {
    var at := FirstWith(env, e.name);
    if name == e.name {
      assert Add(env, e)[at].name == name;
    } else {
      var i :| 0 <= i < |env| && env[i].name == name;
      assert Add(env, e)[i].name == name;
    }
  }

  lemma AddKeepsMerge(all: seq<EnvVar>, env: seq<EnvVar>, e: EnvVar)
    requires IsMerge(all, env)
    ensures IsMerge(all + [e], Add(env, e))
  {
    hide FirstWith, LastWith, Add, HasName;
    var more, after := all + [e], Add(env, e);
    assert |env| <= |after| <= |env| + 1 by { AddedLength(env, e); }
    forall i | 0 <= i < |after|
      ensures LastWith(more, after[i].name) == Some(after[i])
      ensures FirstWith(more, after[i].name) == if i < |env| then FirstWith(all, env[i].name) else |all|
      ensures i < |env| ==> FirstWith(all, env[i].name) < |all|
    {
      AddedEntry(all, env, e, i);
    }
    assert LastWins(more, after);
    assert InFirstOrder(more, after);
    forall k | 0 <= k < |more|
      ensures HasName(after, more[k].name)
    {
      if k < |all| { assert more[k] == all[k]; }
      AddKeepsNames(env, e, more[k].name);
    }
    assert Covers(more, after);
  }

  lemma AddedLength(env: seq<EnvVar>, e: EnvVar)
    ensures |env| <= |Add(env, e)| <= |env| + 1
  {
  }

  lemma LastWithGrows(all: seq<EnvVar>, e: EnvVar, name: string)
    ensures LastWith(all + [e], name) == if e.name == name then Some(e) else LastWith(all, name)
  {
    assert (all + [e])[..|all|] == all;
  }

  lemma MergedNamesDiffer(all: seq<EnvVar>, env: seq<EnvVar>, i: nat, j: nat)
    requires IsMerge(all, env) && i < |env| && j < |env| && env[i].name == env[j].name
    ensures i == j
  {
  }

  lemma OccursInAll(all: seq<EnvVar>, env: seq<EnvVar>, i: nat)
    requires IsMerge(all, env) && i < |env|
    ensures FirstWith(all, env[i].name) < |all|
  {
    assert LastWith(all, env[i].name).Some?;
  }

  lemma NewNameIsNew(all: seq<EnvVar>, env: seq<EnvVar>, name: string)
    requires Covers(all, env) && FirstWith(env, name) == |env|
    ensures FirstWith(all, name) == |all|
  {
    assert forall k :: 0 <= k < |all| ==> all[k].name != name;
  }

  /** The description of a merge leaves nothing open. */
  lemma {:induction false} MergeIsUnique(all: seq<EnvVar>, a: seq<EnvVar>, b: seq<EnvVar>)
    requires IsMerge(all, a) && IsMerge(all, b)
    ensures a == b
  {
    hide FirstWith, LastWith;
    var fa := seq(|a|, i requires 0 <= i < |a| => FirstWith(all, a[i].name));
    var fb := seq(|b|, i requires 0 <= i < |b| => FirstWith(all, b[i].name));
    FirstsAgree(all, a, b, fa, fb);
    FirstsAgree(all, b, a, fb, fa);
    IncreasingIsUnique(fa, fb);
    forall i | 0 <= i < |a|
      ensures a[i] == b[i]
    {
      OccursInAll(all, a, i);
      OccursInAll(all, b, i);
      assert fa[i] == fb[i];
      assert a[i].name == all[fa[i]].name == b[i].name;
    }
  }

  lemma FirstsAgree(all: seq<EnvVar>, a: seq<EnvVar>, b: seq<EnvVar>, fa: seq<int>, fb: seq<int>)
    requires IsMerge(all, a) && IsMerge(all, b)
    requires |fa| == |a| && forall i :: 0 <= i < |a| ==> fa[i] == FirstWith(all, a[i].name)
    requires |fb| == |b| && forall i :: 0 <= i < |b| ==> fb[i] == FirstWith(all, b[i].name)
    ensures forall x :: x in fa ==> x in fb
  {
    hide FirstWith, LastWith;
    forall i | 0 <= i < |a|
      ensures fa[i] in fb
    {
      OccursInAll(all, a, i);
      assert HasName(b, all[fa[i]].name);
      var j :| 0 <= j < |b| && b[j].name == all[fa[i]].name;
      assert fb[j] == fa[i];
    }
  }

  lemma {:induction false} IncreasingIsUnique(xs: seq<int>, ys: seq<int>)
    requires forall i, j :: 0 <= i < j < |xs| ==> xs[i] < xs[j]
    requires forall i, j :: 0 <= i < j < |ys| ==> ys[i] < ys[j]
    requires forall x :: x in xs <==> x in ys
    ensures xs == ys
  {
    if xs == [] {
      assert forall i :: 0 <= i < |ys| ==> ys[i] in ys;
    } else {
      assert xs[0] in ys && ys[0] in xs;
      assert xs[0] == ys[0];
      assert forall x :: x in xs[1..] <==> x in xs && x != xs[0];
      assert forall x :: x in ys[1..] <==> x in ys && x != ys[0];
      IncreasingIsUnique(xs[1..], ys[1..]);
    }
  }

  // ---------------------------------------------------------------------------------------------
  // The four sources
  // ---------------------------------------------------------------------------------------------

  function DefaultFor(k: ConfigKey): seq<EnvVar> {
    if k.default == "" then [] else [EnvVar(k.envVar, k.default, None)]
  }

  function Defaults(keys: seq<ConfigKey>): seq<EnvVar> {
    if keys == [] then [] else Defaults(keys[..|keys| - 1]) + DefaultFor(keys[|keys| - 1])
  }

  /** Variables of the configured keys the template knows, for the given key names in turn. */
  function Configured(names: seq<string>, keys: seq<ConfigKey>, config: map<string, string>): seq<EnvVar>
    requires forall i :: 0 <= i < |names| ==> names[i] in config
  {
    if names == [] then []
    else
      var name := names[|names| - 1];
      var k := KeyNamed(keys, name);
      Configured(names[..|names| - 1], keys, config)
      + if k.None? then [] else [EnvVar(k.value.envVar, config[name], None)]
  }

  /** Everything that may set a variable, weakest first. */
  ghost function Sources(tpl: TemplateSpec, spec: ServerSpec): seq<EnvVar> {
    var names := InOrder(spec.config.Keys);
    assert forall i :: 0 <= i < |names| ==> names[i] in Elements(names);
    tpl.env + Defaults(tpl.configKeys) + Configured(names, tpl.configKeys, spec.config) + spec.envOverride
  }

  ghost function ResolvedEnv(tpl: TemplateSpec, spec: ServerSpec): seq<EnvVar> {
    Merge(Sources(tpl, spec))
  }

  /** The builder's two locals hold a merge. */
  predicate Holds(byName: map<string, EnvVar>, order: seq<string>, env: seq<EnvVar>) {
    && |order| == |env| && Distinct(order)
    && byName.Keys == Elements(order)
    && forall i :: 0 <= i < |env| ==> order[i] == env[i].name && order[i] in byName && byName[order[i]] == env[i]
  }

  class EnvBuilder {
    var byName: map<string, EnvVar>
    var order: seq<string>

    constructor ()
      ensures Holds(byName, order, [])
    {
      byName := map[];
      order := [];
    }

    method Put(e: EnvVar, ghost all: seq<EnvVar>)
      requires Holds(byName, order, Merge(all))
      modifies this
      ensures Holds(byName, order, Merge(all + [e]))
    {
      ghost var env := Merge(all);
      ghost var at := FirstWith(env, e.name);
      assert (all + [e])[..|all|] == all;
      if e.name !in byName {
        assert forall i :: 0 <= i < |env| ==> env[i].name in byName;
        assert at == |env|;
        assert Elements(order + [e.name]) == Elements(order) + {e.name};
        order := order + [e.name];
      } else {
        var i :| 0 <= i < |order| && order[i] == e.name;
        assert at < |env|;
      }
      byName := byName[e.name := e];
    }

    method PutAll(env: seq<EnvVar>, ghost all: seq<EnvVar>)
      requires Holds(byName, order, Merge(all))
      modifies this
      ensures Holds(byName, order, Merge(all + env))
    {
      hide Merge, Holds;
      assert all + env[..0] == all;
      for i := 0 to |env|
        invariant Holds(byName, order, Merge(all + env[..i]))
      {
        Put(env[i], all + env[..i]);
        assert all + env[..i] + [env[i]] == all + env[..i + 1];
      }
      assert env[..|env|] == env;
    }

    method PutDefaults(keys: seq<ConfigKey>, ghost all: seq<EnvVar>)
      requires Holds(byName, order, Merge(all))
      modifies this
      ensures Holds(byName, order, Merge(all + Defaults(keys)))
    {
      hide Merge, Holds;
      assert all + Defaults([]) == all;
      for i := 0 to |keys|
        invariant Holds(byName, order, Merge(all + Defaults(keys[..i])))
      {
        var key := keys[i];
        ghost var before := all + Defaults(keys[..i]);
        assert keys[..i + 1][..i] == keys[..i];
        assert all + Defaults(keys[..i + 1]) == before + DefaultFor(key);
        if key.default == "" {
          assert before + DefaultFor(key) == before;
          continue;
        }
        Put(EnvVar(key.envVar, key.default, None), before);
      }
      assert keys[..|keys|] == keys;
    }

    method PutConfigured(names: seq<string>, keys: seq<ConfigKey>, config: map<string, string>, ghost all: seq<EnvVar>)
      requires Holds(byName, order, Merge(all))
      requires forall i :: 0 <= i < |names| ==> names[i] in config
      modifies this
      ensures Holds(byName, order, Merge(all + Configured(names, keys, config)))
    {
      hide Merge, Holds, KeyNamed;
      var byConfigName := IndexKeys(keys);
      assert all + Configured([], keys, config) == all;
      for i := 0 to |names|
        invariant Holds(byName, order, Merge(all + Configured(names[..i], keys, config)))
      {
        ghost var before := all + Configured(names[..i], keys, config);
        assert names[..i + 1][..i] == names[..i];
        if names[i] !in byConfigName {
          assert all + Configured(names[..i + 1], keys, config) == before;
          continue;
        }
        var e := EnvVar(byConfigName[names[i]].envVar, config[names[i]], None);
        Put(e, before);
        assert all + Configured(names[..i + 1], keys, config) == before + [e];
      }
      assert names[..|names|] == names;
    }

    method Emit(ghost all: seq<EnvVar>) returns (env: seq<EnvVar>)
      requires Holds(byName, order, Merge(all))
      ensures env == Merge(all)
    {
      env := [];
      for i := 0 to |order|
        invariant env == Merge(all)[..i]
      {
        env := env + [byName[order[i]]];
      }
    }
  }

  /** The builder; `visited` is the order in which the configuration map happens to be walked. */
  method ResolveEnv(tpl: TemplateSpec, spec: ServerSpec, visited: seq<string>) returns (env: seq<EnvVar>)
    requires Distinct(visited) && Elements(visited) == spec.config.Keys
    ensures env == ResolvedEnv(tpl, spec)
  {
    hide Merge, Sort, Holds, Defaults, Configured;
    var b := new EnvBuilder();
    MergeOfNothing();
    b.PutAll(tpl.env, []);
    ghost var all := tpl.env;
    assert [] + tpl.env == tpl.env;
    b.PutDefaults(tpl.configKeys, all);
    all := all + Defaults(tpl.configKeys);
    var names := Sort(visited);
    SortForgetsVisitOrder(visited, spec.config.Keys);
    assert forall i :: 0 <= i < |names| ==> names[i] in Elements(names);
    b.PutConfigured(names, tpl.configKeys, spec.config, all);
    all := all + Configured(names, tpl.configKeys, spec.config);
    b.PutAll(spec.envOverride, all);
    all := all + spec.envOverride;
    env := b.Emit(all);
  }

  lemma MergeOfNothing()
    ensures Merge([]) == []
  {
  }

  /** The resolved environment is the ordered last-wins merge of its sources, and nothing else is. */
  lemma ResolvedEnvIsTheMerge(tpl: TemplateSpec, spec: ServerSpec, env: seq<EnvVar>)
    ensures IsMerge(Sources(tpl, spec), env) <==> env == ResolvedEnv(tpl, spec)
  {
    MergeIsAMerge(Sources(tpl, spec));
    if IsMerge(Sources(tpl, spec), env) {
      MergeIsUnique(Sources(tpl, spec), env, ResolvedEnv(tpl, spec));
    }
  }

  // ---------------------------------------------------------------------------------------------
  // Typed configuration reaches the pod
  // ---------------------------------------------------------------------------------------------

  lemma {:induction false} LastWithConcat(a: seq<EnvVar>, b: seq<EnvVar>, name: string)
    ensures LastWith(a + b, name) == if LastWith(b, name).Some? then LastWith(b, name) else LastWith(a, name)
  {
    if b == [] {
      assert a + b == a;
    } else {
      var n := |b| - 1;
      assert (a + b)[..|a| + n] == a + b[..n];
      LastWithConcat(a, b[..n], name);
    }
  }

  lemma LastOfDefault(k: ConfigKey, v: string)
    ensures LastWith(DefaultFor(k), v) ==
            if k.default != "" && k.envVar == v then Some(EnvVar(v, k.default, None)) else None
  {
  }

  lemma {:induction false} NoDefaultOf(keys: seq<ConfigKey>, v: string)
    requires forall j :: 0 <= j < |keys| ==> keys[j].envVar != v
    ensures LastWith(Defaults(keys), v) == None
  {
    hide LastWith, DefaultFor;
    if keys == [] {
      assert LastWith([], v).None?;
    } else {
      var n := |keys| - 1;
      NoDefaultOf(keys[..n], v);
      LastOfDefault(keys[n], v);
      LastWithConcat(Defaults(keys[..n]), DefaultFor(keys[n]), v);
    }
  }

  lemma {:induction false} DefaultOf(keys: seq<ConfigKey>, i: nat)
    requires i < |keys| && Distinct(EnvVars(keys))
    ensures LastWith(Defaults(keys), keys[i].envVar) ==
            if keys[i].default == "" then None else Some(EnvVar(keys[i].envVar, keys[i].default, None))
  {
    hide LastWith, DefaultFor;
    var n := |keys| - 1;
    var before, v := keys[..n], keys[i].envVar;
    assert forall j :: 0 <= j < |keys| ==> EnvVars(keys)[j] == keys[j].envVar;
    assert forall j :: 0 <= j < n ==> EnvVars(before)[j] == EnvVars(keys)[j];
    LastWithConcat(Defaults(before), DefaultFor(keys[n]), v);
    LastOfDefault(keys[n], v);
    if i < n {
      DefaultOf(before, i);
      assert EnvVars(keys)[i] != EnvVars(keys)[n];
    } else {
      assert forall j :: 0 <= j < n ==> EnvVars(keys)[j] != EnvVars(keys)[n];
      NoDefaultOf(before, v);
    }
  }

  /** With unique key names, the key a name stands for is the one declared under it. */
  lemma {:induction false} KeyNamedIsDeclared(keys: seq<ConfigKey>, i: nat)
    requires i < |keys| && Distinct(KeyNames(keys))
    ensures KeyNamed(keys, keys[i].name) == Some(keys[i])
  {
    var n := |keys| - 1;
    assert forall j :: 0 <= j < n ==> KeyNames(keys[..n])[j] == KeyNames(keys)[j];
    if i < n {
      assert KeyNames(keys)[i] != KeyNames(keys)[n];
      KeyNamedIsDeclared(keys[..n], i);
    }
  }

  lemma {:induction false} ConfiguredValueOf(names: seq<string>, keys: seq<ConfigKey>, config: map<string, string>,
                                             i: nat)
    requires forall j :: 0 <= j < |names| ==> names[j] in config
    requires i < |keys| && Distinct(KeyNames(keys)) && Distinct(EnvVars(keys))
    ensures LastWith(Configured(names, keys, config), keys[i].envVar) ==
            if keys[i].name in names then Some(EnvVar(keys[i].envVar, config[keys[i].name], None)) else None
  {
    if names != [] {
      var n := |names| - 1;
      var k := KeyNamed(keys, names[n]);
      assert names == names[..n] + [names[n]];
      ConfiguredValueOf(names[..n], keys, config, i);
      KeyNamedIsDeclared(keys, i);
      LastWithConcat(Configured(names[..n], keys, config),
                     if k.None? then [] else [EnvVar(k.value.envVar, config[names[n]], None)], keys[i].envVar);
      if k.Some? && k.value.envVar == keys[i].envVar {
        var j :| 0 <= j < |keys| && keys[j] == k.value;
        assert EnvVars(keys)[j] == EnvVars(keys)[i];
        assert j == i;
      }
    }
  }

  function Find(env: seq<EnvVar>, name: string): Option<EnvVar> {
    var i := FirstWith(env, name);
    if i < |env| then Some(env[i]) else None
  }

  lemma FindIsLast(tpl: TemplateSpec, spec: ServerSpec, name: string)
    ensures Find(ResolvedEnv(tpl, spec), name) == LastWith(Sources(tpl, spec), name)
  {
    var all := Sources(tpl, spec);
    var env := Merge(all);
    MergeIsAMerge(all);
    var f, g := FirstWith(all, name), FirstWith(env, name);
    if g < |env| {
      assert LastWith(all, env[g].name) == Some(env[g]);
    } else {
      NewNameIsNew(all, env, name);
      assert forall i :: 0 <= i < |all| ==> all[i].name != name;
    }
  }

  /** What the pod sees for each key of an admitted template: an override, else the configured value, else the
      default, else whatever the template's own environment says. */
  lemma KeyResolution(tpl: TemplateSpec, spec: ServerSpec, i: nat)
    requires Admissible(tpl) && i < |tpl.configKeys|
    ensures var k := tpl.configKeys[i];
            Find(ResolvedEnv(tpl, spec), k.envVar) ==
            if LastWith(spec.envOverride, k.envVar).Some? then LastWith(spec.envOverride, k.envVar)
            else if k.name in spec.config then Some(EnvVar(k.envVar, spec.config[k.name], None))
            else if k.default != "" then Some(EnvVar(k.envVar, k.default, None))
            else LastWith(tpl.env, k.envVar)
  {
    hide LastWith, Find, Defaults, Configured, ResolvedEnv;
    var keys, k := tpl.configKeys, tpl.configKeys[i];
    var names := InOrder(spec.config.Keys);
    assert forall j :: 0 <= j < |names| ==> names[j] in Elements(names);
    assert k.name in spec.config <==> k.name in Elements(names);
    var configured := Configured(names, keys, spec.config);
    FindIsLast(tpl, spec, k.envVar);
    DefaultOf(keys, i);
    ConfiguredValueOf(names, keys, spec.config, i);
    LastWithConcat(tpl.env, Defaults(keys), k.envVar);
    LastWithConcat(tpl.env + Defaults(keys), configured, k.envVar);
    LastWithConcat(tpl.env + Defaults(keys) + configured, spec.envOverride, k.envVar);
  }

  /** A name no key stands for is set by an override, else by the template's own environment. */
  lemma OtherVariables(tpl: TemplateSpec, spec: ServerSpec, name: string)
    requires forall j :: 0 <= j < |tpl.configKeys| ==> tpl.configKeys[j].envVar != name
    ensures Find(ResolvedEnv(tpl, spec), name) ==
            if LastWith(spec.envOverride, name).Some? then LastWith(spec.envOverride, name) else LastWith(tpl.env, name)
  {
    hide LastWith, Find, Defaults, Configured, ResolvedEnv;
    var keys, names := tpl.configKeys, InOrder(spec.config.Keys);
    assert forall j :: 0 <= j < |names| ==> names[j] in Elements(names);
    var configured := Configured(names, keys, spec.config);
    FindIsLast(tpl, spec, name);
    NoDefaultOf(keys, name);
    NothingConfigured(names, keys, spec.config, name);
    LastWithConcat(tpl.env, Defaults(keys), name);
    LastWithConcat(tpl.env + Defaults(keys), configured, name);
    LastWithConcat(tpl.env + Defaults(keys) + configured, spec.envOverride, name);
  }

  lemma {:induction false} NothingConfigured(names: seq<string>, keys: seq<ConfigKey>, config: map<string, string>,
                                             v: string)
    requires forall j :: 0 <= j < |names| ==> names[j] in config
    requires forall j :: 0 <= j < |keys| ==> keys[j].envVar != v
    ensures LastWith(Configured(names, keys, config), v) == None
  {
    if names != [] {
      var n := |names| - 1;
      var k := KeyNamed(keys, names[n]);
      NothingConfigured(names[..n], keys, config, v);
      LastWithConcat(Configured(names[..n], keys, config),
                     if k.None? then [] else [EnvVar(k.value.envVar, config[names[n]], None)], v);
    }
  }

  // ---------------------------------------------------------------------------------------------
  // The sources, spelled out
  // ---------------------------------------------------------------------------------------------

  predicate Rising(xs: seq<int>) {
    forall i, j :: 0 <= i < j < |xs| ==> xs[i] < xs[j]
  }

  /** One variable for each key with a default, in template order. */
  predicate DefaultsAt(env: seq<EnvVar>, keys: seq<ConfigKey>, at: seq<int>) {
    && |at| == |env| && Rising(at)
    && (forall i :: 0 <= i < |at| ==>
          0 <= at[i] < |keys| && env[i] == EnvVar(keys[at[i]].envVar, keys[at[i]].default, None))
    && (forall j :: 0 <= j < |keys| ==> (j in at <==> keys[j].default != ""))
  }

  /** One variable for each configured key the template declares, in the order of the names. */
  ghost predicate ConfiguredAt(env: seq<EnvVar>, names: seq<string>, keys: seq<ConfigKey>, config: map<string, string>,
                               at: seq<int>) {
    && |at| == |env| && Rising(at)
    && (forall i :: 0 <= i < |at| ==> 0 <= at[i] < |names| && Configures(env[i], names[at[i]], keys, config))
    && (forall j :: 0 <= j < |names| ==> (j in at <==> exists m :: LastDeclared(keys, names[j], m)))
  }

  /** The variable the last declaration of a name asks for, with the configured value. */
  ghost predicate Configures(e: EnvVar, name: string, keys: seq<ConfigKey>, config: map<string, string>) {
    name in config && exists m :: LastDeclared(keys, name, m) && e == EnvVar(keys[m].envVar, config[name], None)
  }

  lemma {:induction false} DefaultsArePlaced(keys: seq<ConfigKey>) returns (at: seq<int>)
    ensures DefaultsAt(Defaults(keys), keys, at)
  {
    hide DefaultsAt;
    at := [];
    if keys == [] {
      NoDefaults();
    } else {
      var n := |keys| - 1;
      var before := DefaultsArePlaced(keys[..n]);
      at := if keys[n].default == "" then before else before + [n];
      DefaultsGrow(Defaults(keys[..n]), keys, before);
    }
  }

  lemma NoDefaults()
    ensures DefaultsAt([], [], [])
  {
  }

  lemma DefaultsGrow(env: seq<EnvVar>, keys: seq<ConfigKey>, at: seq<int>)
    requires keys != [] && DefaultsAt(env, keys[..|keys| - 1], at)
    ensures var n := |keys| - 1;
            DefaultsAt(env + DefaultFor(keys[n]), keys, if keys[n].default == "" then at else at + [n])
  {
    var n := |keys| - 1;
    forall j | 0 <= j < n
      ensures j in at <==> keys[j].default != ""
    {
      assert keys[..n][j] == keys[j];
    }
    assert n !in at;
    assert forall j :: j in at + [n] <==> j in at || j == n;
  }

  lemma {:induction false} ConfiguredArePlaced(names: seq<string>, keys: seq<ConfigKey>, config: map<string, string>)
      returns (at: seq<int>)
    requires forall i :: 0 <= i < |names| ==> names[i] in config
    ensures ConfiguredAt(Configured(names, keys, config), names, keys, config, at)
  {
    hide ConfiguredAt, LastDeclared, Configures;
    at := [];
    if names == [] {
      NothingPlaced(keys, config);
    } else {
      var n := |names| - 1;
      var before := ConfiguredArePlaced(names[..n], keys, config);
      var k := KeyNamed(keys, names[n]);
      at := if k.None? then before else before + [n];
      var more := if k.None? then [] else [EnvVar(k.value.envVar, config[names[n]], None)];
      ConfiguresIs(names[n], keys, config);
      ConfiguredGrow(Configured(names[..n], keys, config), more, names, keys, config, before);
    }
  }

  lemma NothingPlaced(keys: seq<ConfigKey>, config: map<string, string>)
    ensures ConfiguredAt([], [], keys, config, [])
  {
  }

  lemma ConfiguresIs(name: string, keys: seq<ConfigKey>, config: map<string, string>)
    requires name in config
    ensures var k := KeyNamed(keys, name);
            && (k.Some? <==> exists m :: LastDeclared(keys, name, m))
            && (k.Some? ==> Configures(EnvVar(k.value.envVar, config[name], None), name, keys, config))
  {
    hide KeyNamed;
    KeyNamedIsLast(keys, name);
  }

  lemma ConfiguredGrow(env: seq<EnvVar>, more: seq<EnvVar>, names: seq<string>, keys: seq<ConfigKey>,
                       config: map<string, string>, at: seq<int>)
    requires names != [] && ConfiguredAt(env, names[..|names| - 1], keys, config, at)
    requires var name := names[|names| - 1];
             if exists m :: LastDeclared(keys, name, m) then |more| == 1 && Configures(more[0], name, keys, config)
             else more == []
    ensures ConfiguredAt(env + more, names, keys, config, if more == [] then at else at + [|names| - 1])
  {
    hide LastDeclared, Configures;
    var n := |names| - 1;
    forall j | 0 <= j < n
      ensures j in at <==> exists m :: LastDeclared(keys, names[j], m)
    {
      assert names[..n][j] == names[j];
    }
    assert n !in at;
    assert forall j :: j in at + [n] <==> j in at || j == n;
    assert env + [] == env;
  }

  /** The sources, weakest first: the template's variables, the defaults in template order, the configured values in
      dictionary order of their keys, the server's overrides. */
  lemma SourcesSpelledOut(tpl: TemplateSpec, spec: ServerSpec)
      returns (defaults: seq<EnvVar>, configured: seq<EnvVar>, names: seq<string>, f: seq<int>, g: seq<int>)
    ensures Sources(tpl, spec) == tpl.env + defaults + configured + spec.envOverride
    ensures Sorted(names) && Elements(names) == spec.config.Keys
    ensures DefaultsAt(defaults, tpl.configKeys, f)
    ensures ConfiguredAt(configured, names, tpl.configKeys, spec.config, g)
  {
    hide DefaultsAt, ConfiguredAt;
    names := InOrder(spec.config.Keys);
    assert forall j :: 0 <= j < |names| ==> names[j] in Elements(names);
    defaults, configured := Defaults(tpl.configKeys), Configured(names, tpl.configKeys, spec.config);
    f := DefaultsArePlaced(tpl.configKeys);
    g := ConfiguredArePlaced(names, tpl.configKeys, spec.config);
  }

  /** An admitted template and a valid configuration together guarantee that every required key's variable is set,
      that an enum key set by configuration or default holds one of its choices, and that a configured int or bool
      key holds a value of its type, wherever no override names the variable. */
  lemma TypedConfigReachesThePod(sx: Syntax, tpl: TemplateSpec, spec: ServerSpec, i: nat)
    requires Errors(tpl) == [] && ValidConfig(sx, spec.config, tpl.configKeys) && i < |tpl.configKeys|
    ensures var k := tpl.configKeys[i];
            var set_ := Find(ResolvedEnv(tpl, spec), k.envVar);
            && (k.required ==> set_.Some?)
            && (LastWith(spec.envOverride, k.envVar).None? ==>
                  && (k.kind == EnumType && (k.name in spec.config || k.default != "") ==>
                        set_.Some? && set_.value.source.None? && set_.value.value in k.choices)
                  && (k.name in spec.config ==>
                        set_.Some? && set_.value.source.None? && Fits(sx, k, set_.value.value)))
  {
    AdmittedIffAdmissible(tpl);
    KeyResolution(tpl, spec, i);
    KeyNamedIsDeclared(tpl.configKeys, i);
    assert WellTyped(tpl.configKeys[i]);
    assert Provided(spec.config, tpl.configKeys[i]);
  }

  /** Exactly when a key that has a value, and is not overridden, reaches the pod with one of its type: when the value
      is configured, or the default the webhook did not check happens to fit. */
  lemma ValueFitsIff(sx: Syntax, tpl: TemplateSpec, spec: ServerSpec, i: nat)
    requires Errors(tpl) == [] && ValidConfig(sx, spec.config, tpl.configKeys) && i < |tpl.configKeys|
    requires var k := tpl.configKeys[i];
             LastWith(spec.envOverride, k.envVar).None? && (k.name in spec.config || k.default != "")
    ensures var k := tpl.configKeys[i];
            var set_ := Find(ResolvedEnv(tpl, spec), k.envVar);
            && set_.Some? && set_.value.source.None?
            && (Fits(sx, k, set_.value.value) <==> k.name in spec.config || Fits(sx, k, k.default))
            && (k.kind == EnumType ==> Fits(sx, k, set_.value.value))
  {
    hide ResolvedEnv, Find, LastWith;
    AdmittedIffAdmissible(tpl);
    KeyResolution(tpl, spec, i);
    KeyNamedIsDeclared(tpl.configKeys, i);
    assert WellTyped(tpl.configKeys[i]);
  }

  /** Defaults of int keys are not checked anywhere: an admitted template and an empty, valid configuration can put
      a value that is no int into an int key's variable. */
  lemma IntDefaultsAreUnchecked(sx: Syntax)
    requires !sx.isInt("lots")
    ensures var key := ConfigKey("memory", "MEMORY", IntType, [], "lots", true);
            var tpl := TemplateSpec("image", [], [], [key], "", false);
            var spec := ServerSpec("t", map[], "", "", [], false, [], None);
            && Errors(tpl) == [] && ValidConfig(sx, spec.config, tpl.configKeys)
            && Find(ResolvedEnv(tpl, spec), "MEMORY") == Some(EnvVar("MEMORY", "lots", None))
  {
    var key := ConfigKey("memory", "MEMORY", IntType, [], "lots", true);
    var tpl := TemplateSpec("image", [], [], [key], "", false);
    var spec := ServerSpec("t", map[], "", "", [], false, [], None);
    AdmittedIffAdmissible(tpl);
    KeyResolution(tpl, spec, 0);
  }
}
