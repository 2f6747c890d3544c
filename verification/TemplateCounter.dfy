/** The template reference counter: the reconciler, and the watches, caches and queue that decide when it runs. */
module TemplateCounter {
  import opened Prelude
  import opened Conditions
  import opened Stores

  const AVAILABLE := "Available"

  datatype TemplateStatus = TemplateStatus(registered: int, conditions: seq<Condition>)

  /** A stored template; `version` is the store's revision it was last written at. */
  datatype Template = Template(generation: int, status: TemplateStatus, version: nat)

  // ---------------------------------------------------------------------------------------------
  // One reconcile
  // ---------------------------------------------------------------------------------------------

  function Referring(refs: map<Key, string>, name: string): set<Key> {
    set k | k in refs && refs[k] == name
  }

  function Registered(refs: map<Key, string>, name: string): nat {
    |Referring(refs, name)|
  }

  predicate IsAvailable(c: Condition) {
    c.kind == AVAILABLE && c.status == ConditionTrue
  }

  predicate HasAvailable(cs: seq<Condition>) {
    exists i :: 0 <= i < |cs| && IsAvailable(cs[i])
  }

  predicate UpToDate(t: Template, count: int) {
    t.status.registered == count && HasAvailable(t.status.conditions)
  }

  function Observed(t: Template, count: int, now: int): TemplateStatus {
    TemplateStatus(count, Put(t.status.conditions,
                              Change(AVAILABLE, ConditionTrue, "Registered", "template observed", now, t.generation)))
  }

  lemma ObservedIsUpToDate(t: Template, count: int, now: int)
    ensures UpToDate(t.(status := Observed(t, count, now)), count)
  {
    var cs := t.status.conditions;
    var i := IndexOf(cs, AVAILABLE);
    assert IsAvailable(Observed(t, count, now).conditions[i]);
  }

  /** A status update carries the version it was computed from; a newer stored version rejects it. */
  predicate Accepts(templates: map<string, Template>, name: string, read: Template, write: CallResult) {
    write.TookEffect() && name in templates && templates[name].version == read.version
  }

  function WriteTemplate(templates: map<string, Template>, revision: nat, name: string, read: Template,
                         status: TemplateStatus, write: CallResult): map<string, Template>
  {
    if Accepts(templates, name, read, write) then
      templates[name := templates[name].(status := status, version := revision + 1)]
    else templates
  }

  /** What a reconcile leaves of the stored templates, and whether the queue takes the name back. */
  datatype Pass = Pass(templates: map<string, Template>, revision: nat, failed: bool)

  /** One reconcile: `read` and `refs` are what the caches answer when the template is fetched and the servers are
      listed; the stored templates are those at the time of the write. */
  function ReconcileTemplate(templates: map<string, Template>, revision: nat, name: string, read: Option<Template>,
                             refs: map<Key, string>, get: CallResult, list: CallResult, write: CallResult,
                             now: int): Pass
  {
    if !get.Acknowledged? then Pass(templates, revision, true)
    else if read.None? then Pass(templates, revision, false)
    else if !list.Acknowledged? then Pass(templates, revision, true)
    else
      var t, count := read.value, Registered(refs, name);
      if UpToDate(t, count) then Pass(templates, revision, false)
      else
        var accepted := Accepts(templates, name, t, write);
        Pass(WriteTemplate(templates, revision, name, t, Observed(t, count, now), write),
             if accepted then revision + 1 else revision, !(accepted && write.Acknowledged?))
  }

  /** What a pass does.  A read that fails asks for another run, a template that is gone ends it.  It does nothing
      while the template is marked available and counts right; else it stores the number of servers naming the
      template and marks it available, unless its status update is lost or the template was written since it was
      read, and asks to be run again unless that was acknowledged. */
  lemma PassReports(templates: map<string, Template>, revision: nat, name: string, read: Option<Template>,
                    refs: map<Key, string>, get: CallResult, list: CallResult, write: CallResult, now: int)
    ensures var p := ReconcileTemplate(templates, revision, name, read, refs, get, list, write, now);
            if get != Acknowledged || (read.Some? && list != Acknowledged) then p == Pass(templates, revision, true)
            else if read.None? then p == Pass(templates, revision, false)
            else
              var count, before := |set k | k in refs && refs[k] == name|, read.value.status.conditions;
              var settled := read.value.status.registered == count
                             && exists i :: && 0 <= i < |before| && before[i].kind == "Available"
                                            && before[i].status == ConditionTrue;
              if settled then p == Pass(templates, revision, false)
              else if write.TookEffect() && name in templates && templates[name].version == read.value.version then
                && p.revision == revision + 1 && p.failed == !write.Acknowledged? && name in p.templates
                && var st := p.templates[name].status;
                   && p.templates == templates[name := Template(templates[name].generation, st, revision + 1)]
                   && st.registered == count
                   && Becomes(before, st.conditions, "Available", ConditionTrue, "Registered", "template observed", now,
                              read.value.generation)
                   && SameBut(before, st.conditions, {"Available"})
              else p == Pass(templates, revision, true)
  {
    hide Put, Becomes, SameBut;
    if read.Some? {
      var t := read.value;
      assert Referring(refs, name) == set k | k in refs && refs[k] == name;
      PutBecomes(t.status.conditions,
          Change(AVAILABLE, ConditionTrue, "Registered", "template observed", now, t.generation));
      forall i | 0 <= i < |t.status.conditions|
        ensures IsAvailable(t.status.conditions[i]) <==>
                t.status.conditions[i].kind == "Available" && t.status.conditions[i].status == ConditionTrue
      {
      }
    }
  }

  class GameTemplateReconciler {
    var templates: map<string, Template>
    var revision: nat

    method CountServers(name: string, items: seq<Key>, refs: map<Key, string>) returns (count: int)
      requires Distinct(items) && Elements(items) == refs.Keys
      ensures count == Registered(refs, name)
    {
      count := 0;
      for i := 0 to |items|
        invariant count == |CountedSoFar(items, refs, name, i)|
      {
        assert items[i] in Elements(items);
        CountNext(items, refs, name, i);
        if refs[items[i]] == name {
          count := count + 1;
        }
      }
      assert CountedSoFar(items, refs, name, |items|) == Referring(refs, name) by {
        assert forall k :: k in refs <==> k in Elements(items);
      }
    }

    method HasAvailableCondition(conditions: seq<Condition>) returns (has: bool)
      ensures has == HasAvailable(conditions)
    {
      for i := 0 to |conditions|
        invariant forall j :: 0 <= j < i ==> !IsAvailable(conditions[j])
      {
        if conditions[i].kind == AVAILABLE && conditions[i].status == ConditionTrue {
          assert IsAvailable(conditions[i]);
          return true;
        }
      }
      has := false;
    }

    /** `items` is the order in which the servers happen to be listed. */
    method Reconcile(name: string, read: Option<Template>, refs: map<Key, string>, items: seq<Key>, get: CallResult,
                     list: CallResult, write: CallResult, now: int)
      returns (failed: bool)
      requires Distinct(items) && Elements(items) == refs.Keys
      modifies this
      ensures Pass(templates, revision, failed)
              == ReconcileTemplate(old(templates), old(revision), name, read, refs, get, list, write, now)
    {
      hide Put, Referring;
      if !get.Acknowledged? {
        return true;
      }
      if read.None? {
        return false;
      }
      var t := read.value;
      if !list.Acknowledged? {
        return true;
      }
      var count := CountServers(name, items, refs);
      if t.status.registered == count {
        var available := HasAvailableCondition(t.status.conditions);
        if available {
          return false;
        }
      }
      var conditions := new ConditionList(t.status.conditions, t.generation);
      conditions.Set(AVAILABLE, ConditionTrue, "Registered", "template observed", now);
      var status := TemplateStatus(count, conditions.items);
      if write.TookEffect() && name in templates && templates[name].version == t.version {
        templates := templates[name := templates[name].(status := status, version := revision + 1)];
        revision := revision + 1;
        return !write.Acknowledged?;
      }
      failed := true;
    }
  }

  function CountedSoFar(items: seq<Key>, refs: map<Key, string>, name: string, n: nat): set<Key>
    requires n <= |items|
  {
    set k | k in items[..n] && k in refs && refs[k] == name
  }

  lemma CountNext(items: seq<Key>, refs: map<Key, string>, name: string, n: nat)
    requires n < |items| && Distinct(items) && items[n] in refs
    ensures |CountedSoFar(items, refs, name, n + 1)|
            == |CountedSoFar(items, refs, name, n)| + if refs[items[n]] == name then 1 else 0
  {
    var before, after := CountedSoFar(items, refs, name, n), CountedSoFar(items, refs, name, n + 1);
    assert items[n] !in items[..n];
    assert items[..n + 1] == items[..n] + [items[n]];
    assert after == before + if refs[items[n]] == name then {items[n]} else {};
  }

  // ---------------------------------------------------------------------------------------------
  // When it runs
  // ---------------------------------------------------------------------------------------------

  /** A reconcile in progress: it has fetched the template, and then counted. */
  datatype Work = Fetched(read: Template) | Counted(read: Template, count: int)

  /** The store (servers by the template they name, and templates), the operator's caches of it, the names handed to
      the event handlers, the work queue, and the reconciles in progress. */
  datatype State = State(
    servers: map<Key, string>,
    templates: map<string, Template>,
    revision: nat,
    seen: map<Key, string>,
    known: map<string, Template>,
    due: set<string>,
    queue: set<string>,
    working: map<string, Work>)

  /** Users create, delete and retarget servers. */
  predicate ServersStep(s: State, s': State) {
    s' == s.(servers := s'.servers)
  }

  /** Users create, edit or delete a template; every write gets a new revision. */
  predicate TemplateStep(s: State, s': State, name: string, v: Option<Template>) {
    && name != "" && (v.Some? ==> v.value.version == s.revision + 1)
    && s' == s.(templates := Set(s.templates, name, v), revision := s.revision + 1)
  }

  /** The template a server's event asks to reconcile; an empty reference asks for nothing. */
  function Refs(r: Option<string>): set<string> {
    if r.Some? && r.value != "" then {r.value} else {}
  }

  /** The server cache takes in an event, current or outdated, in any order; the handler is given both references. */
  predicate SeeServerStep(s: State, s': State, k: Key, v: Option<string>) {
    s' == s.(seen := Set(s.seen, k, v), due := s.due + Refs(Get(s.seen, k)) + Refs(v))
  }

  /** The template cache takes in an event; a version identifies its contents. */
  predicate SeeTemplateStep(s: State, s': State, name: string, v: Option<Template>) {
    && name != ""
    && (v.Some? ==> v.value.version <= s.revision && Faithful(s.templates, name, v.value))
    && s' == s.(known := Set(s.known, name, v), due := s.due + {name})
  }

  predicate Faithful(templates: map<string, Template>, name: string, t: Template) {
    name in templates && templates[name].version == t.version ==> templates[name] == t
  }

  predicate EnqueueStep(s: State, s': State, name: string) {
    name in s.due && s' == s.(due := s.due - {name}, queue := s.queue + {name})
  }

  /** A worker takes a name nobody is working on and fetches the template from the cache. */
  predicate TakeStep(s: State, s': State, name: string, get: CallResult) {
    && name in s.queue && name !in s.working
    && s' == if !get.Acknowledged? then s
             else if name !in s.known then s.(queue := s.queue - {name})
             else s.(queue := s.queue - {name}, working := s.working[name := Fetched(s.known[name])])
  }

  predicate CountStep(s: State, s': State, name: string, list: CallResult) {
    && name in s.working && s.working[name].Fetched?
    && s' == if !list.Acknowledged? then s.(working := s.working - {name}, queue := s.queue + {name})
             else s.(working := s.working[name := Counted(s.working[name].read, Registered(s.seen, name))])
  }

  predicate FinishStep(s: State, s': State, name: string, now: int, write: CallResult) {
    && name in s.working && s.working[name].Counted?
    && var w := s.working[name];
       s' == if UpToDate(w.read, w.count) then s.(working := s.working - {name})
             else
               var accepted := Accepts(s.templates, name, w.read, write);
               s.(templates := WriteTemplate(s.templates, s.revision, name, w.read, Observed(w.read, w.count, now),
                   write),
                  revision := if accepted then s.revision + 1 else s.revision,
                  working := s.working - {name},
                  queue := if accepted && write.Acknowledged? then s.queue else s.queue + {name})
  }

  /** The operator restarts with empty caches and an empty queue. */
  predicate RestartStep(s: State, s': State) {
    s' == s.(seen := map[], known := map[], due := {}, queue := {}, working := map[])
  }

  // ---------------------------------------------------------------------------------------------
  // The steps are the reconciler's
  // ---------------------------------------------------------------------------------------------

  /** A pass that ends at the fetch leaves what one reconcile leaves. */
  lemma TakeEndsReconcile(s: State, s': State, name: string, get: CallResult, list: CallResult, write: CallResult,
                          now: int)
    requires TakeStep(s, s', name, get) && name !in s'.working
    ensures var p := ReconcileTemplate(s.templates, s.revision, name, Get(s.known, name), s.seen, get, list, write,
        now);
            && s'.templates == p.templates && s'.revision == p.revision && s'.working == s.working
            && s'.queue == if p.failed then s.queue else s.queue - {name}
  {
    hide Registered, UpToDate, WriteTemplate, Accepts;
  }

  /** A pass that fetches, lists and finishes, with any other steps in between, leaves what one reconcile leaves that is
      answered by the caches at those moments. */
  lemma StepsComposeToReconcile(take: State, taken: State, list: State, listed: State, finish: State, finished: State,
                                name: string, get: CallResult, listing: CallResult, write: CallResult, now: int)
    requires TakeStep(take, taken, name, get) && name in taken.working
    requires CountStep(list, listed, name, listing) && list.working[name] == taken.working[name]
    requires name in listed.working ==>
               && FinishStep(finish, finished, name, now, write) && finish.working[name] == listed.working[name]
    requires name !in listed.working ==> finish == list && finished == listed
    ensures var p := ReconcileTemplate(finish.templates, finish.revision, name, Get(take.known, name), list.seen, get,
                                       listing, write, now);
            && finished.templates == p.templates && finished.revision == p.revision
            && finished.working == finish.working - {name}
            && finished.queue == if p.failed then finish.queue + {name} else finish.queue
  {
    hide Registered, UpToDate, WriteTemplate, Accepts, Observed;
  }

  /** In between, nobody but a restart touches the work on a name: a second worker does not take it. */
  lemma WorkIsPrivate(s: State, s': State, name: string)
    requires Step(s, s') && name in s.working && !RestartStep(s, s')
    requires forall list :: !CountStep(s, s', name, list)
    requires forall now, write :: !FinishStep(s, s', name, now, write)
    ensures name in s'.working && s'.working[name] == s.working[name]
  {
    hide TemplateStep, SeeServerStep, SeeTemplateStep, EnqueueStep, TakeStep, CountStep, FinishStep;
    if m, get :| TakeStep(s, s', m, get) {
      TakeKeepsOthers(s, s', m, get, name);
    } else if m, list :| CountStep(s, s', m, list) {
      CountKeepsOthers(s, s', m, list, name);
    } else if m, now, write :| FinishStep(s, s', m, now, write) {
      FinishKeepsOthers(s, s', m, now, write, name);
    } else {
      RestKeepsWork(s, s');
    }
  }

  lemma TakeKeepsOthers(s: State, s': State, m: string, get: CallResult, name: string)
    requires TakeStep(s, s', m, get) && name in s.working
    ensures name in s'.working && s'.working[name] == s.working[name]
  {
  }

  lemma CountKeepsOthers(s: State, s': State, m: string, list: CallResult, name: string)
    requires CountStep(s, s', m, list) && name in s.working && m != name
    ensures name in s'.working && s'.working[name] == s.working[name]
  {
    hide Registered;
  }

  lemma FinishKeepsOthers(s: State, s': State, m: string, now: int, write: CallResult, name: string)
    requires FinishStep(s, s', m, now, write) && name in s.working && m != name
    ensures name in s'.working && s'.working[name] == s.working[name]
  {
    hide UpToDate, WriteTemplate, Accepts, Observed;
  }

  lemma RestKeepsWork(s: State, s': State)
    requires Step(s, s') && !RestartStep(s, s')
    requires forall m, get :: !TakeStep(s, s', m, get)
    requires forall m, list :: !CountStep(s, s', m, list)
    requires forall m, now, write :: !FinishStep(s, s', m, now, write)
    ensures s'.working == s.working
  {
    hide TakeStep, CountStep, FinishStep, Set, Refs;
  }

  ghost predicate Step(s: State, s': State) {
    || ServersStep(s, s')
    || (exists name, v :: TemplateStep(s, s', name, v))
    || (exists k, v :: SeeServerStep(s, s', k, v))
    || (exists name, v :: SeeTemplateStep(s, s', name, v))
    || (exists name :: EnqueueStep(s, s', name))
    || (exists name, get :: TakeStep(s, s', name, get))
    || (exists name, list :: CountStep(s, s', name, list))
    || (exists name, now, write :: FinishStep(s, s', name, now, write))
    || RestartStep(s, s')
  }

  predicate Initial(s: State) {
    && s.templates == map[] && s.seen == map[] && s.known == map[]
    && s.due == {} && s.queue == {} && s.working == map[]
  }

  ghost predicate IsRun(run: seq<State>) {
    && run != [] && Initial(run[0])
    && forall i :: 0 <= i < |run| - 1 ==> Step(run[i], run[i + 1])
  }

  // ---------------------------------------------------------------------------------------------
  // The invariant
  // ---------------------------------------------------------------------------------------------

  predicate Asked(s: State, name: string) {
    name in s.due || name in s.queue
  }

  predicate Named(s: State) {
    "" !in s.due && "" !in s.queue && "" !in s.working && "" !in s.templates
  }

  predicate Versioned(s: State) {
    && (forall n :: n in s.templates ==> s.templates[n].version <= s.revision)
    && (forall n :: n in s.known ==> s.known[n].version <= s.revision && Faithful(s.templates, n, s.known[n]))
  }

  /** Unless it has been asked for again, a reconcile in progress works on what the caches still say. */
  predicate WorkCurrent(s: State, name: string, w: Work) {
    !Asked(s, name) ==>
      && Get(s.known, name) == Some(w.read)
      && (w.Counted? ==> w.count == Registered(s.seen, name))
  }

  predicate AllWorkCurrent(s: State) {
    forall n :: n in s.working ==> WorkCurrent(s, n, s.working[n])
  }

  /** Nobody is due to look at the template again, and its cached copy is the stored one. */
  predicate Quiet(s: State, name: string) {
    !Asked(s, name) && name !in s.working && name in s.templates && Get(s.known, name) == Some(s.templates[name])
  }

  ghost predicate QuietIsUpToDate(s: State) {
    forall n :: Quiet(s, n) ==> UpToDate(s.templates[n], Registered(s.seen, n))
  }

  ghost predicate Inv(s: State) {
    Named(s) && Versioned(s) && AllWorkCurrent(s) && QuietIsUpToDate(s)
  }

  lemma OthersStayRegistered(refs: map<Key, string>, k: Key, v: Option<string>, name: string)
    requires name != "" && name !in Refs(Get(refs, k)) && name !in Refs(v)
    ensures Registered(Set(refs, k, v), name) == Registered(refs, name)
  {
    var after := Set(refs, k, v);
    forall x
      ensures x in Referring(after, name) <==> x in Referring(refs, name)
    {
      assert Get(after, x) == if x == k then v else Get(refs, x);
      assert x in Referring(refs, name) <==> Get(refs, x) == Some(name);
      assert x in Referring(after, name) <==> Get(after, x) == Some(name);
    }
    assert Referring(after, name) == Referring(refs, name);
  }

  lemma SeeServerKeeps(s: State, s': State, k: Key, v: Option<string>)
    requires Inv(s) && SeeServerStep(s, s', k, v)
    ensures Inv(s')
  {
    hide Registered, UpToDate, Set;
    forall n | n != "" && !Asked(s', n)
      ensures Registered(s'.seen, n) == Registered(s.seen, n) && !Asked(s, n)
    {
      OthersStayRegistered(s.seen, k, v, n);
    }
    forall n | Quiet(s', n)
      ensures UpToDate(s'.templates[n], Registered(s'.seen, n))
    {
      assert Quiet(s, n);
    }
  }

  lemma SeeTemplateKeeps(s: State, s': State, name: string, v: Option<Template>)
    requires Inv(s) && SeeTemplateStep(s, s', name, v)
    ensures Inv(s')
  {
    hide Registered, UpToDate;
    forall n | Quiet(s', n)
      ensures UpToDate(s'.templates[n], Registered(s'.seen, n))
    {
      assert Quiet(s, n);
    }
  }

  /** A stored template written at a new revision is not the one any cache holds. */
  lemma TemplateKeeps(s: State, s': State, name: string, v: Option<Template>)
    requires Inv(s) && TemplateStep(s, s', name, v)
    ensures Inv(s')
  {
    hide Registered, UpToDate;
    assert forall n :: n != name ==> Get(s'.templates, n) == Get(s.templates, n);
    forall n | Quiet(s', n)
      ensures UpToDate(s'.templates[n], Registered(s'.seen, n))
    {
      assert n != name;
      assert Quiet(s, n);
    }
  }

  lemma EnqueueKeeps(s: State, s': State, name: string)
    requires Inv(s) && EnqueueStep(s, s', name)
    ensures Inv(s')
  {
    hide Registered, UpToDate;
    assert forall n :: Asked(s', n) <==> Asked(s, n);
    assert forall n :: Quiet(s', n) <==> Quiet(s, n);
  }

  lemma SameVersions(s: State, s': State)
    ensures s'.templates == s.templates && s'.revision == s.revision && s'.known == s.known ==>
              (Versioned(s') <==> Versioned(s))
  {
  }

  lemma TakeKeeps(s: State, s': State, name: string, get: CallResult)
    requires Inv(s) && TakeStep(s, s', name, get)
    ensures Inv(s')
  {
    hide Registered, UpToDate, Versioned;
    SameVersions(s, s');
    forall n | Quiet(s', n)
      ensures UpToDate(s'.templates[n], Registered(s'.seen, n))
    {
      assert n != name ==> Quiet(s, n);
    }
  }

  lemma CountKeeps(s: State, s': State, name: string, list: CallResult)
    requires Inv(s) && CountStep(s, s', name, list)
    ensures Inv(s')
  {
    hide Registered, UpToDate;
    assert WorkCurrent(s, name, s.working[name]);
    forall n | Quiet(s', n)
      ensures UpToDate(s'.templates[n], Registered(s'.seen, n))
    {
      assert Quiet(s, n);
    }
  }

  lemma FinishVersions(s: State, s': State, name: string, now: int, write: CallResult)
    requires Versioned(s) && FinishStep(s, s', name, now, write)
    ensures Versioned(s')
    ensures forall n :: n in s'.templates ==> n in s.templates && (s'.templates[n] == s.templates[n] || n == name)
    ensures name in s'.templates && s'.templates[name] != s.templates[name] ==>
              Get(s'.known, name) != Some(s'.templates[name])
  {
    hide UpToDate, Observed;
  }

  lemma FinishKeeps(s: State, s': State, name: string, now: int, write: CallResult)
    requires Inv(s) && FinishStep(s, s', name, now, write)
    ensures Inv(s')
  {
    hide Registered, UpToDate, Observed, Versioned, WriteTemplate, Accepts;
    FinishVersions(s, s', name, now, write);
    assert WorkCurrent(s, name, s.working[name]);
    forall n | Quiet(s', n)
      ensures UpToDate(s'.templates[n], Registered(s'.seen, n))
    {
      if n != name {
        assert Quiet(s, n);
      } else {
        FinishedQuietly(s, s', name, now, write);
      }
    }
  }

  /** A name that is quiet right after its reconcile was up to date already. */
  lemma FinishedQuietly(s: State, s': State, name: string, now: int, write: CallResult)
    requires Versioned(s) && FinishStep(s, s', name, now, write) && Quiet(s', name)
    requires WorkCurrent(s, name, s.working[name])
    ensures UpToDate(s'.templates[name], Registered(s'.seen, name))
  {
    hide Registered, UpToDate, Observed;
    FinishVersions(s, s', name, now, write);
  }

  lemma StepKeeps(s: State, s': State)
    requires Inv(s) && Step(s, s')
    ensures Inv(s')
  {
    hide Inv, TemplateStep, SeeServerStep, SeeTemplateStep, EnqueueStep, TakeStep, CountStep, FinishStep;
    if name, v :| TemplateStep(s, s', name, v) {
      TemplateKeeps(s, s', name, v);
    } else if k, v :| SeeServerStep(s, s', k, v) {
      SeeServerKeeps(s, s', k, v);
    } else if name, v :| SeeTemplateStep(s, s', name, v) {
      SeeTemplateKeeps(s, s', name, v);
    } else if name :| EnqueueStep(s, s', name) {
      EnqueueKeeps(s, s', name);
    } else if name, get :| TakeStep(s, s', name, get) {
      TakeKeeps(s, s', name, get);
    } else if name, list :| CountStep(s, s', name, list) {
      CountKeeps(s, s', name, list);
    } else if name, now, write :| FinishStep(s, s', name, now, write) {
      FinishKeeps(s, s', name, now, write);
    } else {
      ElsewhereKeeps(s, s');
    }
  }

  lemma ElsewhereKeeps(s: State, s': State)
    requires Inv(s) && (ServersStep(s, s') || RestartStep(s, s'))
    ensures Inv(s')
  {
    hide Registered, UpToDate;
    forall n | Quiet(s', n)
      ensures UpToDate(s'.templates[n], Registered(s'.seen, n))
    {
      assert Quiet(s, n);
    }
  }

  lemma {:induction false} InvAlongRun(run: seq<State>)
    requires IsRun(run)
    ensures Inv(run[|run| - 1])
  {
    hide Inv, Step;
    var n := |run| - 1;
    if n == 0 {
      InitialInv(run[0]);
    } else {
      InvAlongRun(run[..n]);
      StepKeeps(run[n - 1], run[n]);
    }
  }

  lemma InitialInv(s: State)
    requires Initial(s)
    ensures Inv(s)
  {
  }

  /** In every reachable state, a stored template that is not queued, being reconciled or about to be queued, and whose
      own events have been taken in, is marked available and counts exactly the servers the cache says name it; so the
      count is the real one exactly when the cache has the right number, in particular when the events of the servers
      naming it have been taken in too.  It holds through any order of creations, deletions, retargetings, delayed or
      outdated events, failed, conflicting or half-failed status writes and operator restarts. */
  lemma ServersRegisteredIsExact(run: seq<State>, name: string)
    requires IsRun(run) && Quiet(run[|run| - 1], name)
    ensures var s := run[|run| - 1];
            && HasAvailable(s.templates[name].status.conditions)
            && s.templates[name].status.registered == Registered(s.seen, name)
            && (s.templates[name].status.registered == Registered(s.servers, name) <==>
                Registered(s.seen, name) == Registered(s.servers, name))
            && (Referring(s.seen, name) == Referring(s.servers, name) ==>
                  s.templates[name].status.registered == Registered(s.servers, name))
  {
    hide Step;
    InvAlongRun(run);
  }

  /** And it gets there: once the caches have caught up, one fault-free reconcile of a queued template makes the stored
      count exact. */
  lemma OnePassCounts(s: State, fetched: State, counted: State, done: State, name: string, now: int)
    requires Inv(s) && Get(s.known, name) == Get(s.templates, name) && name in s.templates
    requires Referring(s.seen, name) == Referring(s.servers, name)
    requires TakeStep(s, fetched, name, Acknowledged)
    requires CountStep(fetched, counted, name, Acknowledged)
    requires FinishStep(counted, done, name, now, Acknowledged)
    ensures name in done.templates && UpToDate(done.templates[name], Registered(done.servers, name))
    ensures name !in s.due && done.templates == s.templates ==> Quiet(done, name)
  {
    hide UpToDate, Observed;
    ObservedIsUpToDate(s.templates[name], Registered(s.seen, name), now);
    SameVersionUpToDate(s.templates[name], Observed(s.templates[name], Registered(s.seen, name), now), s.revision + 1,
                        Registered(s.seen, name));
  }

  lemma SameVersionUpToDate(t: Template, status: TemplateStatus, version: nat, count: int)
    ensures UpToDate(t.(status := status), count) <==> UpToDate(t.(status := status, version := version), count)
  {
  }
}
