/** Whole runs of one BackupSchedule: reconciles with failing calls and stale lists, interleaved with users,
    the clock and the other controllers. */
module ScheduleRuns {
  import opened Prelude
  import opened Conditions
  import opened Calendar
  import opened Cron
  import opened Objects
  import opened Retention
  import opened BackupSchedules

  /** The stored schedule and Backups, every state of the Backups a stale list may still show, and the fire
      times whose Backup the reconciler's create call added, in order. */
  datatype World = World(
    now: int,
    schedule: BackupSchedule,
    backups: map<string, Backup>,
    history: seq<map<string, Backup>>,
    log: seq<int>)
  {
    function Last(): Option<int> { schedule.status.lastScheduleTime }
  }

  /** The stored expression and zone denote the cron schedule c, which never runs dry. */
  ghost predicate Denotes(lib: Library, w: World, c: Cron) {
    && lib.Sound() && Lawful(c) && Endless(c)
    && lib.zoneError(w.schedule.spec.timeZone).None?
    && lib.parse(w.schedule.spec.schedule, w.schedule.spec.timeZone) == GoodCron(c)
  }

  predicate Own(backups: map<string, Backup>, name: string, schedule: string) {
    name in backups && backups[name].schedule == schedule
  }

  predicate Rival(view: map<string, Backup>, n: string, s: string, stamp: int) {
    Own(view, n, s) && view[n].creationTimestamp >= stamp
  }

  /** The children ever stored that share or exceed a timestamp. */
  ghost function Rivals(views: seq<map<string, Backup>>, s: string, stamp: int): set<string> {
    set view: map<string, Backup>, n: string | view in views && n in view && Rival(view, n, s, stamp) :: n
  }

  /** The apiserver stamps the next creation such that fewer than `room` children share or exceed it; with room for one
      it is later than every child ever stored. */
  ghost predicate Roomy(w: World, s: string, stamp: int, room: nat) {
    |Rivals(w.history, s, stamp)| < room
  }

  /** The Backups right after the create call of a reconcile. */
  ghost function AfterSpawn(c: Cron, s: string, w: World, a: Answers): map<string, Backup>
    requires Lawful(c) && ClockInRange(a.now)
  {
    if Fires(c, w.schedule, a.now) then
      DueRunIsRenderable(c, a.now, w.Last());
      Spawned(w.backups, s, w.schedule.spec, NextFire(c, a.now, w.Last()), a.create, a.stamp)
    else w.backups
  }

  ghost function Added(c: Cron, s: string, w: World, a: Answers): seq<int>
    requires Lawful(c) && ClockInRange(a.now)
  {
    if AfterSpawn(c, s, w, a) == w.backups then [] else [NextFire(c, a.now, w.Last())]
  }

  /** One reconcile on a fresh read of the schedule; its retention list may show any earlier state. */
  ghost predicate Reconciled(lib: Library, c: Cron, s: string, w: World, w': World, a: Answers) {
    && Denotes(lib, w, c)
    && w.now <= a.now == w'.now && ClockInRange(a.now)
    && (a.list.Some? ==>
          exists view :: (view in w.history || view == AfterSpawn(c, s, w, a)) && Arranged(a.list.value, view, s))
    && var out := ReconcileSchedule(lib, s, w.schedule, w.backups, a);
       && w'.schedule == out.schedule && w'.backups == out.backups
       && w'.history == w.history + [AfterSpawn(c, s, w, a), out.backups]
       && w'.log == w.log + Added(c, s, w, a)
  }

  /** Anyone may suspend the schedule, change `keep` or any other field but the expression and zone, edit the
      children's flags and status, and do anything to Backups without this schedule's label. */
  ghost predicate Disturbed(lib: Library, c: Cron, s: string, w: World, w': World) {
    && Denotes(lib, w, c) && Denotes(lib, w', c)
    && w.now <= w'.now && w'.schedule.status == w.schedule.status && w'.log == w.log
    && w'.history == w.history + [w'.backups]
    && forall n :: Own(w.backups, n, s) || Own(w'.backups, n, s) ==>
         && Own(w.backups, n, s) && Own(w'.backups, n, s)
         && w'.backups[n].creationTimestamp == w.backups[n].creationTimestamp
  }

  /** The method's postcondition makes it a step of a run: on a list call answered with the children of some earlier
      state, in any order, what the reconciler leaves behind is what a run step allows. */
  lemma ReconcilerTakesRunSteps(lib: Library, c: Cron, s: string, w: World, w': World, a: Answers,
                                order: Option<seq<NamedBackup>>)
    requires Denotes(lib, w, c) && w.now <= a.now == w'.now && ClockInRange(a.now)
    requires a.list.Some? ==>
               exists view :: (view in w.history || view == AfterSpawn(c, s, w, a)) && IsListing(a.list.value, view, s)
    requires order.Some? ==>
               a.list.Some? && multiset(order.value) == multiset(a.list.value) && NewestFirst(Outline(order.value))
    requires var out := ReconcileSchedule(lib, s, w.schedule, w.backups, a.(list := order));
             && w'.schedule == out.schedule && w'.backups == out.backups
             && w'.history == w.history + [AfterSpawn(c, s, w, a), out.backups]
             && w'.log == w.log + Added(c, s, w, a)
    ensures Reconciled(lib, c, s, w, w', a.(list := order))
  {
    hide ReconcileSchedule, IsListing;
    assert AfterSpawn(c, s, w, a.(list := order)) == AfterSpawn(c, s, w, a);
    if order.Some? {
      var view :| (view in w.history || view == AfterSpawn(c, s, w, a)) && IsListing(a.list.value, view, s);
      ListingsPermute(a.list.value, order.value, view, s);
      assert Arranged(order.value, view, s);
    }
  }

  /** A step of a run in which `keep` stays at least `room`. */
  ghost predicate Next(lib: Library, c: Cron, s: string, room: nat, w: World, w': World) {
    || (room <= EffectiveKeep(w.schedule.spec.keep)
        && exists a :: Reconciled(lib, c, s, w, w', a) && Roomy(w, s, a.stamp, room))
    || Disturbed(lib, c, s, w, w')
  }

  /** A schedule starts its life without children. */
  ghost predicate Initial(w: World, s: string) {
    && w.log == [] && w.history == [w.backups]
    && forall n :: !Own(w.backups, n, s)
  }

  ghost predicate IsRun(lib: Library, c: Cron, s: string, room: nat, run: seq<World>) {
    && |run| > 0 && Initial(run[0], s) && Denotes(lib, run[0], c)
    && forall i :: 0 <= i < |run| - 1 ==> Next(lib, c, s, room, run[i], run[i + 1])
  }

  /** What a reconcile does once its expression denotes c. */
  lemma ReconcileUnfolds(lib: Library, c: Cron, s: string, w: World, a: Answers)
    requires Denotes(lib, w, c) && ClockInRange(a.now)
    ensures var out := ReconcileSchedule(lib, s, w.schedule, w.backups, a);
            var fires := Fires(c, w.schedule, a.now);
            var fire := NextFire(c, a.now, w.Last());
            && (out.backups == AfterSpawn(c, s, w, a)
                || (a.list.Some? && out.backups ==
                      Pruned(AfterSpawn(c, s, w, a), a.list.value, w.schedule.spec.keep, a.deletes)))
            && out.schedule.spec == w.schedule.spec
            && out.schedule.status.lastScheduleTime ==
                 if fires && a.create.Acknowledged? && a.write.TookEffect() then Some(fire) else w.Last()
  {
  }

  // ---------------------------------------------------------------------------------------------
  // Each fire time is created at most once
  // ---------------------------------------------------------------------------------------------

  /** n bears this timestamp in every state a list may show, and fewer than `room` other children share or exceed it. */
  ghost predicate Leader(views: seq<map<string, Backup>>, s: string, room: nat, n: string, stamp: int) {
    && (forall view: map<string, Backup> :: view in views && Own(view, n, s) ==> view[n].creationTimestamp == stamp)
    && |Rivals(views, s, stamp) - {n}| < room
  }

  predicate Nameable(f: int) {
    Renderable(f) && f % MINUTE == 0
  }

  /** Every child ever seen is the Backup of a fire time in the log. */
  ghost predicate Born(views: seq<map<string, Backup>>, s: string, log: seq<int>) {
    && (forall f :: f in log ==> Nameable(f))
    && forall view, m :: view in views && Own(view, m, s) ==> exists f :: f in log && m == BackupName(s, f)
  }

  /** f is the latest fire time created, its Backup exists and retention has room for it in every view. */
  ghost predicate Leads(s: string, room: nat, backups: map<string, Backup>, views: seq<map<string, Backup>>, f: int) {
    && Nameable(f)
    && var n := BackupName(s, f);
       Own(backups, n, s) && Leader(views, s, room, n, backups[n].creationTimestamp)
  }

  ghost predicate Inv(c: Cron, s: string, room: nat, w: World) {
    && w.backups in w.history
    && Increasing(w.log)
    && Born(w.history, s, w.log)
    && (w.log != [] ==>
          var f := w.log[|w.log| - 1];
          f <= NextFire(c, w.now, w.Last()) && Leads(s, room, w.backups, w.history, f))
  }

  /** Retention never asks to delete a child it has room for. */
  lemma LeaderIsNoVictim(view: map<string, Backup>, s: string, room: nat, n: string, stamp: int,
                         order: seq<NamedBackup>, keep: nat)
    requires room <= keep && Arranged(order, view, s) && Leader([view], s, room, n, stamp)
    ensures n !in Victims(Outline(order), keep)
  {
    var children := Outline(order);
    VictimsAreTheTail(children, keep);
    ExpendableFilters(children);
    OutlineIsDistinct(view, s, order);
    var e := Expendable(children);
    if n in Victims(children, keep) {
      var i :| Min(keep, |e|) <= i < |e| && e[i].name == n;
      AheadAreRivals(view, s, order, i);
      OutlineComesFromView(view, s, order, e[i]);
      assert view in [view];
      SubsetSize(Elements(Names(e[..i])), Rivals([view], s, stamp) - {n});
      assert false;
    }
  }

  /** The listed children subject to retention are distinct children of the view. */
  lemma ExpendableAreOwn(view: map<string, Backup>, s: string, order: seq<NamedBackup>)
    requires Arranged(order, view, s)
    ensures var e := Expendable(Outline(order));
            && NewestFirst(e)
            && (forall j :: 0 <= j < |e| ==>
                  Own(view, e[j].name, s) && e[j].created == view[e[j].name].creationTimestamp)
            && (forall j, k :: 0 <= j < k < |e| ==> e[j].name != e[k].name)
  {
    var children := Outline(order);
    ExpendableFilters(children);
    OutlineIsDistinct(view, s, order);
    var e := Expendable(children);
    forall j | 0 <= j < |e|
      ensures Own(view, e[j].name, s) && e[j] == ChildOf(NamedBackup(e[j].name, view[e[j].name]))
    {
      assert e[j] in children;
      OutlineComesFromView(view, s, order, e[j]);
    }
  }

  /** The children listed ahead of one that is subject to retention share or exceed its timestamp. */
  lemma AheadAreRivals(view: map<string, Backup>, s: string, order: seq<NamedBackup>, i: nat)
    requires Arranged(order, view, s) && i < |Expendable(Outline(order))|
    ensures var e := Expendable(Outline(order));
            && Elements(Names(e[..i])) <= Rivals([view], s, e[i].created) - {e[i].name}
            && |Elements(Names(e[..i]))| == i
  {
    hide Rivals, Arranged, Expendable;
    ExpendableAreOwn(view, s, order);
    var e := Expendable(Outline(order));
    var ahead := Names(e[..i]);
    assert Distinct(ahead);
    DistinctElements(ahead);
    forall n | n in Elements(ahead)
      ensures n in Rivals([view], s, e[i].created) && n != e[i].name
    {
      var j :| 0 <= j < i && ahead[j] == n;
      ShownRival([view], view, s, e[i].created, n);
    }
  }

  lemma OutlineComesFromView(view: map<string, Backup>, s: string, order: seq<NamedBackup>, x: Child)
    requires IsListing(order, view, s)
    ensures x in Outline(order) <==> Own(view, x.name, s) && x == ChildOf(NamedBackup(x.name, view[x.name]))
  {
    if x in Outline(order) {
      var i :| 0 <= i < |order| && Outline(order)[i] == x;
      assert order[i] in Elements(order);
    }
    if Own(view, x.name, s) && x == ChildOf(NamedBackup(x.name, view[x.name])) {
      var y := NamedBackup(x.name, view[x.name]);
      assert y in Children(view, s) && y in Elements(order);
      var i :| 0 <= i < |order| && order[i] == y;
      assert Outline(order)[i] == x;
    }
  }

  lemma OutlineIsDistinct(view: map<string, Backup>, s: string, order: seq<NamedBackup>)
    requires IsListing(order, view, s)
    ensures Distinct(Outline(order))
  {
    forall i, j | 0 <= i < j < |order|
      ensures Outline(order)[i] != Outline(order)[j]
    {
      assert order[i] in Elements(order) && order[j] in Elements(order);
    }
  }

  lemma LeaderSurvivesPruning(c: Cron, s: string, room: nat, w: World, a: Answers, views: seq<map<string, Backup>>,
                              n: string, stamp: int)
    requires Lawful(c) && ClockInRange(a.now) && a.list.Some? && room <= EffectiveKeep(w.schedule.spec.keep)
    requires exists view :: view in views && Arranged(a.list.value, view, s)
    requires Leader(views, s, room, n, stamp) && n in AfterSpawn(c, s, w, a)
    ensures n in Pruned(AfterSpawn(c, s, w, a), a.list.value, w.schedule.spec.keep, a.deletes)
  {
    var view :| view in views && Arranged(a.list.value, view, s);
    var keep := EffectiveKeep(w.schedule.spec.keep);
    LeaderOfOne(views, view, s, room, n, stamp);
    LeaderIsNoVictim(view, s, room, n, stamp, a.list.value, keep);
    GoneAreVictims(Victims(Outline(a.list.value), keep), a.deletes);
  }

  lemma LeaderOfOne(views: seq<map<string, Backup>>, view: map<string, Backup>, s: string, room: nat, n: string,
                    stamp: int)
    requires view in views && Leader(views, s, room, n, stamp)
    ensures Leader([view], s, room, n, stamp)
  {
    SubsetSize(Rivals([view], s, stamp) - {n}, Rivals(views, s, stamp) - {n});
  }

  /** The create call either adds a later fire time, whose Backup retention then has room for, or adds nothing. */
  lemma SpawnKeepsLead(c: Cron, s: string, room: nat, w: World, a: Answers)
    requires Lawful(c) && Endless(c) && ClockInRange(a.now) && w.now <= a.now
    requires Inv(c, s, room, w) && Roomy(w, s, a.stamp, room)
    ensures var log, mid := w.log + Added(c, s, w, a), AfterSpawn(c, s, w, a);
            && Increasing(log)
            && Born(w.history + [mid], s, log)
            && (log != [] ==>
                  var f := log[|log| - 1];
                  f <= NextFire(c, a.now, w.Last()) && Leads(s, room, mid, w.history + [mid], f))
  {
    hide BackupName, Renderable, Born, Leader, Roomy;
    var fire := NextFire(c, a.now, w.Last());
    var mid := AfterSpawn(c, s, w, a);
    NextFireIsMonotone(c, w.now, w.Last(), a.now, w.Last());
    if mid != w.backups {
      DueRunIsRenderable(c, a.now, w.Last());
      var n := BackupName(s, fire);
      assert mid == w.backups[n := NewBackup(s, w.schedule.spec, a.stamp)];
      NewFireIsLater(c, s, room, w, fire);
      BornGrows(w.history, s, w.log, w.backups, mid, fire);
      NewNameIsUnseen(w.history, s, w.log, fire);
      NewChildLeads(w, s, room, n, NewBackup(s, w.schedule.spec, a.stamp));
    } else {
      assert w.log + Added(c, s, w, a) == w.log;
      PrunedViewsAreKnown(s, room, w.history, w.backups, w.backups, w.log);
    }
  }

  lemma RivalsOfOneMore(views: seq<map<string, Backup>>, next: map<string, Backup>, s: string, stamp: int, n: string)
    ensures n in Rivals(views + [next], s, stamp) <==> n in Rivals(views, s, stamp) || Rival(next, n, s, stamp)
  {
    hide Rival;
    var more := views + [next];
    assert forall view: map<string, Backup> :: view in more <==> view in views || view == next;
    assert Rival(next, n, s, stamp) ==> n in next by { RivalExists(next, n, s, stamp); }
  }

  lemma RivalExists(view: map<string, Backup>, n: string, s: string, stamp: int)
    ensures Rival(view, n, s, stamp) ==> n in view
  {
  }

  lemma NewChildLeads(w: World, s: string, room: nat, n: string, b: Backup)
    requires w.backups in w.history && n !in w.backups && b.schedule == s && Roomy(w, s, b.creationTimestamp, room)
    requires forall view :: view in w.history ==> !Own(view, n, s)
    ensures Leader(w.history + [w.backups[n := b]], s, room, n, b.creationTimestamp)
  {
    hide Rivals;
    var mid, stamp := w.backups[n := b], b.creationTimestamp;
    var before, after := Rivals(w.history, s, stamp), Rivals(w.history + [mid], s, stamp);
    forall m | m in after && m != n
      ensures m in before
    {
      RivalsOfOneMore(w.history, mid, s, stamp, m);
      ShownRival(w.history, w.backups, s, stamp, m);
    }
    SubsetSize(after - {n}, before);
  }

  lemma ShownRival(views: seq<map<string, Backup>>, view: map<string, Backup>, s: string, stamp: int, n: string)
    requires view in views
    ensures Rival(view, n, s, stamp) ==> n in Rivals(views, s, stamp)
  {
  }

  lemma BornGrows(views: seq<map<string, Backup>>, s: string, log: seq<int>, before: map<string, Backup>,
                  after: map<string, Backup>, fire: int)
    requires Born(views, s, log) && before in views && Nameable(fire)
    requires forall m :: Own(after, m, s) ==> m == BackupName(s, fire) || Own(before, m, s)
    ensures Born(views + [after], s, log + [fire])
  {
    hide BackupName, Renderable;
    var grown := log + [fire];
    assert forall f :: f in grown <==> f in log || f == fire;
    forall view, m | view in views + [after] && Own(view, m, s)
      ensures exists f :: f in grown && m == BackupName(s, f)
    {
      if view !in views && m == BackupName(s, fire) {
        assert fire in grown;
      } else {
        var known := if view in views then view else before;
        assert known in views && Own(known, m, s);
      }
    }
  }

  /** No view has ever shown a child with the name of a fire time that is not in the log. */
  lemma NewNameIsUnseen(views: seq<map<string, Backup>>, s: string, log: seq<int>, fire: int)
    requires Born(views, s, log) && Nameable(fire) && fire !in log
    ensures forall view :: view in views ==> !Own(view, BackupName(s, fire), s)
  {
    hide BackupName, Renderable;
    forall f | f in log
      ensures BackupName(s, f) != BackupName(s, fire)
    {
      BackupNamesAreInjective(s, f, s, fire);
    }
  }

  /** A fire time whose name is free lies after every fire time created so far. */
  lemma NewFireIsLater(c: Cron, s: string, room: nat, w: World, fire: int)
    requires Inv(c, s, room, w) && Nameable(fire) && BackupName(s, fire) !in w.backups
    requires fire >= NextFire(c, w.now, w.Last())
    ensures forall f :: f in w.log ==> f < fire
  {
    hide BackupName, Renderable;
    if w.log != [] {
      assert fire != w.log[|w.log| - 1];
    }
  }

  lemma ReconcileKeepsInv(lib: Library, c: Cron, s: string, room: nat, w: World, w': World, a: Answers)
    requires Inv(c, s, room, w) && Reconciled(lib, c, s, w, w', a) && Roomy(w, s, a.stamp, room)
    requires room <= EffectiveKeep(w.schedule.spec.keep)
    ensures Inv(c, s, room, w')
  {
    hide BackupName, Renderable, Born, Leader, ReconcileSchedule, Roomy;
    SpawnKeepsLead(c, s, room, w, a);
    ReconcileUnfolds(lib, c, s, w, a);
    var mid := AfterSpawn(c, s, w, a);
    if w'.log != [] {
      var f := w'.log[|w'.log| - 1];
      if Fires(c, w.schedule, a.now) {
        FiringMovesOn(c, a.now, w.Last());
      }
      assert f <= NextFire(c, w'.now, w'.Last());
      var n := BackupName(s, f);
      if a.list.Some? {
        LeaderSurvivesPruning(c, s, room, w, a, w.history + [mid], n, mid[n].creationTimestamp);
      }
    }
    var views := w.history + [mid];
    assert mid in views;
    assert w'.history == views + [w'.backups];
    PrunedViewsAreKnown(s, room, views, mid, w'.backups, w'.log);
  }

  /** Pruning shows no child that was not there before, so what holds of every earlier view goes on holding. */
  lemma PrunedViewsAreKnown(s: string, room: nat, views: seq<map<string, Backup>>, mid: map<string, Backup>,
                            pruned: map<string, Backup>, log: seq<int>)
    requires mid in views
    requires forall m :: m in pruned ==> m in mid && mid[m] == pruned[m]
    ensures Born(views, s, log) ==> Born(views + [pruned], s, log)
    ensures forall n, stamp :: Leader(views, s, room, n, stamp) ==> Leader(views + [pruned], s, room, n, stamp)
  {
    hide BackupName, Renderable;
    forall view, m | view in views + [pruned] && Own(view, m, s)
      ensures exists known :: known in views && Own(known, m, s) && known[m] == view[m]
    {
      var known := if view in views then view else mid;
      assert known in views && Own(known, m, s) && known[m] == view[m];
    }
    forall n, stamp | Leader(views, s, room, n, stamp)
      ensures Leader(views + [pruned], s, room, n, stamp)
    {
      KnownViewsKeepLeader(s, room, views, pruned, n, stamp);
    }
  }

  /** A view whose children were all shown before, under the same timestamps, adds no rival. */
  lemma KnownViewsKeepLeader(s: string, room: nat, views: seq<map<string, Backup>>, next: map<string, Backup>,
                             n: string, stamp: int)
    requires Leader(views, s, room, n, stamp)
    requires forall m :: Own(next, m, s) ==>
               exists known: map<string, Backup> ::
                 known in views && Own(known, m, s) && known[m].creationTimestamp == next[m].creationTimestamp
    ensures Leader(views + [next], s, room, n, stamp)
  {
    hide Rivals;
    var before, after := Rivals(views, s, stamp), Rivals(views + [next], s, stamp);
    forall m | m in after
      ensures m in before
    {
      RivalsOfOneMore(views, next, s, stamp, m);
      if Rival(next, m, s, stamp) {
        var known: map<string, Backup> :|
          known in views && Own(known, m, s) && known[m].creationTimestamp == next[m].creationTimestamp;
        ShownRival(views, known, s, stamp, m);
      }
    }
    SubsetSize(after - {n}, before - {n});
  }

  /** Once a run has been recorded as the last, the next one lies strictly later. */
  lemma FiringMovesOn(c: Cron, now: int, last: Option<int>)
    requires Lawful(c) && Endless(c) && Due(c, now, last)
    ensures NextFire(c, now, Some(NextFire(c, now, last))) > NextFire(c, now, last) > Reference(now, last)
  {
    NextIsLeastFire(c, Reference(now, last), NextFire(c, now, last));
    var f := NextFire(c, now, last);
    NextIsLeastFire(c, Reference(now, Some(f)), NextFire(c, now, Some(f)));
  }

  lemma DisturbanceKeepsInv(lib: Library, c: Cron, s: string, room: nat, w: World, w': World)
    requires Inv(c, s, room, w) && Disturbed(lib, c, s, w, w')
    ensures Inv(c, s, room, w')
  {
    hide BackupName, Renderable, Leader;
    NextFireIsMonotone(c, w.now, w.Last(), w'.now, w'.Last());
    assert Born([w'.backups], s, w.log) by {
      assert forall m :: Own(w'.backups, m, s) ==> Own(w.backups, m, s);
    }
    if w.log != [] {
      var n := BackupName(s, w.log[|w.log| - 1]);
      assert Own(w.backups, n, s);
      KnownViewsKeepLeader(s, room, w.history, w'.backups, n, w.backups[n].creationTimestamp);
    }
  }

  /** Over every run, however its create, delete and status calls fail, the reconciler adds the Backups of its fire
      times in strictly increasing order: no fire time is created twice, and none out of order.  Timestamps may repeat
      or even go back, as long as fewer than `room` children share or exceed that of a new one and `keep` leaves that
      many slots; with room for one this is a clock that ticks between creations, whatever `keep` is. */
  lemma {:induction false} FireTimesAreCreatedInOrder(lib: Library, c: Cron, s: string, room: nat, run: seq<World>)
    requires IsRun(lib, c, s, room, run)
    ensures Inv(c, s, room, run[|run| - 1])
    ensures Increasing(run[|run| - 1].log)
  {
    hide Roomy;
    var n := |run| - 1;
    if n > 0 {
      var w, w' := run[n - 1], run[n];
      assert Next(lib, c, s, room, w, w');
      FireTimesAreCreatedInOrder(lib, c, s, room, run[..n]);
      if Disturbed(lib, c, s, w, w') {
        DisturbanceKeepsInv(lib, c, s, room, w, w');
      } else {
        var a :| Reconciled(lib, c, s, w, w', a) && Roomy(w, s, a.stamp, room);
        ReconcileKeepsInv(lib, c, s, room, w, w', a);
      }
    }
  }

  // ---------------------------------------------------------------------------------------------
  // Complete catch-up
  // ---------------------------------------------------------------------------------------------

  predicate After(last: Option<int>, t: int) {
    last.None? || last.value < t
  }

  /** The step took the persisted last fire from before u to u or beyond, and it either found u at least 24 hours
      old, or asked for u itself and saw its Backup exist. */
  ghost predicate Accounted(s: string, w: World, w': World, u: int) {
    && After(w.Last(), u) && w'.Last().Some? && u <= w'.Last().value
    && (u <= w'.now - DAY
        || (u == w'.Last().value && Nameable(u) && exists view :: view in w'.history && BackupName(s, u) in view))
  }

  /** A step of a run whose creations may carry any timestamps, under any `keep`. */
  ghost predicate Follows(lib: Library, c: Cron, s: string, w: World, w': World) {
    (exists a :: Reconciled(lib, c, s, w, w', a)) || Disturbed(lib, c, s, w, w')
  }

  lemma StepAccounts(lib: Library, c: Cron, s: string, w: World, w': World, u: int)
    requires Follows(lib, c, s, w, w') && IsFire(c, u)
    requires After(w.Last(), u) && w'.Last().Some? && u <= w'.Last().value
    ensures Accounted(s, w, w', u)
  {
    hide BackupName, Renderable;
    assert !Disturbed(lib, c, s, w, w');
    var a :| Reconciled(lib, c, s, w, w', a);
    ReconcileUnfolds(lib, c, s, w, a);
    DueRunIsRenderable(c, a.now, w.Last());
    NextIsLeastFire(c, Reference(a.now, w.Last()), NextFire(c, a.now, w.Last()));
    if u > w'.now - DAY {
      assert BackupName(s, u) in AfterSpawn(c, s, w, a);
      assert AfterSpawn(c, s, w, a) in w'.history;
    }
  }

  /** No fire time is dropped silently: in every run, from any state and whatever timestamps creations carry, each fire
      time the persisted last fire has passed was passed by one reconcile that either saw its Backup exist or found it
      at least 24 hours old. */
  lemma {:induction false} NoFireTimeIsDropped(lib: Library, c: Cron, s: string, run: seq<World>, u: int)
    requires |run| > 0 && IsFire(c, u)
    requires forall i :: 0 <= i < |run| - 1 ==> Follows(lib, c, s, run[i], run[i + 1])
    requires var w := run[|run| - 1]; After(run[0].Last(), u) && w.Last().Some? && u <= w.Last().value
    ensures exists k :: 0 <= k < |run| - 1 && Accounted(s, run[k], run[k + 1], u)
  {
    hide Follows;
    var n := |run| - 1;
    assert Follows(lib, c, s, run[n - 1], run[n]);
    if After(run[n - 1].Last(), u) {
      StepAccounts(lib, c, s, run[n - 1], run[n], u);
    } else {
      NoFireTimeIsDropped(lib, c, s, run[..n], u);
      var k :| 0 <= k < n - 1 && Accounted(s, run[..n][k], run[..n][k + 1], u);
      assert Accounted(s, run[k], run[k + 1], u);
    }
  }

  lemma BackupsAreInHistory(c: Cron, s: string, room: nat, w: World)
    requires Inv(c, s, room, w)
    ensures w.backups in w.history
  {
  }
}
