/** A schedule's runs, seen as retention runs: what the schedule keeps of everything it ever created, and what
    goes wrong when two creations share a timestamp. */
module ScheduleRetention {
  import opened Prelude
  import opened Calendar
  import opened Cron
  import opened Objects
  import opened Retention
  import opened BackupSchedules
  import opened ScheduleRuns

  /** Every child any view has shown. */
  ghost function Seen(views: seq<map<string, Backup>>, s: string): set<Child> {
    set view: map<string, Backup>, n: string | view in views && n in view
        && view[n].schedule == s :: ChildOf(NamedBackup(n, view[n]))
  }

  ghost function Living(backups: map<string, Backup>, s: string): set<string> {
    set n | n in backups && backups[n].schedule == s
  }

  ghost function LedgerOf(w: World, s: string): Ledger {
    Ledger(Seen(w.history, s), Living(w.backups, s))
  }

  ghost predicate KeepsSettings(s: string, w: World, w': World) {
    && w'.schedule.spec.keep == w.schedule.spec.keep
    && forall n :: Own(w.backups, n, s) && Own(w'.backups, n, s) ==>
         w'.backups[n].retainForever == w.backups[n].retainForever
  }

  /** No two children ever stored share a timestamp. */
  ghost predicate StampsDiffer(s: string, w: World) {
    forall x, y :: x in Seen(w.history, s) && y in Seen(w.history, s) && x.name != y.name ==> x.created != y.created
  }

  /** A run in which nobody edits `keep` or a child's retainForever flag and timestamps differ.  They may go back, but
      only as far as the run's `room` allows, which `keep` bounds: fewer than `room` children may exceed a new one's
      timestamp, so with `keep` 1 timestamps increase. */
  ghost predicate IsSteadyRun(lib: Library, c: Cron, s: string, room: nat, run: seq<World>) {
    && IsRun(lib, c, s, room, run)
    && (forall i :: 0 <= i < |run| ==> StampsDiffer(s, run[i]))
    && (forall i :: 0 <= i < |run| - 1 && Disturbed(lib, c, s, run[i], run[i + 1]) ==>
          KeepsSettings(s, run[i], run[i + 1]))
  }

  /** Each of the `keep` newest Backups ever seen, and each flagged one, still exists. */
  ghost predicate NewestExist(s: string, keep: nat, w: World) {
    forall view: map<string, Backup>, n: string :: view in w.history && Own(view, n, s) ==>
      (Protected(Seen(w.history, s), ChildOf(NamedBackup(n, view[n])), keep) ==> Own(w.backups, n, s))
  }

  ghost predicate Retained(c: Cron, s: string, room: nat, keep: int, w: World) {
    Inv(c, s, room, w) && w.schedule.spec.keep == keep && Safe(LedgerOf(w, s), EffectiveKeep(keep))
  }

  lemma SeenSplits(views: seq<map<string, Backup>>, last: map<string, Backup>, s: string)
    ensures Seen(views + [last], s) == Seen(views, s) + Seen([last], s)
  {
    assert last in views + [last];
    assert forall view :: view in views ==> view in views + [last];
  }

  lemma SeenInOneView(view: map<string, Backup>, s: string, x: Child)
    ensures x in Seen([view], s) <==> Own(view, x.name, s) && x == ChildOf(NamedBackup(x.name, view[x.name]))
  {
    assert view in [view];
  }

  lemma {:induction false} SeenInViews(views: seq<map<string, Backup>>, view: map<string, Backup>, s: string)
    requires view in views
    ensures Seen([view], s) <= Seen(views, s)
  {
    assert view in [view];
  }

  lemma SeenGrows(view: map<string, Backup>, n: string, b: Backup, s: string)
    requires n !in view && b.schedule == s
    ensures Seen([view[n := b]], s) == Seen([view], s) + {ChildOf(NamedBackup(n, b))}
  {
    forall y
      ensures y in Seen([view[n := b]], s) <==> y == ChildOf(NamedBackup(n, b)) || y in Seen([view], s)
    {
      SeenInOneView(view[n := b], s, y);
      SeenInOneView(view, s, y);
    }
  }

  /** A child under a name and a timestamp no child ever had is a creation of the ledger. */
  lemma NewChildIsCreation(w: World, s: string, n: string, b: Backup)
    requires w.backups in w.history && n !in w.backups && b.schedule == s && !b.retainForever
    requires forall view :: view in w.history ==> !Own(view, n, s)
    requires forall y :: y in Seen(w.history, s) ==> y.created != b.creationTimestamp
    ensures var mid := w.backups[n := b];
            Created(LedgerOf(w, s), Ledger(Seen(w.history + [mid], s), Living(mid, s)))
  {
    hide Seen;
    var mid := w.backups[n := b];
    var l, l' := LedgerOf(w, s), Ledger(Seen(w.history + [mid], s), Living(mid, s));
    var x := ChildOf(NamedBackup(n, b));
    SeenSplits(w.history, mid, s);
    SeenInViews(w.history, w.backups, s);
    SeenGrows(w.backups, n, b, s);
    assert l'.ever == l.ever + {x};
    assert l'.live == l.live + {n};
    forall y | y in l.ever
      ensures y.name != n
    {
      SeenIsOwn(w.history, s, y);
    }
  }

  lemma SeenIsOwn(views: seq<map<string, Backup>>, s: string, y: Child)
    ensures y in Seen(views, s) ==> exists view :: view in views && Own(view, y.name, s)
  {
  }

  /** The create call is a creation of the ledger, or nothing. */
  lemma SpawnIsCreation(c: Cron, s: string, room: nat, w: World, a: Answers)
    requires Lawful(c) && Endless(c) && ClockInRange(a.now) && w.now <= a.now
    requires Inv(c, s, room, w)
    requires var mid := AfterSpawn(c, s, w, a);
             mid != w.backups ==> forall y :: y in Seen(w.history, s) ==> y.created != a.stamp
    ensures var mid := AfterSpawn(c, s, w, a);
            var l, l' := LedgerOf(w, s), Ledger(Seen(w.history + [mid], s), Living(mid, s));
            l' == l || Created(l, l')
  {
    hide BackupName, Renderable, Created, Seen, Living, Own, Leads;
    var mid := AfterSpawn(c, s, w, a);
    if mid != w.backups {
      var fire := NextFire(c, a.now, w.Last());
      DueRunIsRenderable(c, a.now, w.Last());
      NextFireIsMonotone(c, w.now, w.Last(), a.now, w.Last());
      NewFireIsLater(c, s, room, w, fire);
      NewNameIsUnseen(w.history, s, w.log, fire);
      NewChildIsCreation(w, s, BackupName(s, fire), NewBackup(s, w.schedule.spec, a.stamp));
    } else {
      SeenSplits(w.history, mid, s);
      SeenInViews(w.history, w.backups, s);
    }
  }

  /** The retention pass is a pass of the ledger, or nothing. */
  lemma PruningIsPass(s: string, views: seq<map<string, Backup>>, mid: map<string, Backup>, order: seq<NamedBackup>,
                      keep: int, deletes: string -> CallResult)
    requires mid in views
    requires exists view :: view in views && Arranged(order, view, s)
    ensures var pruned := Pruned(mid, order, keep, deletes);
            Passed(Ledger(Seen(views, s), Living(mid, s)), Ledger(Seen(views + [pruned], s), Living(pruned, s)),
                   EffectiveKeep(keep))
  {
    var pruned := Pruned(mid, order, keep, deletes);
    var view :| view in views && Arranged(order, view, s);
    var l, l' := Ledger(Seen(views, s), Living(mid, s)), Ledger(Seen(views + [pruned], s), Living(pruned, s));
    OutlineIsDistinct(view, s, order);
    forall x | x in Outline(order)
      ensures x in l.ever
    {
      OutlineComesFromView(view, s, order, x);
      SeenInOneView(view, s, x);
      SeenInViews(views, view, s);
    }
    SeenSplits(views, pruned, s);
    SeenInViews(views, mid, s);
    forall x | x in Seen([pruned], s)
      ensures x in Seen([mid], s)
    {
      SeenInOneView(pruned, s, x);
      SeenInOneView(mid, s, x);
    }
    assert l'.ever == l.ever;
    assert l'.live == l.live - Gone(Victims(Outline(order), EffectiveKeep(keep)), deletes);
    assert PassedOver(l, l', EffectiveKeep(keep), Outline(order), deletes);
  }

  /** A new child's timestamp is new if timestamps still differ after the step. */
  lemma NewStampDiffers(lib: Library, c: Cron, s: string, room: nat, w: World, w': World, a: Answers)
    requires Inv(c, s, room, w) && Reconciled(lib, c, s, w, w', a) && StampsDiffer(s, w')
    requires AfterSpawn(c, s, w, a) != w.backups
    ensures forall y :: y in Seen(w.history, s) ==> y.created != a.stamp
  {
    hide BackupName, Renderable, ReconcileSchedule, Leads, Born;
    var mid := AfterSpawn(c, s, w, a);
    var fire := NextFire(c, a.now, w.Last());
    DueRunIsRenderable(c, a.now, w.Last());
    NextFireIsMonotone(c, w.now, w.Last(), a.now, w.Last());
    NewFireIsLater(c, s, room, w, fire);
    NewNameIsUnseen(w.history, s, w.log, fire);
    var x := Child(BackupName(s, fire), a.stamp, false);
    assert mid in w'.history && mid[x.name] == NewBackup(s, w.schedule.spec, a.stamp);
    assert x in Seen(w'.history, s);
    forall y | y in Seen(w.history, s)
      ensures y.name != x.name && y in Seen(w'.history, s)
    {
      SeenIsOwn(w.history, s, y);
    }
  }

  lemma ReconcileRetains(lib: Library, c: Cron, s: string, room: nat, keep: int, w: World, w': World, a: Answers)
    requires Retained(c, s, room, keep, w) && Reconciled(lib, c, s, w, w', a) && Roomy(w, s, a.stamp, room)
    requires room <= EffectiveKeep(keep) && StampsDiffer(s, w')
    ensures Retained(c, s, room, keep, w')
  {
    hide BackupName, Renderable, Inv, Safe, Pruned, ReconcileSchedule, Seen, Living, StampsDiffer, Roomy;
    var mid := AfterSpawn(c, s, w, a);
    var views := w.history + [mid];
    assert mid in views;
    ReconcileKeepsInv(lib, c, s, room, w, w', a);
    ReconcileUnfolds(lib, c, s, w, a);
    if mid != w.backups {
      NewStampDiffers(lib, c, s, room, w, w', a);
    }
    SpawnIsCreation(c, s, room, w, a);
    var l, l1 := LedgerOf(w, s), Ledger(Seen(views, s), Living(mid, s));
    if l1 != l {
      CreationIsSafe(l, l1, EffectiveKeep(keep));
    }
    assert w'.history == views + [w'.backups];
    if w'.backups == mid {
      SeenSplits(views, mid, s);
      SeenInViews(views, mid, s);
      assert Seen(w'.history, s) == Seen(views, s);
    } else {
      PruningIsPass(s, views, mid, a.list.value, keep, a.deletes);
      PassIsSafe(l1, LedgerOf(w', s), EffectiveKeep(keep));
    }
  }

  lemma DisturbanceRetains(lib: Library, c: Cron, s: string, room: nat, keep: int, w: World, w': World)
    requires Retained(c, s, room, keep, w) && Disturbed(lib, c, s, w, w') && KeepsSettings(s, w, w')
    ensures Retained(c, s, room, keep, w')
  {
    hide BackupName, Renderable, Inv, Safe;
    DisturbanceKeepsInv(lib, c, s, room, w, w');
    SeenSplits(w.history, w'.backups, s);
    assert w.backups in w.history by {
      BackupsAreInHistory(c, s, room, w);
    }
    SeenInViews(w.history, w.backups, s);
    forall x | x in Seen([w'.backups], s)
      ensures x in Seen([w.backups], s)
    {
      SeenInOneView(w'.backups, s, x);
      SeenInOneView(w.backups, s, x);
      assert Own(w'.backups, x.name, s);
    }
    assert LedgerOf(w', s).ever == LedgerOf(w, s).ever;
    forall n
      ensures n in Living(w.backups, s) <==> n in Living(w'.backups, s)
    {
      assert Own(w.backups, n, s) <==> Own(w'.backups, n, s);
    }
    assert LedgerOf(w', s) == LedgerOf(w, s);
  }

  /** From the schedule's first reconcile on, whatever fails and however stale the lists are, each of the `keep`
      newest Backups it ever created (and each flagged one) still exists. */
  lemma {:induction false} ScheduleKeepsItsNewest(lib: Library, c: Cron, s: string, room: nat, run: seq<World>)
    requires IsSteadyRun(lib, c, s, room, run)
    ensures Retained(c, s, room, run[0].schedule.spec.keep, run[|run| - 1])
    ensures NewestExist(s, EffectiveKeep(run[0].schedule.spec.keep), run[|run| - 1])
  {
    var n := |run| - 1;
    var keep := run[0].schedule.spec.keep;
    if n == 0 {
      NothingSeenInitially(run[0], s);
    } else {
      assert Next(lib, c, s, room, run[n - 1], run[n]);
      var before := run[..n];
      assert forall i :: 0 <= i < n - 1 && Disturbed(lib, c, s, before[i], before[i + 1]) ==>
               Disturbed(lib, c, s, run[i], run[i + 1]);
      ScheduleKeepsItsNewest(lib, c, s, room, before);
      StepRetains(lib, c, s, room, keep, run[n - 1], run[n]);
    }
    RetainedSpelledOut(c, s, room, keep, run[n]);
  }

  lemma NothingSeenInitially(w: World, s: string)
    requires Initial(w, s)
    ensures LedgerOf(w, s) == Ledger({}, {})
  {
    forall x
      ensures x !in Seen(w.history, s)
    {
      SeenInOneView(w.backups, s, x);
    }
    forall n
      ensures n !in Living(w.backups, s)
    {
      assert !Own(w.backups, n, s);
    }
  }

  lemma StepRetains(lib: Library, c: Cron, s: string, room: nat, keep: int, w: World, w': World)
    requires Retained(c, s, room, keep, w) && Next(lib, c, s, room, w, w') && StampsDiffer(s, w')
    requires Disturbed(lib, c, s, w, w') ==> KeepsSettings(s, w, w')
    ensures Retained(c, s, room, keep, w')
  {
    if Disturbed(lib, c, s, w, w') {
      DisturbanceRetains(lib, c, s, room, keep, w, w');
    } else {
      var a :| Reconciled(lib, c, s, w, w', a) && Roomy(w, s, a.stamp, room);
      ReconcileRetains(lib, c, s, room, keep, w, w', a);
    }
  }

  lemma RetainedSpelledOut(c: Cron, s: string, room: nat, keep: int, w: World)
    requires Retained(c, s, room, keep, w)
    ensures NewestExist(s, EffectiveKeep(keep), w)
  {
    hide BackupName, Renderable, Inv, Protected;
    forall view, n | view in w.history && Own(view, n, s)
      ensures ChildOf(NamedBackup(n, view[n])) in Seen(w.history, s)
    {
    }
  }

  // ---------------------------------------------------------------------------------------------
  // Creation timestamps have to differ
  // ---------------------------------------------------------------------------------------------

  /** Calls of a reconcile whose creation is stamped like an existing child, whose list shows that child first and
      whose status write is lost. */
  ghost function TiedAnswers(w: World, s: string, fire: int, elder: NamedBackup): Answers
    requires Renderable(fire)
  {
    var stamp := elder.backup.creationTimestamp;
    var newest := NamedBackup(BackupName(s, fire), NewBackup(s, w.schedule.spec, stamp));
    Answers(w.now, 0, Acknowledged, stamp, Some([elder, newest]), _ => Acknowledged, None, Lost)
  }

  lemma ChildrenGrow(backups: map<string, Backup>, s: string, x: NamedBackup)
    requires x.name !in backups && x.backup.schedule == s
    ensures Children(backups[x.name := x.backup], s) == Children(backups, s) + {x}
  {
    var grown := backups[x.name := x.backup];
    forall y
      ensures y in Children(grown, s) <==> y in Children(backups, s) || y == x
    {
      if y.name == x.name && y in Children(grown, s) { assert y == x; }
    }
  }

  /** The pass deletes the Backup the same reconcile has just created. */
  lemma TiedCreationIsDeleted(lib: Library, c: Cron, s: string, w: World, elder: NamedBackup)
    requires Denotes(lib, w, c) && ClockInRange(w.now) && Fires(c, w.schedule, w.now)
    requires w.schedule.spec.keep == 1 && Children(w.backups, s) == {elder} && !elder.backup.retainForever
    requires var f := NextFire(c, w.now, w.Last()); Renderable(f) && BackupName(s, f) !in w.backups
    ensures var f := NextFire(c, w.now, w.Last());
            var a := TiedAnswers(w, s, f, elder);
            var mid := AfterSpawn(c, s, w, a);
            Reconciled(lib, c, s, w, World(w.now, w.schedule, w.backups, w.history + [mid, w.backups], w.log + [f]), a)
  {
    hide BackupName, Renderable;
    var f := NextFire(c, w.now, w.Last());
    var a := TiedAnswers(w, s, f, elder);
    var mid := AfterSpawn(c, s, w, a);
    var n := BackupName(s, f);
    var newest := NamedBackup(n, NewBackup(s, w.schedule.spec, elder.backup.creationTimestamp));
    var order := [elder, newest];
    assert elder in Children(w.backups, s);
    assert mid == w.backups[n := newest.backup];
    ChildrenGrow(w.backups, s, newest);
    assert Elements(order) == {elder, newest};
    assert Arranged(order, mid, s);
    var children := Outline(order);
    VictimsAreTheTail(children, 1);
    assert Expendable(children[1..]) == [ChildOf(newest)] + Expendable(children[1..][1..]);
    assert Expendable(children) == [ChildOf(elder), ChildOf(newest)];
    assert Victims(children, 1) == [n];
    GoneAreVictims([n], a.deletes);
    assert Pruned(mid, order, 1, a.deletes) == w.backups;
  }

  /** With equal creation timestamps the guarantees fail: the newest Backup can be deleted right after its creation,
      and when the status write is lost as well the same fire time is created again. */
  lemma EqualTimestampsCreateTwice(lib: Library, c: Cron, s: string, w: World, elder: NamedBackup)
    requires Denotes(lib, w, c) && ClockInRange(w.now) && Fires(c, w.schedule, w.now)
    requires w.schedule.spec.keep == 1 && Children(w.backups, s) == {elder} && !elder.backup.retainForever
    requires var f := NextFire(c, w.now, w.Last()); Renderable(f) && BackupName(s, f) !in w.backups
    ensures exists w1, w2, a1, a2 ::
              && Reconciled(lib, c, s, w, w1, a1) && Reconciled(lib, c, s, w1, w2, a2)
              && a1.stamp == a2.stamp == elder.backup.creationTimestamp
              && var f := NextFire(c, w.now, w.Last()); w2.log == w.log + [f, f] && BackupName(s, f) !in w2.backups
  {
    var f := NextFire(c, w.now, w.Last());
    var a1 := TiedAnswers(w, s, f, elder);
    var w1 := World(w.now, w.schedule, w.backups, w.history + [AfterSpawn(c, s, w, a1), w.backups], w.log + [f]);
    TiedCreationIsDeleted(lib, c, s, w, elder);
    var a2 := TiedAnswers(w1, s, f, elder);
    var w2 := World(w1.now, w1.schedule, w1.backups, w1.history + [AfterSpawn(c, s, w1, a2), w1.backups], w1.log + [f]);
    TiedCreationIsDeleted(lib, c, s, w1, elder);
    assert w2.log == w.log + [f, f];
  }
}
