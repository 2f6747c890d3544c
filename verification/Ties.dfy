/** Creation timestamps that tie: when the order a list happens to come in decides that a reconcile deletes the Backup
    it has just created. */
module Ties {
  import opened Prelude
  import opened Calendar
  import opened Cron
  import opened Objects
  import opened Retention
  import opened BackupSchedules
  import opened ScheduleRuns
  import opened SuccessTimes

  predicate Contends(backups: map<string, Backup>, s: string, stamp: int, m: string) {
    Rival(backups, m, s, stamp) && !backups[m].retainForever
  }

  /** The children subject to retention, other than n, that share or exceed a timestamp. */
  ghost function Contenders(backups: map<string, Backup>, s: string, stamp: int, n: string): set<string> {
    set m | m in backups && m != n && Contends(backups, s, stamp, m)
  }

  // ---------------------------------------------------------------------------------------------
  // A newest-first order that lists one Backup last among its equals
  // ---------------------------------------------------------------------------------------------

  lemma {:induction false} NewestOf(xs: set<NamedBackup>) returns (m: NamedBackup)
    requires xs != {}
    ensures m in xs && forall x :: x in xs ==> x.backup.creationTimestamp <= m.backup.creationTimestamp
  {
    m :| m in xs;
    var rest := xs - {m};
    assert forall x :: x in xs <==> x == m || x in rest;
    if rest != {} {
      var n := NewestOf(rest);
      if n.backup.creationTimestamp > m.backup.creationTimestamp {
        m := n;
      }
    }
  }

  predicate Lists(order: seq<NamedBackup>, xs: set<NamedBackup>) {
    Distinct(order) && Elements(order) == xs && Newest(order)
  }

  lemma {:induction false} SomeOrder(xs: set<NamedBackup>) returns (order: seq<NamedBackup>)
    ensures Lists(order, xs)
  {
    order := [];
    if xs != {} {
      var m := NewestOf(xs);
      var rest := SomeOrder(xs - {m});
      order := [m] + rest;
      forall j | 0 <= j < |rest|
        ensures rest[j] in xs && rest[j] != m
      {
        assert rest[j] in Elements(rest);
      }
      assert Elements(order) == {m} + Elements(rest);
    }
  }

  /** Listing the newer ones, then x, then the older ones. */
  lemma Joined(newer: seq<NamedBackup>, x: NamedBackup, older: seq<NamedBackup>, all: set<NamedBackup>)
    requires Lists(newer, set y | y in all && y != x && y.backup.creationTimestamp >= x.backup.creationTimestamp)
    requires Lists(older, set y | y in all && y.backup.creationTimestamp < x.backup.creationTimestamp)
    requires x in all
    ensures Lists(newer + [x] + older, all)
  {
    var order, n := newer + [x] + older, |newer|;
    forall i | 0 <= i < n
      ensures order[i] != x && order[i].backup.creationTimestamp >= x.backup.creationTimestamp
    {
      assert order[i] in Elements(newer);
    }
    forall i | n < i < |order|
      ensures order[i] == older[i - n - 1] && order[i].backup.creationTimestamp < x.backup.creationTimestamp
    {
      assert order[i] in Elements(older);
    }
    forall y
      ensures y in order <==> y in all
    {
      assert y in order <==> y in Elements(newer) || y == x || y in Elements(older);
    }
    assert Elements(order) == all;
  }

  // ---------------------------------------------------------------------------------------------
  // One pass
  // ---------------------------------------------------------------------------------------------

  /** Whoever is listed ahead of a child and subject to retention contends with it. */
  lemma AheadContends(order: seq<NamedBackup>, view: map<string, Backup>, s: string, i: nat, y: Child)
    requires Arranged(order, view, s) && i < |order| && y in Expendable(Outline(order[..i]))
    ensures y.name in Contenders(view, s, order[i].backup.creationTimestamp, order[i].name)
  {
    hide Distinct, IsListing, Expendable;
    var children := Outline(order);
    ExpendableFilters(Outline(order[..i]));
    var q :| 0 <= q < i && Outline(order[..i])[q] == y;
    assert children[q] == y && children[i] == ChildOf(order[i]);
    OutlineComesFromView(view, s, order, y);
    DifferentNames(order, view, s, q, i);
  }

  lemma DifferentNames(order: seq<NamedBackup>, view: map<string, Backup>, s: string, i: nat, j: nat)
    requires IsListing(order, view, s) && i < j < |order|
    ensures order[i].name != order[j].name
  {
    assert order[i] in Elements(order) && order[j] in Elements(order);
  }

  lemma ExpendableNamesDiffer(order: seq<NamedBackup>, view: map<string, Backup>, s: string, i: nat)
    requires IsListing(order, view, s) && i <= |order|
    ensures Distinct(Names(Expendable(Outline(order[..i]))))
  {
    hide Expendable, IsListing;
    var e, items := Expendable(Outline(order[..i])), Outline(order);
    OutlineNames(order, view, s);
    OutlineIsDistinct(view, s, order);
    assert Outline(order[..i]) == items[..i];
    ExpendableFilters(items[..i]);
    forall j, k | 0 <= j < k < |e|
      ensures e[j].name != e[k].name
    {
      assert e[j] in items[..i] && e[k] in items[..i];
    }
  }

  lemma AheadContend(order: seq<NamedBackup>, view: map<string, Backup>, s: string, i: nat)
    requires Arranged(order, view, s) && i < |order|
    ensures |Expendable(Outline(order[..i]))|
            <= |Contenders(view, s, order[i].backup.creationTimestamp, order[i].name)|
  {
    hide Expendable, Contenders, IsListing, Distinct;
    var e := Expendable(Outline(order[..i]));
    ExpendableNamesDiffer(order, view, s, i);
    DistinctElements(Names(e));
    forall m | m in Elements(Names(e))
      ensures m in Contenders(view, s, order[i].backup.creationTimestamp, order[i].name)
    {
      var j :| 0 <= j < |e| && Names(e)[j] == m;
      AheadContends(order, view, s, i, e[j]);
    }
    SubsetSize(Elements(Names(e)), Contenders(view, s, order[i].backup.creationTimestamp, order[i].name));
  }

  lemma {:induction false} ElementsAtMost<T>(xs: seq<T>)
    ensures |Elements(xs)| <= |xs|
  {
    if xs == [] {
      assert Elements(xs) == {};
    } else {
      ElementsAtMost(xs[1..]);
      assert Elements(xs) == {xs[0]} + Elements(xs[1..]);
    }
  }

  /** Some newest-first order lists all of a child's contenders ahead of it. */
  lemma ContendersAhead(view: map<string, Backup>, s: string, n: string) returns (order: seq<NamedBackup>, i: nat)
    requires Own(view, n, s)
    ensures Arranged(order, view, s) && i < |order| && order[i] == NamedBackup(n, view[n])
    ensures |Expendable(Outline(order[..i]))| >= |Contenders(view, s, view[n].creationTimestamp, n)|
  {
    var x, all := NamedBackup(n, view[n]), Children(view, s);
    var stamp := view[n].creationTimestamp;
    var newer := SomeOrder(set y | y in all && y != x && y.backup.creationTimestamp >= stamp);
    var older := SomeOrder(set y | y in all && y.backup.creationTimestamp < stamp);
    Joined(newer, x, older, all);
    order, i := newer + [x] + older, |newer|;
    assert NewestFirst(Outline(order));
    assert order[..i] == newer;
    var e := Expendable(Outline(newer));
    ExpendableMembers(Outline(newer));
    forall m | m in Contenders(view, s, stamp, n)
      ensures m in Elements(Names(e))
    {
      var y := NamedBackup(m, view[m]);
      assert y in Elements(newer);
      var q :| 0 <= q < |newer| && newer[q] == y;
      assert Outline(newer)[q] == ChildOf(y);
      assert ChildOf(y) in e;
      var j :| 0 <= j < |e| && e[j] == ChildOf(y);
      assert Names(e)[j] == m;
    }
    SubsetSize(Contenders(view, s, stamp, n), Elements(Names(e)));
    ElementsAtMost(Names(e));
  }

  /** Some newest-first order of the children makes one a victim exactly when at least `keep` others subject to
      retention share or exceed its timestamp. */
  lemma SomeOrderDeletesIff(view: map<string, Backup>, s: string, n: string, keep: nat)
    requires Own(view, n, s) && !view[n].retainForever
    ensures (exists order :: Arranged(order, view, s) && n in Victims(Outline(order), keep)) <==>
            |Contenders(view, s, view[n].creationTimestamp, n)| >= keep
  {
    hide Contenders;
    var x := NamedBackup(n, view[n]);
    if order :| Arranged(order, view, s) && n in Victims(Outline(order), keep) {
      assert x in Children(view, s) && x in Elements(order);
      var i :| 0 <= i < |order| && order[i] == x;
      VictimsAreNotSpared(order, view, s, keep, i);
      AheadContend(order, view, s, i);
    }
    if |Contenders(view, s, view[n].creationTimestamp, n)| >= keep {
      var order, i := ContendersAhead(view, s, n);
      VictimsAreNotSpared(order, view, s, keep, i);
    }
  }

  // ---------------------------------------------------------------------------------------------
  // One reconcile
  // ---------------------------------------------------------------------------------------------

  /** The state a reconcile leaves, on the retention list it is answered with. */
  ghost function Leaves(lib: Library, c: Cron, s: string, w: World, a: Answers, order: seq<NamedBackup>): World
    requires Denotes(lib, w, c) && ClockInRange(a.now)
  {
    var b := a.(list := Some(order));
    var out := ReconcileSchedule(lib, s, w.schedule, w.backups, b);
    World(a.now, out.schedule, out.backups, w.history + [AfterSpawn(c, s, w, b), out.backups],
          w.log + Added(c, s, w, b))
  }

  /** Some newest-first order of a fresh list makes the reconcile delete the Backup it creates. */
  ghost predicate CanDeleteItsOwn(lib: Library, c: Cron, s: string, w: World, a: Answers)
    requires Denotes(lib, w, c) && ClockInRange(a.now) && Fires(c, w.schedule, a.now)
  {
    DueRunIsRenderable(c, a.now, w.Last());
    var n := BackupName(s, NextFire(c, a.now, w.Last()));
    exists order ::
      && Arranged(order, AfterSpawn(c, s, w, a), s)
      && Reconciled(lib, c, s, w, Leaves(lib, c, s, w, a, order), a.(list := Some(order)))
      && n !in Leaves(lib, c, s, w, a, order).backups
  }

  /** Exactly when a reconcile whose create and delete calls succeed can delete the Backup it has just created, for want
      of luck with the order of equal timestamps: at least `keep` other children subject to retention share or exceed
      the new one's timestamp. */
  lemma TiedCreationIsDeletedIff(lib: Library, c: Cron, s: string, w: World, a: Answers)
    requires Denotes(lib, w, c) && ClockInRange(a.now) && w.now <= a.now && Fires(c, w.schedule, a.now)
    requires a.create.Acknowledged? && forall m :: a.deletes(m) == Acknowledged
    requires var f := NextFire(c, a.now, w.Last()); Renderable(f) && BackupName(s, f) !in w.backups
    ensures var n := BackupName(s, NextFire(c, a.now, w.Last()));
            CanDeleteItsOwn(lib, c, s, w, a) <==>
            |Contenders(w.backups, s, a.stamp, n)| >= EffectiveKeep(w.schedule.spec.keep)
  {
    hide BackupName, Renderable, Contenders, Arranged, Victims;
    var n := BackupName(s, NextFire(c, a.now, w.Last()));
    var mid, keep := AfterSpawn(c, s, w, a), EffectiveKeep(w.schedule.spec.keep);
    assert mid == w.backups[n := NewBackup(s, w.schedule.spec, a.stamp)];
    SameContenders(w.backups, s, n, NewBackup(s, w.schedule.spec, a.stamp));
    SomeOrderDeletesIff(mid, s, n, keep);
    forall order | Arranged(order, mid, s)
      ensures Reconciled(lib, c, s, w, Leaves(lib, c, s, w, a, order), a.(list := Some(order)))
      ensures n !in Leaves(lib, c, s, w, a, order).backups <==> n in Victims(Outline(order), keep)
    {
      GoneAreVictims(Victims(Outline(order), keep), a.deletes);
    }
  }

  lemma SameContenders(backups: map<string, Backup>, s: string, n: string, b: Backup)
    ensures Contenders(backups[n := b], s, b.creationTimestamp, n) == Contenders(backups, s, b.creationTimestamp, n)
  {
  }
}
