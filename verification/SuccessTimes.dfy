/** The success time a schedule records: when a reconcile moves it back, although it is meant as the latest success. */
module SuccessTimes {
  import opened Prelude
  import opened Conditions
  import opened Calendar
  import opened Cron
  import opened Objects
  import opened Retention
  import opened BackupSchedules
  import opened ScheduleRuns

  /** The success time is not monotone: it moves back exactly when some listed child succeeded and every one that did
      has an earlier snapshot than the one recorded. */
  lemma LastSuccessMovesBackIff(st: ScheduleStatus, items: seq<NamedBackup>)
    requires st.lastSuccessfulTime.Some?
    ensures var before, after := st.lastSuccessfulTime, Refreshed(st, items).lastSuccessfulTime;
            && after.Some?
            && (after.value < before.value <==>
                && (exists x :: x in items && IsSuccess(x.backup))
                && (forall x :: x in items && IsSuccess(x.backup) ==>
                      x.backup.status.creationTime.value < before.value))
  {
    LatestSuccessIsMaximal(items);
  }

  // ---------------------------------------------------------------------------------------------
  // Places in line
  // ---------------------------------------------------------------------------------------------

  /** The pass leaves the i-th listed Backup alone: it is pinned, or fewer than `keep` Backups subject to retention are
      ahead of it. */
  predicate Spared(order: seq<NamedBackup>, keep: nat, i: nat)
    requires i < |order|
  {
    order[i].backup.retainForever || |Expendable(Outline(order[..i]))| < keep
  }

  lemma {:induction false} ExpendableConcat(a: seq<Child>, b: seq<Child>)
    ensures Expendable(a + b) == Expendable(a) + Expendable(b)
  {
    if a == [] {
      assert a + b == b;
    } else {
      assert (a + b)[0] == a[0] && (a + b)[1..] == a[1..] + b;
      ExpendableConcat(a[1..], b);
    }
  }

  /** Where a child stands among those subject to retention. */
  lemma PlaceInLine(items: seq<Child>, i: nat)
    requires i < |items| && Distinct(items) && !items[i].retainForever
    ensures var e, p := Expendable(items), |Expendable(items[..i])|;
            p < |e| && e[p] == items[i] && forall q :: 0 <= q < |e| && e[q] == items[i] ==> q == p
  {
    var rest := items[i..];
    assert items == items[..i] + rest;
    ExpendableConcat(items[..i], rest);
    assert rest[0] == items[i];
    assert Expendable(rest) == [items[i]] + Expendable(rest[1..]);
    ExpendableFilters(items);
  }

  lemma VictimsAreNotSpared(order: seq<NamedBackup>, backups: map<string, Backup>, schedule: string, keep: nat, i: nat)
    requires Arranged(order, backups, schedule) && i < |order|
    ensures order[i].name in Victims(Outline(order), keep) <==> !Spared(order, keep, i)
  {
    var items := Outline(order);
    OutlineIsDistinct(backups, schedule, order);
    OutlineNames(order, backups, schedule);
    assert items[i] in items;
    VictimIff(items, keep, items[i]);
    ExpendableFilters(items);
    var e := Expendable(items);
    var tail := e[Min(keep, |e|)..];
    if items[i].retainForever {
      assert forall x :: x in tail ==> x in e;
    } else {
      PlaceInLine(items, i);
      assert items[..i] == Outline(order[..i]);
      var p := |Expendable(items[..i])|;
      if p >= keep {
        assert tail[p - keep] == items[i];
      }
    }
  }

  lemma OutlineNames(order: seq<NamedBackup>, backups: map<string, Backup>, schedule: string)
    requires IsListing(order, backups, schedule)
    ensures forall x, y :: x in Outline(order) && y in Outline(order) && x.name == y.name ==> x == y
  {
    forall x, y | x in Outline(order) && y in Outline(order) && x.name == y.name
      ensures x == y
    {
      var i :| 0 <= i < |order| && Outline(order)[i] == x;
      var j :| 0 <= j < |order| && Outline(order)[j] == y;
      assert order[i] in Elements(order) && order[j] in Elements(order);
    }
  }

  /** What a fresh list shows after a pass without errors: the Backups the pass spared. */
  lemma SurvivorsAreSpared(order: seq<NamedBackup>, after: seq<NamedBackup>, backups: map<string, Backup>,
                           schedule: string, keep: int, deletes: string -> CallResult)
    requires Arranged(order, backups, schedule) && forall n :: deletes(n) == Acknowledged
    requires IsListing(after, Pruned(backups, order, keep, deletes), schedule)
    ensures forall y :: y in after <==>
              exists i :: 0 <= i < |order| && order[i] == y && Spared(order, EffectiveKeep(keep), i)
  {
    hide Spared;
    var victims := Victims(Outline(order), EffectiveKeep(keep));
    GoneAreVictims(victims, deletes);
    forall y
      ensures y in after <==> exists i :: 0 <= i < |order| && order[i] == y && Spared(order, EffectiveKeep(keep), i)
    {
      assert y in after <==> y in Elements(after);
      assert y in order <==> y in Elements(order);
      assert y in after <==> y in order && y.name !in victims;
      forall i | 0 <= i < |order|
        ensures order[i].name in victims <==> !Spared(order, EffectiveKeep(keep), i)
      {
        VictimsAreNotSpared(order, backups, schedule, EffectiveKeep(keep), i);
      }
    }
  }

  // ---------------------------------------------------------------------------------------------
  // Over one reconcile
  // ---------------------------------------------------------------------------------------------

  /** The Backups the retention pass of a reconcile finds. */
  ghost function BeforePass(c: Cron, name: string, bs: BackupSchedule, backups: map<string, Backup>, a: Answers)
    : map<string, Backup>
    requires Lawful(c) && ClockInRange(a.now)
  {
    if Fires(c, bs, a.now) then
      DueRunIsRenderable(c, a.now, bs.status.lastScheduleTime);
      Spawned(backups, name, bs.spec, NextFire(c, a.now, bs.status.lastScheduleTime), a.create, a.stamp)
    else backups
  }

  /** The reconcile gets to its status write, and the write takes effect. */
  ghost predicate StoresStatus(c: Cron, bs: BackupSchedule, a: Answers) {
    (Fires(c, bs, a.now) ==> a.create.Acknowledged?) && a.write.TookEffect()
  }

  /** Retention and refresh both read fresh lists, and no delete fails. */
  ghost predicate FreshLists(c: Cron, name: string, bs: BackupSchedule, backups: map<string, Backup>, a: Answers)
    requires Lawful(c) && ClockInRange(a.now)
  {
    && a.list.Some? && Arranged(a.list.value, BeforePass(c, name, bs, backups, a), name)
    && (forall n :: a.deletes(n) == Acknowledged)
    && a.refresh.Some?
    && IsListing(a.refresh.value,
                 Pruned(BeforePass(c, name, bs, backups, a), a.list.value, bs.spec.keep, a.deletes), name)
  }

  lemma RecordedAfter(c: Cron, name: string, bs: BackupSchedule, backups: map<string, Backup>, a: Answers)
    requires Lawful(c) && ClockInRange(a.now) && a.refresh.Some?
    ensures ReconcileParsed(c, name, bs, backups, a).schedule.status.lastSuccessfulTime ==
            if StoresStatus(c, bs, a) then Refreshed(bs.status, a.refresh.value).lastSuccessfulTime
            else bs.status.lastSuccessfulTime
  {
    hide LatestSuccess, Active, Put, Spawned, Pruned;
  }

  /** Whatever a reconcile's calls come to and however stale its lists are, it moves the recorded success time back
      exactly when it stores its status and the list it refreshes from shows some success but only earlier ones. */
  lemma ReconcileMovesBackIff(c: Cron, name: string, bs: BackupSchedule, backups: map<string, Backup>, a: Answers)
    requires Lawful(c) && ClockInRange(a.now) && bs.status.lastSuccessfulTime.Some?
    ensures var before, after := bs.status.lastSuccessfulTime,
                                 ReconcileParsed(c, name, bs, backups, a).schedule.status.lastSuccessfulTime;
            && after.Some?
            && (after.value < before.value <==>
                && StoresStatus(c, bs, a) && a.refresh.Some?
                && (exists x :: x in a.refresh.value && IsSuccess(x.backup))
                && (forall x :: x in a.refresh.value && IsSuccess(x.backup) ==>
                      x.backup.status.creationTime.value < before.value))
  {
    hide LatestSuccess, Active, Put, Spawned, Pruned;
    if a.refresh.Some? {
      RecordedAfter(c, name, bs, backups, a);
      LastSuccessMovesBackIff(bs.status, a.refresh.value);
    }
  }

  /** Some successful Backup is spared, and all that are have an earlier snapshot than t. */
  predicate OnlyEarlierSuccessesSpared(order: seq<NamedBackup>, keep: nat, t: int) {
    && (exists i :: 0 <= i < |order| && IsSuccess(order[i].backup) && Spared(order, keep, i))
    && (forall i :: 0 <= i < |order| && IsSuccess(order[i].backup) && Spared(order, keep, i) ==>
          order[i].backup.status.creationTime.value < t)
  }

  /** On fresh lists, exactly when a reconcile moves the recorded success time back: it stores its status, some success
      is spared, and all that are have an earlier snapshot than the recorded one, whether or not that one's Backup is
      still listed. */
  lemma RecordedSuccessMovesBackIff(c: Cron, name: string, bs: BackupSchedule, backups: map<string, Backup>,
                                    a: Answers)
    requires Lawful(c) && ClockInRange(a.now) && FreshLists(c, name, bs, backups, a)
    requires bs.status.lastSuccessfulTime.Some?
    ensures var order, keep := a.list.value, EffectiveKeep(bs.spec.keep);
            var before, after := bs.status.lastSuccessfulTime,
                                 ReconcileParsed(c, name, bs, backups, a).schedule.status.lastSuccessfulTime;
            && after.Some?
            && (after.value < before.value <==>
                StoresStatus(c, bs, a) && OnlyEarlierSuccessesSpared(order, keep, before.value))
  {
    hide ReconcileParsed, LatestSuccess, Pruned, Arranged, IsListing, BeforePass, StoresStatus;
    ReconcileMovesBackIff(c, name, bs, backups, a);
    SurvivorsAreSpared(a.list.value, a.refresh.value, BeforePass(c, name, bs, backups, a), name, bs.spec.keep,
        a.deletes);
    SparedSuccesses(a.list.value, a.refresh.value, EffectiveKeep(bs.spec.keep), bs.status.lastSuccessfulTime.value);
  }

  /** So when the recorded success is a listed Backup's, it moves back only if the pass deletes that Backup: it has
      `keep` others subject to retention ahead of it, finished or not. */
  lemma ListedSuccessMovesBackIff(c: Cron, name: string, bs: BackupSchedule, backups: map<string, Backup>,
                                  a: Answers, x: nat)
    requires Lawful(c) && ClockInRange(a.now) && FreshLists(c, name, bs, backups, a)
    requires x < |a.list.value| && IsSuccess(a.list.value[x].backup)
    requires bs.status.lastSuccessfulTime == a.list.value[x].backup.status.creationTime
    ensures var order, keep := a.list.value, EffectiveKeep(bs.spec.keep);
            var before, after := bs.status.lastSuccessfulTime,
                                 ReconcileParsed(c, name, bs, backups, a).schedule.status.lastSuccessfulTime;
            && after.Some?
            && (after.value < before.value <==>
                && StoresStatus(c, bs, a)
                && !order[x].backup.retainForever && |Expendable(Outline(order[..x]))| >= keep
                && OnlyEarlierSuccessesSpared(order, keep, before.value))
  {
    hide ReconcileParsed, StoresStatus, FreshLists;
    RecordedSuccessMovesBackIff(c, name, bs, backups, a);
  }

  /** The refresh sees only earlier successes exactly when the pass spares only such. */
  lemma SparedSuccesses(order: seq<NamedBackup>, after: seq<NamedBackup>, keep: nat, t: int)
    requires forall y :: y in after <==> exists i :: 0 <= i < |order| && order[i] == y && Spared(order, keep, i)
    ensures OnlyEarlierSuccessesSpared(order, keep, t) <==>
            && (exists y :: y in after && IsSuccess(y.backup))
            && (forall y :: y in after && IsSuccess(y.backup) ==> y.backup.status.creationTime.value < t)
  {
    hide Spared;
    forall i | 0 <= i < |order| && Spared(order, keep, i)
      ensures order[i] in after
    {
    }
  }

  // ---------------------------------------------------------------------------------------------
  // When the newest successes survive
  // ---------------------------------------------------------------------------------------------

  /** The listed Backups subject to retention. */
  function Counted(items: seq<NamedBackup>): seq<NamedBackup> {
    if items == [] then []
    else (if items[0].backup.retainForever then [] else [items[0]]) + Counted(items[1..])
  }

  lemma {:induction false} CountedAreExpendable(items: seq<NamedBackup>)
    ensures Outline(Counted(items)) == Expendable(Outline(items))
  {
    if items != [] {
      CountedAreExpendable(items[1..]);
      assert Outline(items)[1..] == Outline(items[1..]);
    }
  }

  /** How many of these Backups succeeded. */
  function Successes(items: seq<NamedBackup>): nat {
    if items == [] then 0
    else
      var n := |items| - 1;
      Successes(items[..n]) + if IsSuccess(items[n].backup) then 1 else 0
  }

  /** The first `keep` Backups hold `keep` successes exactly when each of them succeeded; any longer prefix holds no
      fewer, and more only if one of the later Backups succeeded. */
  lemma {:induction false} SuccessesOfPrefix(e: seq<NamedBackup>, keep: nat, p: nat)
    requires p <= |e|
    ensures Successes(e[..p]) <= p
    ensures Successes(e[..p]) == p <==> forall q :: 0 <= q < p ==> IsSuccess(e[q].backup)
    ensures keep <= p ==> Successes(e[..keep]) <= Successes(e[..p])
    ensures keep <= p && Successes(e[..keep]) < keep && (exists q :: keep <= q < p && IsSuccess(e[q].backup)) ==>
              exists q :: keep <= q < p && IsSuccess(e[q].backup) && Successes(e[..q]) < keep
    ensures keep <= p && (forall q :: keep <= q < p ==> !IsSuccess(e[q].backup)) ==>
              Successes(e[..p]) == Successes(e[..keep])
  {
    hide IsSuccess;
    if p > 0 {
      assert e[..p][..p - 1] == e[..p - 1];
      SuccessesOfPrefix(e, keep, p - 1);
    }
  }

  /** Keeping the first `keep` of a list keeps its `keep` newest successes exactly when none lies beyond, or no other
      Backup takes a slot. */
  lemma NewestSuccessesFitIff(e: seq<NamedBackup>, keep: nat)
    ensures (forall p :: 0 <= p < |e| && IsSuccess(e[p].backup) && Successes(e[..p]) < keep ==> p < keep) <==>
            || (forall p :: keep <= p < |e| ==> !IsSuccess(e[p].backup))
            || (forall p :: 0 <= p < keep ==> p < |e| && IsSuccess(e[p].backup))
  {
    hide IsSuccess, Successes;
    if keep < |e| {
      SuccessesOfPrefix(e, keep, keep);
      SuccessesOfPrefix(e, keep, |e|);
      forall p | keep <= p < |e|
        ensures Successes(e[..keep]) <= Successes(e[..p])
      {
        SuccessesOfPrefix(e, keep, p);
      }
    }
  }

  /** A fresh pass without errors keeps the `keep` newest successes subject to retention exactly when there is none
      beyond the first `keep` Backups subject to it, or these are all successes: otherwise one that is unfinished or
      failed survives in a success's place. */
  lemma NewestSuccessesSurviveIff(order: seq<NamedBackup>, after: seq<NamedBackup>, backups: map<string, Backup>,
                                  schedule: string, keep: int, deletes: string -> CallResult)
    requires Arranged(order, backups, schedule) && forall n :: deletes(n) == Acknowledged
    requires IsListing(after, Pruned(backups, order, keep, deletes), schedule)
    ensures var e, k := Counted(order), EffectiveKeep(keep);
            (forall p :: 0 <= p < |e| && IsSuccess(e[p].backup) && Successes(e[..p]) < k ==> e[p] in after) <==>
            || (forall p :: k <= p < |e| ==> !IsSuccess(e[p].backup))
            || (forall p :: 0 <= p < k ==> p < |e| && IsSuccess(e[p].backup))
  {
    hide IsSuccess, Successes;
    var e, k := Counted(order), EffectiveKeep(keep);
    forall p | 0 <= p < |e|
      ensures e[p] in after <==> p < k
    {
      CountedSurviveIff(order, after, backups, schedule, keep, deletes, p);
    }
    NewestSuccessesFitIff(e, k);
  }

  lemma {:induction false} CountedAreListed(items: seq<NamedBackup>)
    ensures forall x :: x in Counted(items) ==> x in items
  {
    if items != [] {
      CountedAreListed(items[1..]);
    }
  }

  lemma CountedSurviveIff(order: seq<NamedBackup>, after: seq<NamedBackup>, backups: map<string, Backup>,
                          schedule: string, keep: int, deletes: string -> CallResult, p: nat)
    requires Arranged(order, backups, schedule) && forall n :: deletes(n) == Acknowledged
    requires IsListing(after, Pruned(backups, order, keep, deletes), schedule)
    requires p < |Counted(order)|
    ensures Counted(order)[p] in after <==> p < EffectiveKeep(keep)
  {
    hide Counted, Victims, Gone, Expendable;
    var items, k, y := Outline(order), EffectiveKeep(keep), Counted(order)[p];
    CountedAreExpendable(order);
    CountedAreListed(order);
    var e := Expendable(items);
    assert e[p] == ChildOf(y);
    ExpendableFilters(items);
    OutlineIsDistinct(backups, schedule, order);
    OutlineNames(order, backups, schedule);
    assert e[p] in items;
    VictimIff(items, k, e[p]);
    assert e[p] in e[Min(k, |e|)..] <==> p >= k by {
      if p >= k {
        assert e[k..][p - k] == e[p];
      }
    }
    GoneAreVictims(Victims(items, k), deletes);
    assert y in after <==> y in Elements(after);
    assert y in order <==> y in Elements(order);
  }

  // ---------------------------------------------------------------------------------------------
  // Inputs
  // ---------------------------------------------------------------------------------------------

  /** With one slot, a new Backup still in progress displaces the latest success, only an older pinned one is left, and
      the recorded success time moves back to it. */
  lemma UnfinishedBackupDisplacesSuccess(c: Cron, name: string, bs: BackupSchedule, backups: map<string, Backup>,
                                         a: Answers, running: NamedBackup, latest: NamedBackup, pinned: NamedBackup)
    requires Lawful(c) && ClockInRange(a.now) && bs.spec.suspend && bs.spec.keep == 1 && a.write.TookEffect()
    requires running.name != latest.name && latest.name != pinned.name && running.name != pinned.name
    requires Children(backups, name) == {running, latest, pinned}
    requires running.backup.creationTimestamp > latest.backup.creationTimestamp > pinned.backup.creationTimestamp
    requires IsActive(running.backup) && IsSuccess(latest.backup) && IsSuccess(pinned.backup)
    requires pinned.backup.retainForever && !latest.backup.retainForever && !running.backup.retainForever
    requires pinned.backup.status.creationTime.value < latest.backup.status.creationTime.value
    requires bs.status.lastSuccessfulTime == latest.backup.status.creationTime
    requires a.list == Some([running, latest, pinned]) && a.refresh == Some([running, pinned])
    requires a.deletes == (_ => Acknowledged)
    ensures FreshLists(c, name, bs, backups, a)
    ensures var after := ReconcileParsed(c, name, bs, backups, a).schedule.status.lastSuccessfulTime;
            after == pinned.backup.status.creationTime && after.value < bs.status.lastSuccessfulTime.value
  {
    hide ReconcileParsed, LatestSuccess, Refreshed;
    var order := [running, latest, pinned];
    assert Elements(order) == {running, latest, pinned};
    var children := Outline(order);
    assert children[1..] == [ChildOf(latest), ChildOf(pinned)];
    assert children[1..][1..] == [ChildOf(pinned)];
    assert Victims([ChildOf(pinned)], 0) == [];
    assert Victims(children[1..], 0) == [latest.name];
    assert Victims(children, 1) == [latest.name];
    GoneIs(latest.name);
    var pruned := Pruned(backups, order, 1, _ => Acknowledged);
    assert pruned == backups - {latest.name};
    AfterDisplacement(backups, name, running, latest, pinned);
    LatestOfTwo(running, pinned);
    RecordedAfter(c, name, bs, backups, a);
    assert StoresStatus(c, bs, a);
    RefreshedTo(bs.status, a.refresh.value);
  }

  /** When a user deletes the Backup of the latest success, the recorded time falls back to an older one, although the
      pass deletes nothing. */
  lemma RemovedSuccessIsForgotten(c: Cron, name: string, bs: BackupSchedule, backups: map<string, Backup>, a: Answers,
                                  older: NamedBackup)
    requires Lawful(c) && ClockInRange(a.now) && bs.spec.suspend && a.write.TookEffect()
    requires Children(backups, name) == {older} && IsSuccess(older.backup)
    requires bs.status.lastSuccessfulTime.Some?
    requires older.backup.status.creationTime.value < bs.status.lastSuccessfulTime.value
    requires a.list == Some([older]) && a.refresh == Some([older]) && a.deletes == (_ => Acknowledged)
    ensures FreshLists(c, name, bs, backups, a)
    ensures ReconcileParsed(c, name, bs, backups, a).backups == backups
    ensures var after := ReconcileParsed(c, name, bs, backups, a).schedule.status.lastSuccessfulTime;
            after == older.backup.status.creationTime && after.value < bs.status.lastSuccessfulTime.value
  {
    hide LatestSuccess, Refreshed;
    var order, keep := [older], EffectiveKeep(bs.spec.keep);
    assert Elements(order) == {older};
    assert Outline(order) == [ChildOf(older)];
    assert Victims([ChildOf(older)], keep) == [];
    assert Pruned(backups, order, bs.spec.keep, a.deletes) == backups;
    LatestOfOne(older);
    RecordedAfter(c, name, bs, backups, a);
    assert StoresStatus(c, bs, a);
    RefreshedTo(bs.status, a.refresh.value);
  }

  lemma LatestOfOne(x: NamedBackup)
    requires IsSuccess(x.backup)
    ensures LatestSuccess([x]) == x.backup.status.creationTime
  {
    assert [x][..0] == [];
  }

  lemma RefreshedTo(st: ScheduleStatus, items: seq<NamedBackup>)
    ensures LatestSuccess(items).Some? ==> Refreshed(st, items).lastSuccessfulTime == LatestSuccess(items)
  {
  }

  lemma LatestOfTwo(running: NamedBackup, pinned: NamedBackup)
    requires IsActive(running.backup) && IsSuccess(pinned.backup)
    ensures LatestSuccess([running, pinned]) == pinned.backup.status.creationTime
  {
    assert [running, pinned][..1] == [running];
    assert [running][..0] == [];
    assert LatestSuccess([running]) == None;
  }

  lemma GoneIs(name: string)
    ensures Gone([name], _ => Acknowledged) == {name}
  {
    assert Gone([name][1..], _ => Acknowledged) == {};
  }

  lemma AfterDisplacement(backups: map<string, Backup>, schedule: string, running: NamedBackup, latest: NamedBackup,
                          pinned: NamedBackup)
    requires running.name != latest.name && latest.name != pinned.name && running.name != pinned.name
    requires Children(backups, schedule) == {running, latest, pinned}
    ensures IsListing([running, pinned], backups - {latest.name}, schedule)
  {
    var children := Children(backups - {latest.name}, schedule);
    forall x
      ensures x in children <==> x in {running, pinned}
    {
      assert x in children <==> x in Children(backups, schedule) && x.name != latest.name;
    }
    assert Elements([running, pinned]) == {running, pinned};
  }
}
