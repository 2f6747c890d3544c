/** What one reconcile of a BackupSchedule leaves behind, said of its inputs alone: the Backup it creates and the status
    it reports. */
module ScheduleOutcomes {
  import opened Prelude
  import opened Conditions
  import opened Calendar
  import opened Cron
  import opened Objects
  import opened Retention
  import opened BackupSchedules

  // ---------------------------------------------------------------------------------------------
  // What is created
  // ---------------------------------------------------------------------------------------------

  ghost predicate Creates(c: Cron, name: string, bs: BackupSchedule, backups: map<string, Backup>, a: Answers,
      n: string)
    requires Lawful(c) && ClockInRange(a.now)
  {
    var fire := NextFire(c, a.now, bs.status.lastScheduleTime);
    && !bs.spec.suspend && a.now >= fire
    && (DueRunIsRenderable(c, a.now, bs.status.lastScheduleTime); n == BackupName(name, fire))
    && n !in backups && a.create.TookEffect()
  }

  /** A reconcile adds no Backup but the one of a due run of a schedule that is not suspended, under a free name, and it
      changes none.  What it adds is a Backup of the schedule's server, and is still there unless its own retention pass
      asks to delete it; nothing else goes either. */
  lemma ReconcileCreates(c: Cron, name: string, bs: BackupSchedule, backups: map<string, Backup>, a: Answers)
    requires Lawful(c) && ClockInRange(a.now)
    ensures var after := ReconcileParsed(c, name, bs, backups, a).backups;
            && (forall m :: m in after ==>
                  if m in backups then after[m] == backups[m]
                  else Creates(c, name, bs, backups, a, m) && IsNewBackup(after[m], name, bs.spec, a.stamp))
            && (forall m :: m in backups && m !in after ==>
                  a.list.Some? && m in Victims(Outline(a.list.value), EffectiveKeep(bs.spec.keep)))
            && (forall n :: Creates(c, name, bs, backups, a, n) ==>
                  || n in after
                  || (a.create.Acknowledged? && a.list.Some?
                      && n in Victims(Outline(a.list.value), EffectiveKeep(bs.spec.keep))))
  {
    hide BackupName, Renderable, Victims, Put, Active, LatestSuccess;
    if a.list.Some? {
      GoneAreVictims(Victims(Outline(a.list.value), EffectiveKeep(bs.spec.keep)), a.deletes);
    }
    if Fires(c, bs, a.now) {
      DueRunIsRenderable(c, a.now, bs.status.lastScheduleTime);
    }
  }

  // ---------------------------------------------------------------------------------------------
  // What is reported
  // ---------------------------------------------------------------------------------------------

  predicate Unfinished(b: Backup) {
    b.status.phase == BackupPending || b.status.phase == BackupInProgress
  }

  predicate Succeeded(b: Backup) {
    b.status.phase == BackupReady && b.status.creationTime.Some?
  }

  predicate ListedAt(names: seq<string>, items: seq<NamedBackup>, at: seq<int>) {
    && |at| == |names| && (forall i, j :: 0 <= i < j < |at| ==> at[i] < at[j])
    && (forall i :: 0 <= i < |at| ==> 0 <= at[i] < |items| && names[i] == items[at[i]].name)
    && (forall j :: 0 <= j < |items| ==> (j in at <==> Unfinished(items[j].backup)))
  }

  /** The names of the unfinished ones, in list order. */
  ghost predicate ListsUnfinished(names: seq<string>, items: seq<NamedBackup>) {
    exists at :: ListedAt(names, items, at)
  }

  /** The latest snapshot time of a successful Backup, or the time recorded before when there is none. */
  predicate IsLatest(t: Option<int>, items: seq<NamedBackup>, before: Option<int>) {
    if exists x :: x in items && Succeeded(x.backup) then
      && t.Some?
      && (exists x :: x in items && Succeeded(x.backup) && x.backup.status.creationTime == t)
      && (forall x :: x in items && Succeeded(x.backup) ==> x.backup.status.creationTime.value <= t.value)
    else t == before
  }

  lemma {:induction false} ActiveAreListed(items: seq<NamedBackup>) returns (at: seq<int>)
    ensures ListedAt(Active(items), items, at)
  {
    hide ListedAt;
    at := [];
    if items == [] {
      NothingListed();
    } else {
      var n := |items| - 1;
      var before := ActiveAreListed(items[..n]);
      at := if IsActive(items[n].backup) then before + [n] else before;
      ListedGrows(Active(items[..n]), items, before);
      assert Active(items[..n]) + [] == Active(items[..n]);
    }
  }

  lemma NothingListed()
    ensures ListedAt([], [], [])
  {
  }

  lemma ListedGrows(names: seq<string>, items: seq<NamedBackup>, at: seq<int>)
    requires items != [] && ListedAt(names, items[..|items| - 1], at)
    ensures var n := |items| - 1;
            if Unfinished(items[n].backup) then ListedAt(names + [items[n].name], items, at + [n])
            else ListedAt(names, items, at)
  {
    hide Unfinished;
    var n := |items| - 1;
    forall j | 0 <= j < n
      ensures j in at <==> Unfinished(items[j].backup)
    {
      assert items[..n][j] == items[j];
    }
    assert n !in at;
    assert forall j :: j in at + [n] <==> j in at || j == n;
  }

  /** The status a reconcile stores when it gets to the end: the run it fired, the generation it saw, the cron
      expression found valid, and what the second list shows of the children. */
  ghost predicate Reported(c: Cron, bs: BackupSchedule, st: ScheduleStatus, a: Answers) {
    var before := bs.status;
    var fire := NextFire(c, a.now, before.lastScheduleTime);
    && st.observedGeneration == bs.generation
    && st.lastScheduleTime == (if !bs.spec.suspend && a.now >= fire then Some(fire) else before.lastScheduleTime)
    && Becomes(before.conditions, st.conditions, "ScheduleValid", ConditionTrue, "Parsed", "cron parsed cleanly",
        a.wall,
               bs.generation)
    && SameBut(before.conditions, st.conditions, {"ScheduleValid"})
    && if a.refresh.Some? then
         && ListsUnfinished(st.activeBackups, a.refresh.value)
         && IsLatest(st.lastSuccessfulTime, a.refresh.value, before.lastSuccessfulTime)
       else st.activeBackups == before.activeBackups && st.lastSuccessfulTime == before.lastSuccessfulTime
  }

  /** A reconcile of a valid schedule stores that status if its write takes effect, unless a due run could not be
      created; otherwise it leaves the schedule as it was. */
  lemma StatusIsReported(c: Cron, name: string, bs: BackupSchedule, backups: map<string, Backup>, a: Answers)
    requires Lawful(c) && ClockInRange(a.now)
    ensures var after := ReconcileParsed(c, name, bs, backups, a).schedule;
            var due := !bs.spec.suspend && a.now >= NextFire(c, a.now, bs.status.lastScheduleTime);
            && after == bs.(status := after.status)
            && if a.write.TookEffect() && (due ==> a.create.Acknowledged?) then Reported(c, bs, after.status, a)
               else after == bs
  {
    hide BackupName, Renderable, Spawned, Pruned, Active, LatestSuccess, Put, Becomes, SameBut, ListedAt, IsLatest;
    PutBecomes(bs.status.conditions,
        Change(VALID, ConditionTrue, "Parsed", "cron parsed cleanly", a.wall, bs.generation));
    if a.refresh.Some? {
      var at := ActiveAreListed(a.refresh.value);
      RefreshedIsLatest(bs.status, a.refresh.value);
    }
  }

  lemma RefreshedIsLatest(st: ScheduleStatus, items: seq<NamedBackup>)
    ensures var latest := LatestSuccess(items);
            IsLatest(if latest.Some? then latest else st.lastSuccessfulTime, items, st.lastSuccessfulTime)
  {
    hide LatestSuccess;
    LatestSuccessIsMaximal(items);
    assert forall b :: IsSuccess(b) <==> Succeeded(b);
  }

  /** A time zone or an expression the libraries reject is reported, and nothing else happens: no Backup is created or
      deleted, and the rest of the status stays. */
  lemma RejectionIsReported(lib: Library, name: string, bs: BackupSchedule, backups: map<string, Backup>, a: Answers)
    requires lib.Sound() && ClockInRange(a.now)
    requires var zone, parsed := lib.zoneError(bs.spec.timeZone), lib.parse(bs.spec.schedule, bs.spec.timeZone);
             zone.Some? || parsed.BadCron?
    ensures var out := ReconcileSchedule(lib, name, bs, backups, a);
            var zone, st := lib.zoneError(bs.spec.timeZone), out.schedule.status;
            && out.backups == backups
            && if a.write.TookEffect() then
                 && out.schedule == bs.(status := bs.status.(conditions := st.conditions))
                 && SameBut(bs.status.conditions, st.conditions, {"ScheduleValid"})
                 && (if zone.Some? then
                       Becomes(bs.status.conditions, st.conditions, "ScheduleValid", ConditionFalse, "InvalidTimeZone",
                               zone.value, a.wall, bs.generation)
                     else
                       Becomes(bs.status.conditions, st.conditions, "ScheduleValid", ConditionFalse, "InvalidSchedule",
                               lib.parse(bs.spec.schedule, bs.spec.timeZone).message, a.wall, bs.generation))
               else out.schedule == bs
  {
    hide Put, Becomes, SameBut, ReconcileParsed;
    var zone, parsed := lib.zoneError(bs.spec.timeZone), lib.parse(bs.spec.schedule, bs.spec.timeZone);
    if zone.Some? {
      PutBecomes(bs.status.conditions,
          Change(VALID, ConditionFalse, "InvalidTimeZone", zone.value, a.wall, bs.generation));
    } else {
      PutBecomes(bs.status.conditions,
          Change(VALID, ConditionFalse, "InvalidSchedule", parsed.message, a.wall, bs.generation));
    }
  }
}
