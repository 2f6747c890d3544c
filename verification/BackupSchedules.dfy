/** The BackupSchedule reconciler: its loops as methods over the namespace's objects, each proved against
    the function that says what one reconcile leaves behind. */
module BackupSchedules {
  import opened Prelude
  import opened Conditions
  import opened Calendar
  import opened Cron
  import opened Objects
  import opened Retention

  datatype ScheduleSpec = ScheduleSpec(
    gameServer: string,
    schedule: string,
    timeZone: string,
    keep: int,
    suspend: bool,
    snapshotClass: string)

  datatype ScheduleStatus = ScheduleStatus(
    lastScheduleTime: Option<int>,
    lastSuccessfulTime: Option<int>,
    activeBackups: seq<string>,
    observedGeneration: int,
    conditions: seq<Condition>)

  datatype BackupSchedule = BackupSchedule(spec: ScheduleSpec, generation: int, status: ScheduleStatus)

  datatype Parsed = BadCron(message: string) | GoodCron(cron: Cron)

  /** Time zones and cron expressions are resolved by libraries. */
  datatype Library = Library(zoneError: string -> Option<string>, parse: (string, string) -> Parsed)
  {
    ghost predicate Sound() {
      forall s, z :: parse(s, z).GoodCron? ==> Lawful(parse(s, z).cron)
    }
  }

  /** What the world answers to the API calls of one reconcile, and the clocks it reads.  A list call that
      failed is None; a list that was answered may be stale. */
  datatype Answers = Answers(
    now: int,
    wall: int,
    create: CallResult,
    stamp: int,
    list: Option<seq<NamedBackup>>,
    deletes: string -> CallResult,
    refresh: Option<seq<NamedBackup>>,
    write: CallResult)

  const VALID := "ScheduleValid"

  // ---------------------------------------------------------------------------------------------
  // What one reconcile leaves behind
  // ---------------------------------------------------------------------------------------------

  function NewBackup(schedule: string, spec: ScheduleSpec, stamp: int): Backup {
    Backup(schedule, stamp, 1, spec.gameServer, spec.snapshotClass, false, EMPTY_BACKUP_STATUS)
  }

  /** The namespace after asking to create the Backup of a fire time. */
  function Spawned(backups: map<string, Backup>, schedule: string, spec: ScheduleSpec, fire: int, create: CallResult,
                   stamp: int): map<string, Backup>
    requires Renderable(fire)
  {
    var name := BackupName(schedule, fire);
    if name !in backups && create.TookEffect() then backups[name := NewBackup(schedule, spec, stamp)]
    else backups
  }

  /** A Backup as a schedule creates it: of the schedule's server, with its snapshot class and its label, not pinned,
      nothing reported yet. */
  predicate IsNewBackup(b: Backup, schedule: string, spec: ScheduleSpec, stamp: int) {
    && b.gameServer == spec.gameServer && b.snapshotClass == spec.snapshotClass
    && b.schedule == schedule && !b.retainForever
    && b.creationTimestamp == stamp && b.generation == 1
    && b.status == BackupStatus(NoPhase, "", "", None, 0, [])
  }

  function ChildOf(x: NamedBackup): Child {
    Child(x.name, x.backup.creationTimestamp, x.backup.retainForever)
  }

  function Outline(items: seq<NamedBackup>): seq<Child> {
    seq(|items|, i requires 0 <= i < |items| => ChildOf(items[i]))
  }

  /** A list call's answer arranged for the pass. */
  predicate Arranged(order: seq<NamedBackup>, backups: map<string, Backup>, schedule: string) {
    IsListing(order, backups, schedule) && NewestFirst(Outline(order))
  }

  /** The namespace after a retention pass over an arranged list. */
  function Pruned(backups: map<string, Backup>, order: seq<NamedBackup>, keep: int, deletes: string -> CallResult)
    : map<string, Backup>
  {
    backups - Gone(Victims(Outline(order), EffectiveKeep(keep)), deletes)
  }

  predicate IsActive(b: Backup) {
    b.status.phase == BackupPending || b.status.phase == BackupInProgress
  }

  predicate IsSuccess(b: Backup) {
    b.status.phase == BackupReady && b.status.creationTime.Some?
  }

  /** Names of the children not yet in a terminal phase, in list order. */
  function Active(items: seq<NamedBackup>): seq<string> {
    if items == [] then []
    else
      var n := |items| - 1;
      Active(items[..n]) + if IsActive(items[n].backup) then [items[n].name] else []
  }

  /** The latest snapshot time among Ready children. */
  function LatestSuccess(items: seq<NamedBackup>): Option<int> {
    if items == [] then None
    else
      var n := |items| - 1;
      var before, b := LatestSuccess(items[..n]), items[n].backup;
      if IsSuccess(b) && (before.None? || b.status.creationTime.value > before.value) then b.status.creationTime
      else before
  }

  function Refreshed(st: ScheduleStatus, items: seq<NamedBackup>): ScheduleStatus {
    var latest := LatestSuccess(items);
    st.(activeBackups := Active(items),
        lastSuccessfulTime := if latest.Some? then latest else st.lastSuccessfulTime)
  }

  function WithValid(bs: BackupSchedule, status: ConditionStatus, reason: string, message: string, wall: int)
    : ScheduleStatus
  {
    bs.status.(conditions := Put(bs.status.conditions, Change(VALID, status, reason, message, wall, bs.generation)))
  }

  function Stored(bs: BackupSchedule, status: ScheduleStatus, write: CallResult): BackupSchedule {
    if write.TookEffect() then bs.(status := status) else bs
  }

  datatype Outcome = Outcome(schedule: BackupSchedule, backups: map<string, Backup>)

  ghost predicate Fires(c: Cron, bs: BackupSchedule, now: int) {
    !bs.spec.suspend && Due(c, now, bs.status.lastScheduleTime)
  }

  /** One reconcile whose expression parsed; a.list holds the arranged list of the retention pass. */
  ghost function ReconcileParsed(c: Cron, name: string, bs: BackupSchedule, backups: map<string, Backup>,
                                 a: Answers): Outcome
    requires Lawful(c) && ClockInRange(a.now)
  {
    var fires := Fires(c, bs, a.now);
    var fire := NextFire(c, a.now, bs.status.lastScheduleTime);
    if fires && !a.create.Acknowledged? then
      DueRunIsRenderable(c, a.now, bs.status.lastScheduleTime);
      Outcome(bs, Spawned(backups, name, bs.spec, fire, a.create, a.stamp))
    else
      var spawned := if fires then
                       DueRunIsRenderable(c, a.now, bs.status.lastScheduleTime);
                       Spawned(backups, name, bs.spec, fire, a.create, a.stamp)
                     else backups;
      var pruned := if a.list.Some? then Pruned(spawned, a.list.value, bs.spec.keep, a.deletes) else spawned;
      var st0 := WithValid(bs, ConditionTrue, "Parsed", "cron parsed cleanly", a.wall);
      var st1 := if fires then st0.(lastScheduleTime := Some(fire)) else st0;
      var st2 := if a.refresh.Some? then Refreshed(st1, a.refresh.value) else st1;
      Outcome(Stored(bs, st2.(observedGeneration := bs.generation), a.write), pruned)
  }

  ghost function ReconcileSchedule(lib: Library, name: string, bs: BackupSchedule, backups: map<string, Backup>,
                                   a: Answers)
    : Outcome
    requires lib.Sound() && ClockInRange(a.now)
  {
    var zone := lib.zoneError(bs.spec.timeZone);
    var parsed := lib.parse(bs.spec.schedule, bs.spec.timeZone);
    if zone.Some? then
      Outcome(Stored(bs, WithValid(bs, ConditionFalse, "InvalidTimeZone", zone.value, a.wall), a.write), backups)
    else if parsed.BadCron? then
      Outcome(Stored(bs, WithValid(bs, ConditionFalse, "InvalidSchedule", parsed.message, a.wall), a.write), backups)
    else
      ReconcileParsed(parsed.cron, name, bs, backups, a)
  }

  // ---------------------------------------------------------------------------------------------
  // The reconciler
  // ---------------------------------------------------------------------------------------------

  predicate Newest(items: seq<NamedBackup>) {
    forall i, j :: 0 <= i < j < |items| ==> items[i].backup.creationTimestamp >= items[j].backup.creationTimestamp
  }

  /** Inserting an item between the newer-or-equal ones and the strictly older ones keeps the order. */
  lemma InsertKeepsOrder(sorted: seq<NamedBackup>, k: nat, x: NamedBackup)
    requires Newest(sorted) && k <= |sorted|
    requires forall j :: k <= j < |sorted| ==> sorted[j].backup.creationTimestamp < x.backup.creationTimestamp
    requires k > 0 ==> sorted[k - 1].backup.creationTimestamp >= x.backup.creationTimestamp
    ensures Newest(sorted[..k] + [x] + sorted[k..])
  {
    var r := sorted[..k] + [x] + sorted[k..];
    forall i, j | 0 <= i < j < |r|
      ensures r[i].backup.creationTimestamp >= r[j].backup.creationTimestamp
    {
      if j < k {
        assert r[i] == sorted[i] && r[j] == sorted[j];
      } else if j == k {
        assert r[i] == sorted[i] && r[j] == x;
        assert sorted[i].backup.creationTimestamp >= sorted[k - 1].backup.creationTimestamp;
      } else if i < k {
        assert r[i] == sorted[i] && r[j] == sorted[j - 1];
      } else if i == k {
        assert r[i] == x && r[j] == sorted[j - 1];
      } else {
        assert r[i] == sorted[i - 1] && r[j] == sorted[j - 1];
      }
    }
  }

  lemma InsertKeepsItems(sorted: seq<NamedBackup>, k: nat, x: NamedBackup)
    requires k <= |sorted|
    ensures multiset(sorted[..k] + [x] + sorted[k..]) == multiset(sorted) + multiset{x}
  {
    assert sorted == sorted[..k] + sorted[k..];
  }

  /** An insertion sort; callers rely on its contract only, which leaves the order of equal timestamps
      open, as the library sort does. */
  method SortNewestFirst(items: seq<NamedBackup>) returns (sorted: seq<NamedBackup>)
    ensures NewestFirst(Outline(sorted))
    ensures multiset(sorted) == multiset(items)
  {
    sorted := [];
    for i := 0 to |items|
      invariant Newest(sorted)
      invariant multiset(sorted) == multiset(items[..i])
    {
      hide Newest, NewestFirst, Outline;
      var x := items[i];
      var k := |sorted|;
      while k > 0 && sorted[k - 1].backup.creationTimestamp < x.backup.creationTimestamp
        invariant 0 <= k <= |sorted|
        invariant forall j :: k <= j < |sorted| ==>
                    sorted[j].backup.creationTimestamp < x.backup.creationTimestamp
      {
        k := k - 1;
      }
      assert items[..i + 1] == items[..i] + [x];
      InsertKeepsOrder(sorted, k, x);
      InsertKeepsItems(sorted, k, x);
      sorted := sorted[..k] + [x] + sorted[k..];
    }
    assert items[..|items|] == items;
  }

  /** One turn of the retention loop. */
  lemma PassStep(items: seq<Child>, i: nat, room: nat, deletes: string -> CallResult)
    requires i < |items|
    ensures var b, rest := items[i], items[i + 1..];
            Gone(Victims(items[i..], room), deletes) ==
            if b.retainForever then Gone(Victims(rest, room), deletes)
            else if room > 0 then Gone(Victims(rest, room - 1), deletes)
            else match deletes(b.name)
              case Acknowledged => {b.name} + Gone(Victims(rest, 0), deletes)
              case Unacknowledged => {b.name}
              case Lost => {}
  {
    assert items[i..][0] == items[i] && items[i..][1..] == items[i + 1..];
    var victims := [items[i].name] + Victims(items[i + 1..], 0);
    assert victims[1..] == Victims(items[i + 1..], 0);
  }

  /** Rearranging a listing gives a listing. */
  lemma ListingsPermute(xs: seq<NamedBackup>, ys: seq<NamedBackup>, backups: map<string, Backup>, schedule: string)
    requires multiset(xs) == multiset(ys) && IsListing(xs, backups, schedule)
    ensures IsListing(ys, backups, schedule)
  {
    forall x
      ensures x in xs <==> x in ys
    {
      assert x in multiset(xs) <==> x in multiset(ys);
    }
    assert Elements(xs) == Elements(ys);
    forall i, j | 0 <= i < j < |ys|
      ensures ys[i] != ys[j]
    {
      if ys[i] == ys[j] {
        TwiceInMultiset(ys, i, j);
        OnceInMultiset(xs, ys[i]);
      }
    }
  }

  lemma TwiceInMultiset(xs: seq<NamedBackup>, i: int, j: int)
    requires 0 <= i < j < |xs| && xs[i] == xs[j]
    ensures multiset(xs)[xs[i]] >= 2
  {
    assert xs == xs[..j] + xs[j..];
    assert xs[i] in xs[..j] && xs[j] in xs[j..];
  }

  lemma {:induction false} OnceInMultiset(xs: seq<NamedBackup>, x: NamedBackup)
    requires Distinct(xs)
    ensures multiset(xs)[x] <= 1
  {
    if xs != [] {
      var n := |xs| - 1;
      assert xs == xs[..n] + [xs[n]];
      OnceInMultiset(xs[..n], x);
    }
  }

  lemma NothingGone(deletes: string -> CallResult)
    ensures forall room: nat :: Gone(Victims([], room), deletes) == {}
  {
  }

  class BackupScheduleReconciler {
    /** The BackupSchedules and Backups of the namespace, by name. */
    var schedules: map<string, BackupSchedule>
    var backups: map<string, Backup>

    method SpawnBackup(name: string, spec: ScheduleSpec, fire: int, create: CallResult, stamp: int)
        returns (failed: bool)
      requires Renderable(fire)
      modifies this`backups
      ensures backups == Spawned(old(backups), name, spec, fire, create, stamp)
      ensures var n := BackupName(name, fire);
              if create.TookEffect() && n !in old(backups) then
                n in backups && backups == old(backups)[n := backups[n]] && IsNewBackup(backups[n], name, spec, stamp)
              else backups == old(backups)
      ensures failed == !create.Acknowledged?
    {
      var b := Backup(name, stamp, 1, spec.gameServer, spec.snapshotClass, false, EMPTY_BACKUP_STATUS);
      var backupName := BackupName(name, fire);
      if create.TookEffect() && backupName !in backups {
        backups := backups[backupName := b];
      }
      // An acknowledged call that found the name taken reports AlreadyExists, which counts as success.
      failed := !create.Acknowledged?;
    }

    method ApplyRetention(keep: int, list: seq<NamedBackup>, deletes: string -> CallResult)
        returns (ghost order: seq<NamedBackup>)
      modifies this`backups
      ensures multiset(order) == multiset(list) && NewestFirst(Outline(order))
      ensures backups == Pruned(old(backups), order, keep, deletes)
    {
      hide Victims, Gone;
      var items := SortNewestFirst(list);
      order := items;
      var limit := keep;
      if limit <= 0 {
        limit := 7;
      }
      var kept := 0;
      ghost var children := Outline(items);
      ghost var all := Gone(Victims(children, limit), deletes);
      ghost var done: set<string> := {};
      assert children[0..] == children;
      for i := 0 to |items|
        invariant 0 <= kept <= limit
        invariant backups == old(backups) - done
        invariant all == done + Gone(Victims(children[i..], limit - kept), deletes)
      {
        var b := items[i];
        PassStep(children, i, limit - kept, deletes);
        if b.backup.retainForever {
          continue;
        }
        if kept < limit {
          kept := kept + 1;
          continue;
        }
        if deletes(b.name).TookEffect() {
          backups := backups - {b.name};
          done := done + {b.name};
          assert backups == old(backups) - done;
        }
        if !deletes(b.name).Acknowledged? {
          assert done == all;
          return;
        }
      }
      NothingGone(deletes);
      assert children[|items|..] == [];
    }

    method RefreshChildStatus(list: seq<NamedBackup>, before: ScheduleStatus) returns (after: ScheduleStatus)
      ensures after == Refreshed(before, list)
    {
      var active: seq<string> := [];
      var lastSuccess: Option<int> := None;
      for i := 0 to |list|
        invariant active == Active(list[..i])
        invariant lastSuccess == LatestSuccess(list[..i])
      {
        var b := list[i];
        assert list[..i + 1][..i] == list[..i];
        match b.backup.status.phase {
          case BackupReady =>
            var t := b.backup.status.creationTime;
            if t.Some? && (lastSuccess.None? || t.value > lastSuccess.value) {
              lastSuccess := t;
            }
          case BackupPending =>
            active := active + [b.name];
          case BackupInProgress =>
            active := active + [b.name];
          case _ =>
        }
      }
      assert list[..|list|] == list;
      after := before.(activeBackups := active);
      if lastSuccess.Some? {
        after := after.(lastSuccessfulTime := lastSuccess);
      }
    }

    method WriteStatus(name: string, bs: BackupSchedule, status: ScheduleStatus, write: CallResult)
      requires name in schedules && schedules[name] == bs
      modifies this`schedules
      ensures schedules == old(schedules)[name := Stored(bs, status, write)]
    {
      if write.TookEffect() {
        schedules := schedules[name := bs.(status := status)];
      }
    }

    method Reconcile(lib: Library, name: string, a: Answers) returns (ghost order: Option<seq<NamedBackup>>)
      requires lib.Sound() && ClockInRange(a.now)
      modifies this
      ensures name !in old(schedules) ==> schedules == old(schedules) && backups == old(backups)
      ensures order.Some? ==>
                && a.list.Some? && multiset(order.value) == multiset(a.list.value)
                && NewestFirst(Outline(order.value))
      ensures name in old(schedules) ==>
                var out := ReconcileSchedule(lib, name, old(schedules)[name], old(backups), a.(list := order));
                && schedules == old(schedules)[name := out.schedule]
                && backups == out.backups
    {
      hide Victims, Gone, Active, LatestSuccess, BackupName, Renderable, Put, IsNewBackup, NewestFirst, Outline;
      order := None;
      if name !in schedules {
        return;
      }
      var bs := schedules[name];
      var conditions := new ConditionList(bs.status.conditions, bs.generation);
      var zone := lib.zoneError(bs.spec.timeZone);
      if zone.Some? {
        conditions.Set(VALID, ConditionFalse, "InvalidTimeZone", zone.value, a.wall);
        WriteStatus(name, bs, bs.status.(conditions := conditions.items), a.write);
        return;
      }
      var parsed := lib.parse(bs.spec.schedule, bs.spec.timeZone);
      if parsed.BadCron? {
        conditions.Set(VALID, ConditionFalse, "InvalidSchedule", parsed.message, a.wall);
        WriteStatus(name, bs, bs.status.(conditions := conditions.items), a.write);
        return;
      }
      conditions.Set(VALID, ConditionTrue, "Parsed", "cron parsed cleanly", a.wall);
      var status := bs.status.(conditions := conditions.items);

      var ref := a.now - DAY;
      if status.lastScheduleTime.Some? && status.lastScheduleTime.value > ref {
        ref := status.lastScheduleTime.value;
      }
      var next := parsed.cron.next(ref);
      var nextFire := if next.Some? then next.value else ZERO_TIME;

      if !bs.spec.suspend && a.now >= nextFire {
        DueRunIsRenderable(parsed.cron, a.now, bs.status.lastScheduleTime);
        var failed := SpawnBackup(name, bs.spec, nextFire, a.create, a.stamp);
        if failed {
          return;
        }
        status := status.(lastScheduleTime := Some(nextFire));
      }
      if a.list.Some? {
        var arranged := ApplyRetention(bs.spec.keep, a.list.value, a.deletes);
        order := Some(arranged);
      }
      if a.refresh.Some? {
        status := RefreshChildStatus(a.refresh.value, status);
      }
      status := status.(observedGeneration := bs.generation);
      WriteStatus(name, bs, status, a.write);
    }
  }

  // ---------------------------------------------------------------------------------------------
  // What the refreshed status means
  // ---------------------------------------------------------------------------------------------

  /** The refreshed success time is the latest snapshot time among Ready children, and stays what it was
      when none is Ready. */
  lemma {:induction false} LatestSuccessIsMaximal(items: seq<NamedBackup>)
    ensures LatestSuccess(items).None? <==> forall x :: x in items ==> !IsSuccess(x.backup)
    ensures LatestSuccess(items).Some? ==>
              && (exists x :: x in items && IsSuccess(x.backup) && x.backup.status.creationTime == LatestSuccess(items))
              && (forall x :: x in items && IsSuccess(x.backup) ==>
                    x.backup.status.creationTime.value <= LatestSuccess(items).value)
  {
    if items != [] {
      var n := |items| - 1;
      LatestSuccessIsMaximal(items[..n]);
      assert items == items[..n] + [items[n]];
      assert items[n] in items;
    }
  }

  lemma {:induction false} ActiveListsUnfinished(items: seq<NamedBackup>, name: string)
    ensures name in Active(items) <==> exists x :: x in items && x.name == name && IsActive(x.backup)
  {
    if items != [] {
      var n := |items| - 1;
      ActiveListsUnfinished(items[..n], name);
      assert items == items[..n] + [items[n]];
      assert items[n] in items;
    }
  }

  /** Suspending stops creation but not retention: a suspended schedule's Backups are left untouched exactly when no
      more than `keep` of them are subject to retention. */
  lemma SuspendedLeavesBackupsIff(c: Cron, name: string, bs: BackupSchedule, backups: map<string, Backup>, a: Answers)
    requires Lawful(c) && ClockInRange(a.now) && bs.spec.suspend
    requires a.list.Some? && Arranged(a.list.value, backups, name) && forall n :: a.deletes(n) == Acknowledged
    ensures ReconcileParsed(c, name, bs, backups, a).backups == backups <==>
            |Expendable(Outline(a.list.value))| <= if bs.spec.keep > 0 then bs.spec.keep else 7
  {
    var items, keep := Outline(a.list.value), EffectiveKeep(bs.spec.keep);
    var e, victims := Expendable(items), Victims(items, keep);
    VictimsAreTheTail(items, keep);
    GoneAreVictims(victims, a.deletes);
    if |e| > keep {
      assert Names(e[keep..])[0] == e[keep].name;
      assert victims[0] == e[keep].name;
      ExpendableFilters(items);
      var i :| 0 <= i < |items| && items[i] == e[keep];
      assert a.list.value[i] in Elements(a.list.value);
      assert e[keep].name in backups;
    } else {
      assert victims == [];
    }
  }
}
