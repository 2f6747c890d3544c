/** What one reconcile of a Backup leaves behind, said of the store it finds; and how a scheduled Backup becomes a
    success its schedule records. */
module BackupOutcomes {
  import opened Prelude
  import opened Conditions
  import opened Calendar
  import opened Cron
  import opened Objects
  import opened Stores
  import opened BackupControllers
  import BS = BackupSchedules
  import ScheduleOutcomes

  predicate ReadsAnswered(a: BackupAnswers) {
    a.getBackup.Acknowledged? && a.getServer.Acknowledged? && a.getSnapshot.Acknowledged?
  }

  predicate HasServer(st: Store, k: Key) {
    k in st.backups && Key(k.ns, st.backups[k].gameServer) in st.servers
  }

  /** Nothing differs but one Backup's status. */
  predicate StatusOnly(before: Store, after: Store, k: Key)
    requires k in before.backups
  {
    k in after.backups
    && after == before.(backups := before.backups[k := before.backups[k].(status := after.backups[k].status)])
  }

  // ---------------------------------------------------------------------------------------------
  // Mirroring a snapshot
  // ---------------------------------------------------------------------------------------------

  /** The status of a Backup over its snapshot: size and time where the snapshot has them, Ready over a snapshot that
      is, Failed over one that reports an error instead, InProgress over any other. */
  ghost predicate Mirrors(b: Backup, name: string, vs: VolumeSnapshot, st: BackupStatus, wall: int) {
    var s := if vs.status.Some? then vs.status.value else SnapshotStatus(None, None, None, None, None);
    var ready := s.readyToUse == Some(true);
    var before := b.status;
    && st.volumeSnapshotName == name && st.observedGeneration == b.generation
    && st.restoreSize == (if s.restoreSize.Some? then s.restoreSize.value else before.restoreSize)
    && st.creationTime == (if s.creationTime.Some? then s.creationTime else before.creationTime)
    && st.phase == (if ready then BackupReady else if s.errorMessage.Some? then BackupFailed else BackupInProgress)
    && (if ready then
          Becomes(before.conditions, st.conditions, "Ready", ConditionTrue, "SnapshotReady",
              "VolumeSnapshot ReadyToUse",
                  wall, b.generation)
        else if s.errorMessage.Some? then
          Becomes(before.conditions, st.conditions, "Ready", ConditionFalse, "SnapshotError", s.errorMessage.value,
              wall,
                  b.generation)
        else
          Becomes(before.conditions, st.conditions, "Ready", ConditionFalse, "WaitingForReady",
                  "VolumeSnapshot not yet ReadyToUse", wall, b.generation))
    && (if s.boundContent.Some? then
          Becomes(before.conditions, st.conditions, "SnapshotBound", ConditionTrue, "Bound", s.boundContent.value, wall,
                  b.generation)
        else Find(st.conditions, "SnapshotBound") == Find(before.conditions, "SnapshotBound"))
    && SameBut(before.conditions, st.conditions, {"Ready", "SnapshotBound"})
  }

  lemma TwoChanges(cs: seq<Condition>, bound: Option<Change>, ready: Change)
    requires ready.kind == "Ready" && (bound.Some? ==> bound.value.kind == "SnapshotBound")
    ensures var mid := if bound.Some? then Put(cs, bound.value) else cs;
            var after := Put(mid, ready);
            && Becomes(cs, after, "Ready", ready.status, ready.reason, ready.message, ready.now, ready.generation)
            && (if bound.Some? then
                  Becomes(cs, after, "SnapshotBound", bound.value.status, bound.value.reason, bound.value.message,
                          bound.value.now, bound.value.generation)
                else Find(after, "SnapshotBound") == Find(cs, "SnapshotBound"))
            && SameBut(cs, after, {"Ready", "SnapshotBound"})
  {
    hide Put, Find;
    var mid := if bound.Some? then Put(cs, bound.value) else cs;
    if bound.Some? {
      PutBecomes(cs, bound.value);
    }
    PutBecomes(mid, ready);
    assert "Ready" != "SnapshotBound";
  }

  lemma MirroredMirrors(b: Backup, name: string, vs: VolumeSnapshot, wall: int)
    ensures Mirrors(b, name, vs, Mirrored(b, name, vs, wall), wall)
  {
    hide Put, Becomes, SameBut, Find;
    var bound := if vs.status.Some? && vs.status.value.boundContent.Some? then
                   Some(Change(BOUND, ConditionTrue, "Bound", vs.status.value.boundContent.value, wall, b.generation))
                 else None;
    var ready := if vs.Ready() then
                   Change(READY, ConditionTrue, "SnapshotReady", "VolumeSnapshot ReadyToUse", wall, b.generation)
                 else if vs.status.Some? && vs.status.value.errorMessage.Some? then
                   Change(READY, ConditionFalse, "SnapshotError", vs.status.value.errorMessage.value, wall,
                       b.generation)
                 else
                   Change(READY, ConditionFalse, "WaitingForReady", "VolumeSnapshot not yet ReadyToUse", wall,
                          b.generation);
    TwoChanges(b.status.conditions, bound, ready);
  }

  /** A pass over an existing snapshot stores what the snapshot says, and changes nothing else. */
  lemma MirroringIsExact(st: Store, k: Key, a: BackupAnswers)
    requires HasServer(st, k) && k in st.snapshots && ReadsAnswered(a)
    ensures var after := ReconcileBackup(st, k, a);
            if a.write.TookEffect() then
              StatusOnly(st, after, k)
              && Mirrors(st.backups[k], k.name, st.snapshots[k], after.backups[k].status, a.wall)
            else after == st
  {
    hide Mirrored, Mirrors, WithCondition;
    MirroredMirrors(st.backups[k], k.name, st.snapshots[k], a.wall);
  }

  /** A read that is not answered ends the pass with nothing done, and so does a Backup that is not there. */
  lemma UnansweredReadsEndThePass(st: Store, k: Key, a: BackupAnswers)
    requires || k !in st.backups || !a.getBackup.Acknowledged? || !a.getServer.Acknowledged?
             || (HasServer(st, k) && !a.getSnapshot.Acknowledged?)
    ensures ReconcileBackup(st, k, a) == st
  {
  }

  /** So a ReadyToUse snapshot with a creation time makes its Backup a success with that time. */
  lemma ReadySnapshotSucceeds(st: Store, k: Key, a: BackupAnswers)
    requires HasServer(st, k) && k in st.snapshots && ReadsAnswered(a) && a.write.TookEffect()
    requires st.snapshots[k].Ready() && st.snapshots[k].status.value.creationTime.Some?
    ensures var after := ReconcileBackup(st, k, a);
            && k in after.backups && BS.IsSuccess(after.backups[k])
            && after.backups[k].status.creationTime == st.snapshots[k].status.value.creationTime
  {
    hide ReconcileBackup, Becomes, SameBut, Find;
    MirroringIsExact(st, k, a);
  }

  // ---------------------------------------------------------------------------------------------
  // Taking a snapshot
  // ---------------------------------------------------------------------------------------------

  /** A snapshot of the claim of a Backup's server, in the snapshot class asked for. */
  predicate IsSnapshotFor(vs: VolumeSnapshot, name: string, b: Backup) {
    && vs.source == b.gameServer + "-data"
    && (if b.snapshotClass == "" then vs.className.None? else vs.className == Some(b.snapshotClass))
    && vs.labels == map["app.kubernetes.io/name" := "gameserver",
                        "app.kubernetes.io/instance" := b.gameServer,
                        "app.kubernetes.io/managed-by" := "gameserver-operator",
                        "gameserver.feddern.dev/backup" := name]
    && vs.status.None?
  }

  ghost predicate Starts(b: Backup, name: string, st: BackupStatus, wall: int) {
    && st == b.status.(volumeSnapshotName := name, phase := BackupInProgress, conditions := st.conditions)
    && Becomes(b.status.conditions, st.conditions, "SnapshotBound", ConditionFalse, "Creating",
               "VolumeSnapshot created; waiting for bind", wall, b.generation)
    && SameBut(b.status.conditions, st.conditions, {"SnapshotBound"})
  }

  /** A pass that finds no snapshot creates one of the server's claim under the Backup's name, and once that is
      acknowledged reports the Backup in progress. */
  lemma SnapshotIsTaken(st: Store, k: Key, a: BackupAnswers)
    requires HasServer(st, k) && k !in st.snapshots && ReadsAnswered(a)
    ensures var b, after := st.backups[k], ReconcileBackup(st, k, a);
            var created := st.(snapshots := after.snapshots);
            && (if a.create.TookEffect() then
                  k in after.snapshots && after.snapshots == st.snapshots[k := after.snapshots[k]]
                  && IsSnapshotFor(after.snapshots[k], k.name, b)
                else after.snapshots == st.snapshots)
            && if a.create.Acknowledged? && a.write.TookEffect() then
                 StatusOnly(created, after, k) && Starts(b, k.name, after.backups[k].status, a.wall)
               else after == created
  {
    hide Put, Becomes, SameBut;
    var b := st.backups[k];
    PutBecomes(b.status.conditions,
        Change(BOUND, ConditionFalse, "Creating", "VolumeSnapshot created; waiting for bind", a.wall, b.generation));
  }

  /** A Backup whose server does not exist waits and says so; nothing else happens. */
  lemma MissingServerIsReported(st: Store, k: Key, a: BackupAnswers)
    requires k in st.backups && !HasServer(st, k) && a.getBackup.Acknowledged? && a.getServer.Acknowledged?
    ensures var b, after := st.backups[k], ReconcileBackup(st, k, a);
            if a.write.TookEffect() then
              && StatusOnly(st, after, k)
              && var status := after.backups[k].status;
                 && status == b.status.(phase := BackupPending, conditions := status.conditions)
                 && Becomes(b.status.conditions, status.conditions, "Ready", ConditionFalse, "GameServerMissing",
                            b.gameServer, a.wall, b.generation)
                 && SameBut(b.status.conditions, status.conditions, {"Ready"})
            else after == st
  {
    hide Put, Becomes, SameBut;
    var b := st.backups[k];
    PutBecomes(b.status.conditions,
        Change(READY, ConditionFalse, "GameServerMissing", b.gameServer, a.wall, b.generation));
  }

  // ---------------------------------------------------------------------------------------------
  // From a schedule to a recorded success
  // ---------------------------------------------------------------------------------------------

  /** The Backup a schedule creates is taken of the claim of the schedule's server, in the schedule's snapshot class. */
  lemma ScheduledBackupIsTaken(c: Cron, name: string, bs: BS.BackupSchedule, backups: map<string, Backup>,
                               a: BS.Answers, n: string, st: Store, k: Key, b: BackupAnswers)
    requires Lawful(c) && ClockInRange(a.now)
    requires n !in backups && n in BS.ReconcileParsed(c, name, bs, backups, a).backups
    requires k.name == n && k in st.backups && st.backups[k] == BS.ReconcileParsed(c, name, bs, backups, a).backups[n]
    requires Key(k.ns, bs.spec.gameServer) in st.servers && k !in st.snapshots
    requires ReadsAnswered(b) && b.create.TookEffect()
    ensures var after := ReconcileBackup(st, k, b);
            && k in after.snapshots
            && after.snapshots[k].source == bs.spec.gameServer + "-data"
            && (if bs.spec.snapshotClass == "" then after.snapshots[k].className.None?
                else after.snapshots[k].className == Some(bs.spec.snapshotClass))
  {
    hide ReconcileBackup, BS.ReconcileParsed, Starts, StatusOnly, ScheduleOutcomes.Creates;
    ScheduleOutcomes.ReconcileCreates(c, name, bs, backups, a);
    SnapshotIsTaken(st, k, b);
  }

  /** And when its snapshot is ready, the schedule's next refresh that lists it records a success no earlier than that
      snapshot. */
  lemma ReadyBackupIsRecorded(st: Store, k: Key, b: BackupAnswers, c: Cron, name: string, bs: BS.BackupSchedule,
                              backups: map<string, Backup>, a: BS.Answers)
    requires HasServer(st, k) && k in st.snapshots && ReadsAnswered(b) && b.write.TookEffect()
    requires st.snapshots[k].Ready() && st.snapshots[k].status.value.creationTime.Some?
    requires Lawful(c) && ClockInRange(a.now) && a.write.TookEffect() && a.refresh.Some?
    requires !bs.spec.suspend && a.now >= NextFire(c, a.now, bs.status.lastScheduleTime) ==> a.create.Acknowledged?
    requires k in ReconcileBackup(st, k, b).backups
    requires NamedBackup(k.name, ReconcileBackup(st, k, b).backups[k]) in a.refresh.value
    ensures var recorded := BS.ReconcileParsed(c, name, bs, backups, a).schedule.status.lastSuccessfulTime;
            recorded.Some? && recorded.value >= st.snapshots[k].status.value.creationTime.value
  {
    hide ReconcileBackup, BS.ReconcileParsed, Becomes, SameBut, ScheduleOutcomes.ListsUnfinished;
    ReadySnapshotSucceeds(st, k, b);
    ScheduleOutcomes.StatusIsReported(c, name, bs, backups, a);
    var x := NamedBackup(k.name, ReconcileBackup(st, k, b).backups[k]);
    assert ScheduleOutcomes.Succeeded(x.backup);
  }
}
