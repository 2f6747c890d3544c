/** The Backup reconciler: it creates one VolumeSnapshot per Backup and mirrors its status. */
module BackupControllers {
  import opened Prelude
  import opened Conditions
  import opened Objects
  import opened Services
  import opened Stores

  const READY := "Ready"
  const BOUND := "SnapshotBound"

  /** What the API calls of one reconcile come to, and the time conditions are stamped with. */
  datatype BackupAnswers = BackupAnswers(
    wall: int,
    getBackup: CallResult,
    getServer: CallResult,
    getSnapshot: CallResult,
    create: CallResult,
    write: CallResult)

  function VolumeSnapshotName(backup: string): string {
    backup
  }

  function BuildVolumeSnapshot(name: string, b: Backup, server: string): VolumeSnapshot {
    VolumeSnapshot(
      map["app.kubernetes.io/name" := "gameserver",
          "app.kubernetes.io/instance" := server,
          "app.kubernetes.io/managed-by" := "gameserver-operator",
          "gameserver.feddern.dev/backup" := name],
      PVCName(server),
      if b.snapshotClass == "" then None else Some(b.snapshotClass),
      None)
  }

  function WithCondition(b: Backup, st: BackupStatus, kind: string, s: ConditionStatus, reason: string,
                         message: string, wall: int)
    : BackupStatus
  {
    st.(conditions := Put(st.conditions, Change(kind, s, reason, message, wall, b.generation)))
  }

  /** The Backup's status after looking at its existing snapshot. */
  function Mirrored(b: Backup, name: string, vs: VolumeSnapshot, wall: int): BackupStatus {
    var st0 := b.status.(volumeSnapshotName := name, observedGeneration := b.generation);
    if vs.status.None? then Waiting(b, st0, wall)
    else
      var s := vs.status.value;
      var st1 := if s.boundContent.Some? then
                   WithCondition(b, st0, BOUND, ConditionTrue, "Bound", s.boundContent.value, wall)
                 else st0;
      var st2 := if s.restoreSize.Some? then st1.(restoreSize := s.restoreSize.value) else st1;
      var st3 := if s.creationTime.Some? then st2.(creationTime := s.creationTime) else st2;
      if s.Ready() then
        WithCondition(b, st3.(phase := BackupReady), READY, ConditionTrue, "SnapshotReady",
            "VolumeSnapshot ReadyToUse", wall)
      else if s.errorMessage.Some? then
        WithCondition(b, st3.(phase := BackupFailed), READY, ConditionFalse, "SnapshotError", s.errorMessage.value,
            wall)
      else Waiting(b, st3, wall)
  }

  function Waiting(b: Backup, st: BackupStatus, wall: int): BackupStatus {
    WithCondition(b, st.(phase := BackupInProgress), READY, ConditionFalse, "WaitingForReady",
                  "VolumeSnapshot not yet ReadyToUse", wall)
  }

  function WriteBackup(st: Store, k: Key, status: BackupStatus, write: CallResult): Store
    requires k in st.backups
  {
    if write.TookEffect() then st.(backups := st.backups[k := st.backups[k].(status := status)]) else st
  }

  /** What one reconcile of a Backup leaves behind. */
  function ReconcileBackup(st: Store, k: Key, a: BackupAnswers): Store {
    if k !in st.backups || !a.getBackup.Acknowledged? || !a.getServer.Acknowledged? then st
    else
      var b := st.backups[k];
      var vsKey := Key(k.ns, VolumeSnapshotName(k.name));
      if Key(k.ns, b.gameServer) !in st.servers then
        WriteBackup(st, k, WithCondition(b, b.status.(phase := BackupPending), READY, ConditionFalse,
                                         "GameServerMissing", b.gameServer, a.wall), a.write)
      else if !a.getSnapshot.Acknowledged? then st
      else if vsKey !in st.snapshots then
        var st1 := if a.create.TookEffect() then
                     st.(snapshots := st.snapshots[vsKey := BuildVolumeSnapshot(k.name, b, b.gameServer)])
                   else st;
        if !a.create.Acknowledged? then st1
        else
          WriteBackup(st1, k, WithCondition(b, b.status.(volumeSnapshotName := vsKey.name, phase := BackupInProgress),
                                            BOUND, ConditionFalse, "Creating",
                                                "VolumeSnapshot created; waiting for bind",
                                            a.wall), a.write)
      else
        WriteBackup(st, k, Mirrored(b, vsKey.name, st.snapshots[vsKey], a.wall), a.write)
  }

  class BackupReconciler {
    var store: Store

    method UpdateStatus(k: Key, status: BackupStatus, write: CallResult)
      requires k in store.backups
      modifies this
      ensures store == WriteBackup(old(store), k, status, write)
    {
      if write.TookEffect() {
        store := store.(backups := store.backups[k := store.backups[k].(status := status)]);
      }
    }

    method Reconcile(k: Key, a: BackupAnswers)
      modifies this
      ensures store == ReconcileBackup(old(store), k, a)
    {
      hide Put;
      if !a.getBackup.Acknowledged? || k !in store.backups {
        return;
      }
      var backup := store.backups[k];
      var status := backup.status;
      var conditions := new ConditionList(status.conditions, backup.generation);
      if !a.getServer.Acknowledged? {
        return;
      }
      var server := backup.gameServer;
      if Key(k.ns, server) !in store.servers {
        status := status.(phase := BackupPending);
        conditions.Set(READY, ConditionFalse, "GameServerMissing", server, a.wall);
        UpdateStatus(k, status.(conditions := conditions.items), a.write);
        return;
      }
      var desired := BuildVolumeSnapshot(k.name, backup, server);
      var vsKey := Key(k.ns, VolumeSnapshotName(k.name));
      if !a.getSnapshot.Acknowledged? {
        return;
      }
      if vsKey !in store.snapshots {
        if a.create.TookEffect() {
          store := store.(snapshots := store.snapshots[vsKey := desired]);
        }
        if !a.create.Acknowledged? {
          return;
        }
        status := status.(volumeSnapshotName := vsKey.name, phase := BackupInProgress);
        conditions.Set(BOUND, ConditionFalse, "Creating", "VolumeSnapshot created; waiting for bind", a.wall);
        UpdateStatus(k, status.(conditions := conditions.items), a.write);
        return;
      }
      var existing := store.snapshots[vsKey];
      status := status.(volumeSnapshotName := vsKey.name, observedGeneration := backup.generation);
      if existing.status.Some? {
        var s := existing.status.value;
        if s.boundContent.Some? {
          conditions.Set(BOUND, ConditionTrue, "Bound", s.boundContent.value, a.wall);
        }
        if s.restoreSize.Some? {
          status := status.(restoreSize := s.restoreSize.value);
        }
        if s.creationTime.Some? {
          status := status.(creationTime := s.creationTime);
        }
        if s.readyToUse == Some(true) {
          status := status.(phase := BackupReady);
          conditions.Set(READY, ConditionTrue, "SnapshotReady", "VolumeSnapshot ReadyToUse", a.wall);
          UpdateStatus(k, status.(conditions := conditions.items), a.write);
          return;
        }
        if s.errorMessage.Some? {
          status := status.(phase := BackupFailed);
          conditions.Set(READY, ConditionFalse, "SnapshotError", s.errorMessage.value, a.wall);
          UpdateStatus(k, status.(conditions := conditions.items), a.write);
          return;
        }
      }
      status := status.(phase := BackupInProgress);
      conditions.Set(READY, ConditionFalse, "WaitingForReady", "VolumeSnapshot not yet ReadyToUse", a.wall);
      UpdateStatus(k, status.(conditions := conditions.items), a.write);
    }
  }

  // ---------------------------------------------------------------------------------------------
  // The status a Backup can be in
  // ---------------------------------------------------------------------------------------------

  /** A Ready Backup says so in its conditions, and names its own snapshot. */
  predicate Honest(name: string, st: BackupStatus) {
    && DistinctKinds(st.conditions)
    && (st.phase == BackupReady ==> Holds(st.conditions, READY) && st.volumeSnapshotName == VolumeSnapshotName(name))
  }

  lemma ConditionKeepsKinds(b: Backup, st: BackupStatus, kind: string, s: ConditionStatus, reason: string,
                            message: string, wall: int)
    requires DistinctKinds(st.conditions)
    ensures var after := WithCondition(b, st, kind, s, reason, message, wall);
            && DistinctKinds(after.conditions)
            && (Holds(after.conditions, kind) <==> s == ConditionTrue)
            && after == st.(conditions := after.conditions)
  {
    PutRefinesMapUpdate(st.conditions, Change(kind, s, reason, message, wall, b.generation), kind);
  }

  lemma MirroredIsHonest(b: Backup, name: string, vs: VolumeSnapshot, wall: int)
    requires DistinctKinds(b.status.conditions)
    ensures var st := Mirrored(b, VolumeSnapshotName(name), vs, wall);
            && Honest(name, st) && (st.phase == BackupReady <==> vs.Ready())
            && st.volumeSnapshotName == VolumeSnapshotName(name)
  {
    hide Put, Holds, DistinctKinds;
    var st0 := b.status.(volumeSnapshotName := name, observedGeneration := b.generation);
    if vs.status.None? {
      ConditionKeepsKinds(b, st0.(phase := BackupInProgress), READY, ConditionFalse, "WaitingForReady",
                          "VolumeSnapshot not yet ReadyToUse", wall);
    } else {
      var s := vs.status.value;
      var st1 := st0;
      if s.boundContent.Some? {
        ConditionKeepsKinds(b, st0, BOUND, ConditionTrue, "Bound", s.boundContent.value, wall);
        st1 := WithCondition(b, st0, BOUND, ConditionTrue, "Bound", s.boundContent.value, wall);
      }
      var st2 := if s.restoreSize.Some? then st1.(restoreSize := s.restoreSize.value) else st1;
      var st3 := if s.creationTime.Some? then st2.(creationTime := s.creationTime) else st2;
      if s.Ready() {
        ConditionKeepsKinds(b, st3.(phase := BackupReady), READY, ConditionTrue, "SnapshotReady",
                            "VolumeSnapshot ReadyToUse", wall);
      } else if s.errorMessage.Some? {
        ConditionKeepsKinds(b, st3.(phase := BackupFailed), READY, ConditionFalse, "SnapshotError",
            s.errorMessage.value, wall);
      } else {
        ConditionKeepsKinds(b, st3.(phase := BackupInProgress), READY, ConditionFalse, "WaitingForReady",
                            "VolumeSnapshot not yet ReadyToUse", wall);
      }
    }
  }

  ghost predicate AllHonest(st: Store) {
    forall b :: b in st.backups ==> Honest(b.name, st.backups[b].status)
  }

  lemma WriteKeepsHonest(st: Store, k: Key, status: BackupStatus, write: CallResult)
    requires AllHonest(st) && k in st.backups && Honest(k.name, status)
    ensures AllHonest(WriteBackup(st, k, status, write))
  {
    hide Honest;
  }

  /** Every reconcile, whichever of its calls fail, keeps the Backups honest. */
  lemma ReconcileKeepsHonest(st: Store, k: Key, a: BackupAnswers)
    requires AllHonest(st)
    ensures AllHonest(ReconcileBackup(st, k, a))
  {
    hide WithCondition, Mirrored, WriteBackup, BuildVolumeSnapshot, Holds, DistinctKinds;
    if k in st.backups {
      var b := st.backups[k];
      var vsKey := Key(k.ns, VolumeSnapshotName(k.name));
      if Key(k.ns, b.gameServer) !in st.servers {
        MissingServerIsHonest(b, k.name, a.wall);
        WriteKeepsHonest(st, k, WithCondition(b, b.status.(phase := BackupPending), READY, ConditionFalse,
                                              "GameServerMissing", b.gameServer, a.wall), a.write);
      } else if vsKey !in st.snapshots {
        NewSnapshotIsHonest(b, k.name, a.wall);
        var st1 := if a.create.TookEffect() then
                     st.(snapshots := st.snapshots[vsKey := BuildVolumeSnapshot(k.name, b, b.gameServer)])
                   else st;
        assert AllHonest(st1);
        WriteKeepsHonest(st1, k, WithCondition(b, b.status.(volumeSnapshotName := vsKey.name,
            phase := BackupInProgress),
                                               BOUND, ConditionFalse, "Creating",
                                                   "VolumeSnapshot created; waiting for bind",
                                               a.wall), a.write);
      } else {
        MirroredIsHonest(b, k.name, st.snapshots[vsKey], a.wall);
        WriteKeepsHonest(st, k, Mirrored(b, vsKey.name, st.snapshots[vsKey], a.wall), a.write);
      }
    }
  }

  lemma MissingServerIsHonest(b: Backup, name: string, wall: int)
    requires Honest(name, b.status)
    ensures Honest(name, WithCondition(b, b.status.(phase := BackupPending), READY, ConditionFalse,
                                       "GameServerMissing", b.gameServer, wall))
  {
    hide WithCondition, Holds, DistinctKinds;
    ConditionKeepsKinds(b, b.status.(phase := BackupPending), READY, ConditionFalse, "GameServerMissing", b.gameServer,
        wall);
  }

  lemma NewSnapshotIsHonest(b: Backup, name: string, wall: int)
    requires Honest(name, b.status)
    ensures Honest(name, WithCondition(b, b.status.(volumeSnapshotName := VolumeSnapshotName(name),
        phase := BackupInProgress),
                                       BOUND, ConditionFalse, "Creating", "VolumeSnapshot created; waiting for bind",
                                           wall))
  {
    hide WithCondition, Holds, DistinctKinds;
    ConditionKeepsKinds(b, b.status.(volumeSnapshotName := VolumeSnapshotName(name), phase := BackupInProgress), BOUND,
                        ConditionFalse, "Creating", "VolumeSnapshot created; waiting for bind", wall);
  }

  predicate Reconciles(st: Store, st': Store, k: Key, a: BackupAnswers) {
    st' == ReconcileBackup(st, k, a)
  }

  /** One step of a run: a reconcile, or anything else that leaves the Backups' status alone (objects come and go,
      snapshots turn ready or vanish); new Backups start with an empty status. */
  ghost predicate HonestStep(st: Store, st': Store) {
    || (exists k, a :: Reconciles(st, st', k, a))
    || (forall b :: b in st'.backups ==>
          st'.backups[b].status == if b in st.backups then st.backups[b].status else EMPTY_BACKUP_STATUS)
  }

  /** In every reachable state, with status writes lost and snapshots deleted out of band, phase Ready implies the
      Ready condition. */
  lemma {:induction false} ReadyPhaseImpliesReadyCondition(run: seq<Store>)
    requires |run| > 0 && run[0].backups == map[]
    requires forall i :: 0 <= i < |run| - 1 ==> HonestStep(run[i], run[i + 1])
    ensures AllHonest(run[|run| - 1])
  {
    hide ReconcileBackup, Holds, DistinctKinds;
    var n := |run| - 1;
    if n > 0 {
      ReadyPhaseImpliesReadyCondition(run[..n]);
      var before, after := run[n - 1], run[n];
      assert HonestStep(before, after);
      if k, a :| Reconciles(before, after, k, a) {
        ReconcileKeepsHonest(before, k, a);
      } else {
        EmptyStatusIsHonest();
      }
    }
  }

  lemma EmptyStatusIsHonest()
    ensures forall name :: Honest(name, EMPTY_BACKUP_STATUS)
  {
  }

  // ---------------------------------------------------------------------------------------------
  // When a Ready condition goes stale
  // ---------------------------------------------------------------------------------------------

  /** The condition still says Ready although the phase no longer does. */
  predicate Stale(st: BackupStatus) {
    Holds(st.conditions, READY) && st.phase != BackupReady
  }

  /** The pass finds the server but no snapshot, creates one and stores the status. */
  predicate Recreates(st: Store, k: Key, a: BackupAnswers) {
    && k in st.backups && a.getBackup.Acknowledged? && a.getServer.Acknowledged?
    && Key(k.ns, st.backups[k].gameServer) in st.servers
    && a.getSnapshot.Acknowledged? && Key(k.ns, VolumeSnapshotName(k.name)) !in st.snapshots
    && a.create.Acknowledged? && a.write.TookEffect()
  }

  /** The pass finds no server, or mirrors an existing snapshot, and stores the status. */
  predicate Rewrites(st: Store, k: Key, a: BackupAnswers) {
    && k in st.backups && a.getBackup.Acknowledged? && a.getServer.Acknowledged? && a.write.TookEffect()
    && (Key(k.ns, st.backups[k].gameServer) in st.servers ==>
          a.getSnapshot.Acknowledged? && Key(k.ns, VolumeSnapshotName(k.name)) in st.snapshots)
  }

  lemma ConditionFinds(b: Backup, st: BackupStatus, kind: string, s: ConditionStatus, reason: string, message: string,
                       wall: int, other: string)
    ensures var after := WithCondition(b, st, kind, s, reason, message, wall);
            && after == st.(conditions := after.conditions)
            && (Holds(after.conditions, kind) <==> s == ConditionTrue)
            && (other != kind ==> (Holds(after.conditions, other) <==> Holds(st.conditions, other)))
  {
    PutStaysPut(st.conditions, Change(kind, s, reason, message, wall, b.generation));
    if other != kind {
      PutKeepsOthers(st.conditions, Change(kind, s, reason, message, wall, b.generation), other);
    }
  }

  lemma MirroredIsNotStale(b: Backup, name: string, vs: VolumeSnapshot, wall: int)
    ensures !Stale(Mirrored(b, name, vs, wall))
  {
    hide WithCondition, Holds;
    var st0 := b.status.(volumeSnapshotName := name, observedGeneration := b.generation);
    if vs.status.None? {
      ConditionFinds(b, st0.(phase := BackupInProgress), READY, ConditionFalse, "WaitingForReady",
                     "VolumeSnapshot not yet ReadyToUse", wall, READY);
    } else {
      var s := vs.status.value;
      var st1 := if s.boundContent.Some? then
                   WithCondition(b, st0, BOUND, ConditionTrue, "Bound", s.boundContent.value, wall)
                 else st0;
      var st2 := if s.restoreSize.Some? then st1.(restoreSize := s.restoreSize.value) else st1;
      var st3 := if s.creationTime.Some? then st2.(creationTime := s.creationTime) else st2;
      ConditionFinds(b, st3.(phase := BackupReady), READY, ConditionTrue, "SnapshotReady", "VolumeSnapshot ReadyToUse",
                     wall, READY);
      ConditionFinds(b, st3.(phase := BackupInProgress), READY, ConditionFalse, "WaitingForReady",
                     "VolumeSnapshot not yet ReadyToUse", wall, READY);
      if s.errorMessage.Some? {
        ConditionFinds(b, st3.(phase := BackupFailed), READY, ConditionFalse, "SnapshotError", s.errorMessage.value,
                       wall, READY);
      }
    }
  }

  predicate StaleIn(st: Store, k: Key) {
    k in st.backups && Stale(st.backups[k].status)
  }

  lemma WriteStale(st: Store, k: Key, status: BackupStatus, write: CallResult)
    requires k in st.backups
    ensures StaleIn(WriteBackup(st, k, status, write), k) <==>
            if write.TookEffect() then Stale(status) else StaleIn(st, k)
  {
    hide Holds;
  }

  /** Exactly when a reconcile leaves a stale Ready condition: recreating a lost snapshot turns a held condition stale,
      any other stored status cures it, and a pass that stores no status leaves things as they were. */
  lemma StaleReadyIff(st: Store, k: Key, a: BackupAnswers)
    ensures StaleIn(ReconcileBackup(st, k, a), k) <==>
            if Recreates(st, k, a) then Holds(st.backups[k].status.conditions, READY)
            else !Rewrites(st, k, a) && StaleIn(st, k)
  {
    hide WithCondition, Holds, Mirrored, BuildVolumeSnapshot, WriteBackup, Stale;
    if k in st.backups {
      var b := st.backups[k];
      if Key(k.ns, b.gameServer) !in st.servers {
        var status := WithCondition(b, b.status.(phase := BackupPending), READY, ConditionFalse, "GameServerMissing",
                                    b.gameServer, a.wall);
        MissingServerIsNotStale(b, a.wall);
        WriteStale(st, k, status, a.write);
      } else if k !in st.snapshots {
        var created := st.(snapshots := st.snapshots[k := BuildVolumeSnapshot(k.name, b, b.gameServer)]);
        var status := WithCondition(b, b.status.(volumeSnapshotName := k.name, phase := BackupInProgress), BOUND,
                                    ConditionFalse, "Creating", "VolumeSnapshot created; waiting for bind", a.wall);
        RecreationIsStale(b, k.name, a.wall);
        WriteStale(created, k, status, a.write);
        assert StaleIn(created, k) == StaleIn(st, k);
      } else {
        MirroredIsNotStale(b, k.name, st.snapshots[k], a.wall);
        WriteStale(st, k, Mirrored(b, k.name, st.snapshots[k], a.wall), a.write);
      }
    }
  }

  lemma MissingServerIsNotStale(b: Backup, wall: int)
    ensures !Stale(WithCondition(b, b.status.(phase := BackupPending), READY, ConditionFalse, "GameServerMissing",
                                 b.gameServer, wall))
  {
    hide WithCondition, Holds;
    ConditionFinds(b, b.status.(phase := BackupPending), READY, ConditionFalse, "GameServerMissing", b.gameServer, wall,
                   READY);
  }

  lemma RecreationIsStale(b: Backup, name: string, wall: int)
    ensures Stale(WithCondition(b, b.status.(volumeSnapshotName := name, phase := BackupInProgress), BOUND,
        ConditionFalse,
                                "Creating", "VolumeSnapshot created; waiting for bind", wall))
            <==> Holds(b.status.conditions, READY)
  {
    hide WithCondition, Holds;
    ConditionFinds(b, b.status.(volumeSnapshotName := name, phase := BackupInProgress), BOUND, ConditionFalse,
        "Creating",
                   "VolumeSnapshot created; waiting for bind", wall, READY);
  }

  /** So from a Backup whose phase and condition agree, a stale condition arises exactly when a Ready Backup's lost
      snapshot is recreated and the status is stored. */
  lemma AgreementLostIff(st: Store, k: Key, a: BackupAnswers)
    requires k in st.backups
    requires Holds(st.backups[k].status.conditions, READY) <==> st.backups[k].status.phase == BackupReady
    ensures StaleIn(ReconcileBackup(st, k, a), k) <==>
            Recreates(st, k, a) && st.backups[k].status.phase == BackupReady
  {
    hide ReconcileBackup, Holds, Recreates, Rewrites;
    StaleReadyIff(st, k, a);
  }

  /** An input: a Ready Backup whose snapshot is gone goes back to InProgress and keeps its Ready=True condition. */
  lemma RecreatedSnapshotLeavesStaleReady(st: Store, k: Key, a: BackupAnswers)
    requires k in st.backups && Key(k.ns, st.backups[k].gameServer) in st.servers && k !in st.snapshots
    requires a.getBackup.Acknowledged? && a.getServer.Acknowledged? && a.getSnapshot.Acknowledged?
    requires a.create.Acknowledged? && a.write.TookEffect()
    requires DistinctKinds(st.backups[k].status.conditions) && Holds(st.backups[k].status.conditions, READY)
    ensures var status := ReconcileBackup(st, k, a).backups[k].status;
            status.phase == BackupInProgress && Holds(status.conditions, READY)
  {
    var b := st.backups[k];
    PutRefinesMapUpdate(b.status.conditions, Change(BOUND, ConditionFalse, "Creating",
                        "VolumeSnapshot created; waiting for bind", a.wall, b.generation), READY);
  }
}
