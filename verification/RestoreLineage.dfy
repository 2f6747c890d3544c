/** Where a restored world comes from: the chain from a GameServer's claim through a Backup and its VolumeSnapshot to
    the claim the snapshot was taken of, over every interleaving of the controllers with users and the storage
    driver. */
module RestoreLineage {
  import opened Prelude
  import opened Conditions
  import opened Objects
  import opened GameTypes
  import opened Services
  import opened Stores
  import opened ServerViews
  import GS = GameServers
  import BackupControllers

  /** A server reconcile between its two reads of the claim: what it has read, and the source it resolved. */
  datatype Pending = Pending(gs: GameServer, tpl: GameTemplate, source: GS.Source)

  datatype State = State(store: Store, pending: map<Key, Pending>)

  /** What users never change: the Backup a server is restored from, and the server a Backup is taken of. */
  datatype Fixed = Fixed(restoreFrom: Key -> Option<string>, gameServer: Key -> string)

  // ---------------------------------------------------------------------------------------------
  // Steps
  // ---------------------------------------------------------------------------------------------

  ghost predicate BackupStep(s: State, s': State, k: Key, a: BackupControllers.BackupAnswers) {
    s' == s.(store := BackupControllers.ReconcileBackup(s.store, k, a))
  }

  function ClaimOf(st: Store, k: Key): Option<PVC> {
    Get(st.pvcs, ClaimKey(k))
  }

  function RestoreBackup(st: Store, k: Key, gs: GameServer): Option<Backup> {
    if gs.spec.restoreFrom.Some? then Get(st.backups, Key(k.ns, gs.spec.restoreFrom.value)) else None
  }

  /** A reconcile resolves its restore source; an unavailable one ends it. */
  ghost predicate ResolveStep(s: State, s': State, k: Key, tpl: GameTemplate, a: GS.Answers) {
    && k in s.store.servers && k !in s.pending
    && var gs := s.store.servers[k];
       var source := GS.RestoreSource(gs, ClaimOf(s.store, k), RestoreBackup(s.store, k, gs), a);
       s' == if source.NoSuch? then s else s.(pending := s.pending[k := Pending(gs, tpl, source)])
  }

  /** It then reads the claim again and creates it if missing. */
  ghost predicate ApplyStep(s: State, s': State, k: Key, a: GS.Answers) {
    && k in s.pending
    && var p := s.pending[k];
       var stage := GS.ApplyClaim(Project(s.store, k), GS.BuildPVC(k.name, p.gs, p.tpl, p.source), a);
       s' == State(Embed(s.store, k, stage.view), s.pending - {k})
  }

  /** The process can die in between. */
  predicate AbandonStep(s: State, s': State, k: Key) {
    s' == s.(pending := s.pending - {k})
  }

  /** Everyone else: users, the storage driver, and the parts of the controllers that touch no claim, Backup status
      or snapshot.  Only the operator creates snapshots and owned claims, a claim's owner and data source do not
      change, and no claim is deleted between a reconcile's two reads of it. */
  ghost predicate OutsideStep(f: Fixed, s: State, s': State) {
    && s'.pending == s.pending
    && Shaped(f, s'.store)
    && (forall x :: x in s'.store.backups ==>
          s'.store.backups[x].status == if x in s.store.backups then s.store.backups[x].status else EMPTY_BACKUP_STATUS)
    && (forall x :: x in s'.store.snapshots ==>
          x in s.store.snapshots && s'.store.snapshots[x].source == s.store.snapshots[x].source)
    && (forall x :: x in s'.store.pvcs && s'.store.pvcs[x].owner.Some? ==>
          && x in s.store.pvcs && s.store.pvcs[x].owner == s'.store.pvcs[x].owner
          && s.store.pvcs[x].dataSource == s'.store.pvcs[x].dataSource)
    && (forall k :: k in s.pending && ClaimKey(k) in s.store.pvcs ==> ClaimKey(k) in s'.store.pvcs)
  }

  ghost predicate Shaped(f: Fixed, st: Store) {
    && (forall k :: k in st.servers ==> st.servers[k].spec.restoreFrom == f.restoreFrom(k))
    && (forall k :: k in st.backups ==> st.backups[k].gameServer == f.gameServer(k))
  }

  ghost predicate Step(f: Fixed, s: State, s': State) {
    || (exists k, a :: BackupStep(s, s', k, a))
    || (exists k, tpl, a :: ResolveStep(s, s', k, tpl, a))
    || (exists k, a :: ApplyStep(s, s', k, a))
    || (exists k :: AbandonStep(s, s', k))
    || OutsideStep(f, s, s')
  }

  ghost predicate Initial(f: Fixed, s: State) {
    && s.pending == map[] && Shaped(f, s.store) && s.store.snapshots == map[]
    && (forall x :: x in s.store.backups ==> s.store.backups[x].status == EMPTY_BACKUP_STATUS)
    && (forall x :: x in s.store.pvcs ==> s.store.pvcs[x].owner.None?)
  }

  ghost predicate IsRun(f: Fixed, run: seq<State>) {
    && run != [] && Initial(f, run[0])
    && forall i :: 0 <= i < |run| - 1 ==> Step(f, run[i], run[i + 1])
  }

  // ---------------------------------------------------------------------------------------------
  // The invariant
  // ---------------------------------------------------------------------------------------------

  predicate ReadySnapshot(f: Fixed, st: Store, x: Key) {
    x in st.snapshots && st.snapshots[x].Ready() && st.snapshots[x].source == PVCName(f.gameServer(x))
  }

  /** At some point of the past a Backup's snapshot was ReadyToUse, and it was taken of the right server's claim. */
  ghost predicate WasReady(f: Fixed, past: seq<State>, x: Key) {
    exists j :: 0 <= j < |past| && ReadySnapshot(f, past[j].store, x)
  }

  /** A claim seeded from a snapshot that had become ready. */
  ghost predicate SeededFrom(f: Fixed, past: seq<State>, k: Key, claim: PVC) {
    f.restoreFrom(k).Some? ==>
      claim.dataSource == f.restoreFrom(k) && WasReady(f, past, Key(k.ns, f.restoreFrom(k).value))
  }

  predicate SnapshotsTraced(f: Fixed, st: Store) {
    forall x :: x in st.snapshots ==> st.snapshots[x].source == PVCName(f.gameServer(x))
  }

  ghost predicate BackupTraced(f: Fixed, past: seq<State>, x: Key, b: Backup) {
    b.status.phase == BackupReady ==> b.status.volumeSnapshotName == x.name && WasReady(f, past, x)
  }

  ghost predicate BackupsTraced(f: Fixed, past: seq<State>, st: Store) {
    forall x :: x in st.backups ==> BackupTraced(f, past, x, st.backups[x])
  }

  ghost predicate PendingTraced(f: Fixed, past: seq<State>, st: Store, k: Key, p: Pending) {
    && p.gs.spec.restoreFrom == f.restoreFrom(k)
    && !p.source.NoSuch?
    && (f.restoreFrom(k).Some? && ClaimKey(k) !in st.pvcs ==>
          && p.source.Snapshot? && p.source.name != "" && f.restoreFrom(k) == Some(p.source.name)
          && WasReady(f, past, Key(k.ns, p.source.name)))
  }

  ghost predicate PendingsTraced(f: Fixed, past: seq<State>, s: State) {
    forall k :: k in s.pending ==> PendingTraced(f, past, s.store, k, s.pending[k])
  }

  /** The claim under a server's name, created for that server. */
  predicate OwnClaim(st: Store, k: Key) {
    ClaimKey(k) in st.pvcs && st.pvcs[ClaimKey(k)].owner == Some(k.name)
  }

  ghost predicate ClaimsTraced(f: Fixed, past: seq<State>, st: Store) {
    forall k :: OwnClaim(st, k) ==> SeededFrom(f, past, k, st.pvcs[ClaimKey(k)])
  }

  ghost predicate Inv(f: Fixed, past: seq<State>, s: State) {
    && Shaped(f, s.store)
    && SnapshotsTraced(f, s.store)
    && BackupsTraced(f, past, s.store)
    && PendingsTraced(f, past, s)
    && ClaimsTraced(f, past, s.store)
  }

  lemma WasReadyLater(f: Fixed, past: seq<State>, s: State)
    ensures forall x :: WasReady(f, past, x) ==> WasReady(f, past + [s], x)
    ensures forall x :: ReadySnapshot(f, s.store, x) ==> WasReady(f, past + [s], x)
  {
    hide ReadySnapshot;
    var more := past + [s];
    forall x | WasReady(f, past, x)
      ensures WasReady(f, more, x)
    {
      var j :| 0 <= j < |past| && ReadySnapshot(f, past[j].store, x);
      assert more[j] == past[j];
    }
    assert more[|past|] == s;
  }

  /** The invariant speaks of the past, and the past only grows. */
  lemma InvLater(f: Fixed, past: seq<State>, s: State)
    requires Inv(f, past, s)
    ensures Inv(f, past + [s], s)
  {
    hide WasReady, Shaped, SnapshotsTraced;
    WasReadyLater(f, past, s);
  }

  lemma InitialInv(f: Fixed, s: State)
    requires Initial(f, s)
    ensures Inv(f, [], s)
  {
    hide WasReady;
  }

  // ---------------------------------------------------------------------------------------------
  // Every step keeps it
  // ---------------------------------------------------------------------------------------------

  lemma MirroredReady(b: Backup, name: string, vs: VolumeSnapshot, wall: int)
    ensures var st := BackupControllers.Mirrored(b, name, vs, wall);
            st.phase == BackupReady ==> vs.Ready() && st.volumeSnapshotName == name
  {
    hide Put;
  }

  /** A status that says Ready is written only over a ready snapshot, and names it. */
  predicate BackupWrites(st: Store, k: Key, status: BackupStatus) {
    status.phase == BackupReady ==>
      k in st.snapshots && st.snapshots[k].Ready() && status.volumeSnapshotName == k.name
  }

  /** A Backup's status has been written, or not, over some store. */
  predicate BackupWritten(before: Store, st: Store, after: Store, k: Key) {
    && k in st.backups && k in after.backups
    && after == st.(backups := st.backups[k := st.backups[k].(status := after.backups[k].status)])
    && (after.backups[k] == st.backups[k] || BackupWrites(before, k, after.backups[k].status))
  }

  function Snapshotted(st: Store, k: Key): Store
    requires k in st.backups
  {
    var b := st.backups[k];
    st.(snapshots := st.snapshots[k := BackupControllers.BuildVolumeSnapshot(k.name, b, b.gameServer)])
  }

  lemma WriteIsWritten(before: Store, st: Store, k: Key, status: BackupStatus, write: CallResult)
    requires k in st.backups && BackupWrites(before, k, status)
    ensures BackupWritten(before, st, BackupControllers.WriteBackup(st, k, status, write), k)
    ensures BackupWritten(before, st, st, k)
  {
    hide BackupWrites;
    assert st.backups == st.backups[k := st.backups[k].(status := st.backups[k].status)];
  }

  /** What a Backup reconcile can have done: created its own snapshot, and written its own status, Ready only over a
      ready snapshot. */
  lemma BackupReconcileWrites(st: Store, k: Key, a: BackupControllers.BackupAnswers)
    ensures var after := BackupControllers.ReconcileBackup(st, k, a);
            && (k !in st.backups ==> after == st)
            && (k in st.backups ==> BackupWritten(st, st, after, k) || BackupWritten(st, Snapshotted(st, k), after, k))
  {
    hide BackupControllers.Mirrored, BackupControllers.BuildVolumeSnapshot, BackupControllers.WithCondition,
      BackupControllers.WriteBackup, BackupWritten, BackupWrites;
    if k in st.backups {
      var b := st.backups[k];
      NotReadyWrites(st, k, b.status);
      WriteIsWritten(st, st, k, b.status.(phase := BackupPending), Lost);
      if Key(k.ns, b.gameServer) !in st.servers {
        var status := BackupControllers.WithCondition(b, b.status.(phase := BackupPending), BackupControllers.READY,
                                                      ConditionFalse, "GameServerMissing", b.gameServer, a.wall);
        ConditionsOnly(b, b.status.(phase := BackupPending), BackupControllers.READY, ConditionFalse,
            "GameServerMissing",
                       b.gameServer, a.wall);
        NotReadyWrites(st, k, status);
        WriteIsWritten(st, st, k, status, a.write);
      } else if k !in st.snapshots {
        var waiting := b.status.(volumeSnapshotName := k.name, phase := BackupInProgress);
        var status := BackupControllers.WithCondition(b, waiting, BackupControllers.BOUND, ConditionFalse, "Creating",
                                                      "VolumeSnapshot created; waiting for bind", a.wall);
        ConditionsOnly(b, waiting, BackupControllers.BOUND, ConditionFalse, "Creating",
                       "VolumeSnapshot created; waiting for bind", a.wall);
        NotReadyWrites(st, k, status);
        WriteIsWritten(st, Snapshotted(st, k), k, status, a.write);
      } else {
        MirroredWrites(st, k, a.wall);
        WriteIsWritten(st, st, k, BackupControllers.Mirrored(b, k.name, st.snapshots[k], a.wall), a.write);
      }
    }
  }

  lemma NotReadyWrites(st: Store, k: Key, status: BackupStatus)
    ensures status.phase != BackupReady ==> BackupWrites(st, k, status)
    ensures BackupWrites(st, k, status.(phase := BackupPending))
  {
  }

  lemma MirroredWrites(st: Store, k: Key, wall: int)
    requires k in st.backups && k in st.snapshots
    ensures BackupWrites(st, k, BackupControllers.Mirrored(st.backups[k], k.name, st.snapshots[k], wall))
  {
    hide BackupControllers.Mirrored;
    MirroredReady(st.backups[k], k.name, st.snapshots[k], wall);
  }

  lemma ConditionsOnly(b: Backup, st: BackupStatus, kind: string, c: ConditionStatus, reason: string, message: string,
                       wall: int)
    ensures BackupControllers.WithCondition(b, st, kind, c, reason, message, wall).phase == st.phase
  {
  }

  lemma SnapshottedTraced(f: Fixed, past: seq<State>, st: Store, k: Key)
    requires k in st.backups && Shaped(f, st) && SnapshotsTraced(f, st) && BackupsTraced(f, past, st)
    ensures var after := Snapshotted(st, k);
            Shaped(f, after) && SnapshotsTraced(f, after) && BackupsTraced(f, past, after) && after.pvcs == st.pvcs
  {
    hide WasReady, PVCName, BackupTraced;
  }

  lemma WrittenTraced(f: Fixed, past: seq<State>, before: Store, st: Store, after: Store, k: Key)
    requires Shaped(f, st) && SnapshotsTraced(f, st) && BackupsTraced(f, past, st) && BackupWritten(before, st, after,
        k)
    requires SnapshotsTraced(f, before)
    requires forall x :: ReadySnapshot(f, before, x) ==> WasReady(f, past, x)
    ensures Shaped(f, after) && SnapshotsTraced(f, after) && BackupsTraced(f, past, after) && after.pvcs == st.pvcs
  {
    hide WasReady, PVCName, BackupsTraced;
    if after.backups[k] != st.backups[k] && after.backups[k].status.phase == BackupReady {
      assert ReadySnapshot(f, before, k);
    }
    BackupRetraced(f, past, st, after, k);
  }

  lemma BackupRetraced(f: Fixed, past: seq<State>, st: Store, after: Store, k: Key)
    requires BackupsTraced(f, past, st) && k in after.backups
    requires forall x :: x in after.backups && x != k ==> x in st.backups && after.backups[x] == st.backups[x]
    ensures BackupTraced(f, past, k, after.backups[k]) ==> BackupsTraced(f, past, after)
    ensures k in st.backups ==> BackupTraced(f, past, k, st.backups[k])
  {
    hide BackupTraced;
  }

  lemma BackupReconcileTraced(f: Fixed, past: seq<State>, st: Store, k: Key, a: BackupControllers.BackupAnswers)
    requires Shaped(f, st) && SnapshotsTraced(f, st) && BackupsTraced(f, past, st)
    requires forall x :: ReadySnapshot(f, st, x) ==> WasReady(f, past, x)
    ensures var after := BackupControllers.ReconcileBackup(st, k, a);
            && Shaped(f, after) && SnapshotsTraced(f, after) && BackupsTraced(f, past, after)
            && after.pvcs == st.pvcs
  {
    hide WasReady, ReadySnapshot, BackupControllers.ReconcileBackup, Shaped, SnapshotsTraced, BackupsTraced,
        BackupWritten,
      Snapshotted;
    BackupReconcileWrites(st, k, a);
    if k in st.backups {
      var after := BackupControllers.ReconcileBackup(st, k, a);
      SnapshottedTraced(f, past, st, k);
      if BackupWritten(st, st, after, k) {
        WrittenTraced(f, past, st, st, after, k);
      } else {
        WrittenTraced(f, past, st, Snapshotted(st, k), after, k);
      }
    }
  }

  lemma BackupStepKeeps(f: Fixed, past: seq<State>, s: State, s': State, k: Key, a: BackupControllers.BackupAnswers)
    requires Inv(f, past, s) && BackupStep(s, s', k, a)
    requires forall x :: ReadySnapshot(f, s.store, x) ==> WasReady(f, past, x)
    ensures Inv(f, past, s')
  {
    hide WasReady, BackupControllers.ReconcileBackup, Shaped, SnapshotsTraced, BackupsTraced;
    BackupReconcileTraced(f, past, s.store, k, a);
  }

  lemma ResolveStepKeeps(f: Fixed, past: seq<State>, s: State, s': State, k: Key, tpl: GameTemplate, a: GS.Answers)
    requires Inv(f, past, s) && ResolveStep(s, s', k, tpl, a)
    ensures Inv(f, past, s')
  {
    hide WasReady, SnapshotsTraced, ClaimsTraced;
  }

  /** The claim a pending reconcile leaves behind is the old one relabelled, or the new one it was to build. */
  lemma AppliedPendingClaim(f: Fixed, past: seq<State>, s: State, k: Key, a: GS.Answers)
    requires k in s.pending && PendingTraced(f, past, s.store, k, s.pending[k])
    ensures var p := s.pending[k];
            var before, after := ClaimOf(s.store, k),
                                 GS.ApplyClaim(Project(s.store, k), GS.BuildPVC(k.name, p.gs, p.tpl, p.source),
                                     a).view.claim;
            || after == before
            || (before.Some? && after.Some? && after.value == before.value.(labels := after.value.labels))
            || (after.Some? && SeededFrom(f, past, k, after.value))
  {
    hide WasReady, BaseLabels;
  }

  lemma ApplyTouchesTheClaim(s: State, s': State, k: Key, a: GS.Answers)
    requires ApplyStep(s, s', k, a)
    ensures var p := s.pending[k];
            var claim := GS.ApplyClaim(Project(s.store, k), GS.BuildPVC(k.name, p.gs, p.tpl, p.source), a).view.claim;
            && s'.store == s.store.(pvcs := s'.store.pvcs)
            && ClaimOf(s'.store, k) == claim
            && (forall j :: j != k ==> ClaimOf(s'.store, j) == ClaimOf(s.store, j))
            && (claim.None? ==> ClaimOf(s.store, k).None?)
  {
    hide Set, SetServices, PVCName, GS.BuildPVC;
    var p := s.pending[k];
    PartsBack(s.store, k);
    forall j | j != k
      ensures ClaimOf(s'.store, j) == ClaimOf(s.store, j)
    {
      OtherKeysDiffer(j, k);
    }
  }

  lemma OwnClaims(st: Store, k: Key)
    ensures OwnClaim(st, k) <==> ClaimOf(st, k).Some? && ClaimOf(st, k).value.owner == Some(k.name)
    ensures OwnClaim(st, k) ==> ClaimOf(st, k).value == st.pvcs[ClaimKey(k)]
    ensures ClaimKey(k) in st.pvcs <==> ClaimOf(st, k).Some?
  {
  }

  lemma ApplyStepKeepsClaims(f: Fixed, past: seq<State>, s: State, s': State, k: Key, a: GS.Answers, j: Key)
    requires ClaimsTraced(f, past, s.store) && PendingsTraced(f, past, s) && ApplyStep(s, s', k, a)
    requires OwnClaim(s'.store, j)
    ensures SeededFrom(f, past, j, s'.store.pvcs[ClaimKey(j)])
  {
    hide WasReady, GS.BuildPVC, ClaimKey, ClaimOf, GS.ApplyClaim, Embed, Project, PendingTraced, OwnClaim;
    AppliedPendingClaim(f, past, s, k, a);
    ApplyTouchesTheClaim(s, s', k, a);
    OwnClaims(s.store, j);
    OwnClaims(s'.store, j);
  }

  lemma ApplyStepKeepsPendings(f: Fixed, past: seq<State>, s: State, s': State, k: Key, a: GS.Answers)
    requires PendingsTraced(f, past, s) && ApplyStep(s, s', k, a)
    ensures PendingsTraced(f, past, s')
  {
    hide WasReady, GS.BuildPVC, ClaimKey, ClaimOf, GS.ApplyClaim, Embed, Project;
    ApplyTouchesTheClaim(s, s', k, a);
    forall j | j in s'.pending
      ensures PendingTraced(f, past, s'.store, j, s'.pending[j])
    {
      OwnClaims(s.store, j);
      OwnClaims(s'.store, j);
      assert PendingTraced(f, past, s.store, j, s.pending[j]);
    }
  }

  lemma ApplyStepKeeps(f: Fixed, past: seq<State>, s: State, s': State, k: Key, a: GS.Answers)
    requires Inv(f, past, s) && ApplyStep(s, s', k, a)
    ensures Inv(f, past, s')
  {
    hide ApplyStep, PendingsTraced, SeededFrom, BackupTraced, ClaimKey, ClaimOf, GS.ApplyClaim, GS.BuildPVC;
    ApplyTouchesTheClaim(s, s', k, a);
    ApplyStepKeepsPendings(f, past, s, s', k, a);
    forall j | OwnClaim(s'.store, j)
      ensures SeededFrom(f, past, j, s'.store.pvcs[ClaimKey(j)])
    {
      ApplyStepKeepsClaims(f, past, s, s', k, a, j);
    }
  }

  lemma OutsideStepKeeps(f: Fixed, past: seq<State>, s: State, s': State)
    requires Inv(f, past, s) && OutsideStep(f, s, s')
    ensures Inv(f, past, s')
  {
    hide WasReady, Shaped, ClaimKey;
    forall k | OwnClaim(s'.store, k)
      ensures SeededFrom(f, past, k, s'.store.pvcs[ClaimKey(k)])
    {
      assert OwnClaim(s.store, k);
    }
  }

  lemma AbandonStepKeeps(f: Fixed, past: seq<State>, s: State, s': State, k: Key)
    requires Inv(f, past, s) && AbandonStep(s, s', k)
    ensures Inv(f, past, s')
  {
    hide PendingTraced, Shaped, SnapshotsTraced, BackupsTraced, ClaimsTraced;
  }

  lemma StepKeeps(f: Fixed, past: seq<State>, s: State, s': State)
    requires Inv(f, past, s) && Step(f, s, s')
    ensures Inv(f, past + [s], s')
  {
    hide Inv, BackupStep, ResolveStep, ApplyStep, AbandonStep, OutsideStep, WasReady, ReadySnapshot;
    var now := past + [s];
    InvLater(f, past, s);
    WasReadyLater(f, past, s);
    if k, a :| BackupStep(s, s', k, a) {
      BackupStepKeeps(f, now, s, s', k, a);
    } else if k, tpl, a :| ResolveStep(s, s', k, tpl, a) {
      ResolveStepKeeps(f, now, s, s', k, tpl, a);
    } else if k, a :| ApplyStep(s, s', k, a) {
      ApplyStepKeeps(f, now, s, s', k, a);
    } else if k :| AbandonStep(s, s', k) {
      AbandonStepKeeps(f, now, s, s', k);
    } else {
      OutsideStepKeeps(f, now, s, s');
    }
  }

  lemma {:induction false} InvAlongRun(f: Fixed, run: seq<State>)
    requires IsRun(f, run)
    ensures Inv(f, run[..|run| - 1], run[|run| - 1])
  {
    hide Inv, Step, Initial;
    var n := |run| - 1;
    if n == 0 {
      InitialInv(f, run[0]);
      assert run[..0] == [];
    } else {
      InvAlongRun(f, run[..n]);
      assert run[..n][..n - 1] == run[..n - 1];
      StepKeeps(f, run[..n - 1], run[n - 1], run[n]);
      assert run[..n] == run[..n - 1] + [run[n - 1]];
    }
  }

  // ---------------------------------------------------------------------------------------------
  // Main results
  // ---------------------------------------------------------------------------------------------

  /** In every state of every run, the claim created for a server with restoreFrom is never an empty one: it names the
      VolumeSnapshot of that Backup, and in some earlier state that snapshot existed, was ReadyToUse, and had been
      taken of the claim of the server the Backup named. */
  lemma RestoredClaimsHaveLineage(f: Fixed, run: seq<State>, n: nat, k: Key)
    requires IsRun(f, run) && n < |run|
    requires OwnClaim(run[n].store, k) && f.restoreFrom(k).Some?
    ensures var backup := f.restoreFrom(k).value;
            && run[n].store.pvcs[ClaimKey(k)].dataSource == Some(backup)
            && exists j :: 0 <= j < n
                 && var snapshots := run[j].store.snapshots;
                    var x := Key(k.ns, BackupControllers.VolumeSnapshotName(backup));
                    x in snapshots && snapshots[x].Ready() && snapshots[x].source == PVCName(f.gameServer(x))
  {
    hide Step, Initial, ClaimKey, PVCName;
    var prefix := run[..n + 1];
    InvAlongRun(f, prefix);
    var claim := run[n].store.pvcs[ClaimKey(k)];
    assert SeededFrom(f, prefix[..n], k, claim);
    var j :| 0 <= j < n && ReadySnapshot(f, prefix[..n][j].store, Key(k.ns, f.restoreFrom(k).value));
    assert prefix[..n][j] == run[j];
  }

  /** The one way to an empty world: a claim created for a server with restoreFrom has no data source exactly when a
      claim existed at the first read and was gone at the second. */
  lemma EmptyClaimIffDeletedBetweenReads(k: Key, gs: GameServer, tpl: GameTemplate, backup: Option<Backup>,
                                         first: Option<PVC>, second: View, a: GS.Answers)
    requires gs.spec.restoreFrom.Some? && second.claim.None?
    requires var source := GS.RestoreSource(gs, first, backup, a);
             && !source.NoSuch?
             && GS.ApplyClaim(second, GS.BuildPVC(k.name, gs, tpl, source), a).view.claim.Some?
    ensures var source := GS.RestoreSource(gs, first, backup, a);
            var claim := GS.ApplyClaim(second, GS.BuildPVC(k.name, gs, tpl, source), a).view.claim.value;
            claim.dataSource.None? <==> first.Some?
  {
  }
}
