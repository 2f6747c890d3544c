/** The backup-side API objects, in the shape the controllers read and write them. */
module Objects {
  import opened Prelude
  import opened Conditions

  datatype BackupPhase = NoPhase | BackupPending | BackupInProgress | BackupReady | BackupFailed | BackupDeleted

  datatype BackupStatus = BackupStatus(
    phase: BackupPhase,
    volumeSnapshotName: string,
    restoreSize: string,
    creationTime: Option<int>,
    observedGeneration: int,
    conditions: seq<Condition>)

  const EMPTY_BACKUP_STATUS := BackupStatus(NoPhase, "", "", None, 0, [])

  /** A Backup; `schedule` is its schedule label, empty when it carries none. */
  datatype Backup = Backup(
    schedule: string,
    creationTimestamp: int,
    generation: int,
    gameServer: string,
    snapshotClass: string,
    retainForever: bool,
    status: BackupStatus)

  datatype NamedBackup = NamedBackup(name: string, backup: Backup)

  /** The Backups of a namespace that carry a schedule's label. */
  function Children(backups: map<string, Backup>, schedule: string): (children: set<NamedBackup>)
    ensures forall x :: x in children <==>
              x.name in backups && backups[x.name] == x.backup && x.backup.schedule == schedule
  {
    set name | name in backups && backups[name].schedule == schedule :: NamedBackup(name, backups[name])
  }

  /** The answer of a list call: the labelled Backups, each once, in any order. */
  predicate IsListing(items: seq<NamedBackup>, backups: map<string, Backup>, schedule: string) {
    Distinct(items) && Elements(items) == Children(backups, schedule)
  }
}
